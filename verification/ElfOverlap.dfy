/**
  A file the loader accepts on which address lookup and the staged image differ.
 */
module ElfOverlap {
  import opened Bytes
  import opened ElfLoader

  /** Byte `i` of a shared object with two loadable segments of one byte each, both at address 0. */
  function ExampleByte(i: nat): (b: Byte) {
    match i
    // Identification, type, machine, version, offset, entry size and count of the program headers.
    case 0 => 0x7F
    case 1 => 'E' as int
    case 2 => 'L' as int
    case 3 => 'F' as int
    case 4 => 2
    case 5 => 1
    case 6 => 1
    case 16 => 3
    case 18 => 62
    case 20 => 1
    case 32 => 64
    case 54 => 56
    case 56 => 2
    // The first segment is byte 0 of the file, the second byte 1: type, offset, sizes in file and memory.
    case 64 => 1
    case 96 => 1
    case 104 => 1
    case 120 => 1
    case 128 => 1
    case 152 => 1
    case 160 => 1
    case _ => 0
  }

  ghost predicate IsExample(raw: Raw) {
    |raw| == 176 && forall i {:trigger raw[i]} :: 0 <= i < 176 ==> raw[i] == ExampleByte(i)
  }

  function Example(): (raw: Raw)
    ensures IsExample(raw)
  {
    seq(176, i requires 0 <= i < 176 => ExampleByte(i))
  }

  // ---- Fields whose higher bytes are zero -----------------------------------------------------------------

  lemma SmallTwo(raw: Raw, off: nat)
    requires off + 2 <= |raw| && raw[off + 1] == 0
    ensures LeAt(raw, off, 2) == raw[off]
  {
    assert LeAt(raw, off + 1, 1) == raw[off + 1] + 256 * LeAt(raw, off + 2, 0);
  }

  lemma SmallFour(raw: Raw, off: nat)
    requires off + 4 <= |raw| && raw[off + 1] == raw[off + 2] == raw[off + 3] == 0
    ensures LeAt(raw, off, 4) == raw[off]
  {
    SmallTwo(raw, off + 2);
    assert LeAt(raw, off + 1, 3) == raw[off + 1] + 256 * LeAt(raw, off + 2, 2);
  }

  lemma SmallEight(raw: Raw, off: nat)
    requires off + 8 <= |raw| && raw[off + 1] == raw[off + 2] == raw[off + 3] == 0
    requires raw[off + 4] == raw[off + 5] == raw[off + 6] == raw[off + 7] == 0
    ensures LeAt(raw, off, 8) == raw[off]
  {
    SmallFour(raw, off + 4);
    assert LeAt(raw, off + 3, 5) == raw[off + 3] + 256 * LeAt(raw, off + 4, 4);
    assert LeAt(raw, off + 2, 6) == raw[off + 2] + 256 * LeAt(raw, off + 3, 5);
    assert LeAt(raw, off + 1, 7) == raw[off + 1] + 256 * LeAt(raw, off + 2, 6);
  }

  lemma ExampleTable(raw: Raw)
    requires IsExample(raw)
    ensures Identified(raw) && TableOf(raw) == Table(64, 56, 2)
  {
    SmallFour(raw, 20);
    SmallEight(raw, 32);
    SmallTwo(raw, 54);
    SmallTwo(raw, 56);
  }

  lemma FirstHeader(raw: Raw)
    requires IsExample(raw)
    ensures HeaderAt(raw, 64) == ProgramHeader(PT_LOAD, 0, 0, 1, 1)
  {
    SmallFour(raw, 64);
    SmallEight(raw, 72);
    SmallEight(raw, 80);
    SmallEight(raw, 96);
    SmallEight(raw, 104);
  }

  lemma SecondHeader(raw: Raw)
    requires IsExample(raw)
    ensures HeaderAt(raw, 120) == ProgramHeader(PT_LOAD, 1, 0, 1, 1)
  {
    SmallFour(raw, 120);
    SmallEight(raw, 128);
    SmallEight(raw, 136);
    SmallEight(raw, 152);
    SmallEight(raw, 160);
  }

  // ---- The file is accepted ---------------------------------------------------------------------------------

  /** A file with these two headers is accepted, whatever else it holds. */
  lemma TwoSegments(raw: Raw, t: Table)
    requires 176 <= |raw| && Identified(raw) && t == TableOf(raw) == Table(64, 56, 2)
    requires HeaderAt(raw, 64) == ProgramHeader(PT_LOAD, 0, 0, 1, 1)
             && HeaderAt(raw, 120) == ProgramHeader(PT_LOAD, 1, 0, 1, 1)
    ensures Accepts(raw) && ReportOf(raw).segments == [Segment(0, 1, 0, 1), Segment(1, 1, 0, 1)]
  {
    var segs := [Segment(0, 1, 0, 1), Segment(1, 1, 0, 1)];
    assert Header(raw, t, 0) == HeaderAt(raw, 64) && Header(raw, t, 1) == HeaderAt(raw, 120);
    assert LoadSegments(raw, t, 1) == [segs[0]];
    assert LoadSegments(raw, t, 2) == segs;
    assert segs[..1] == [segs[0]];
  }

  /**
    An accepted file on which the readings differ: at address 0 the lookup names the byte 0x7F, the
    image holds `E`.
   */
  lemma OverlapDisagrees(raw: Raw, segs: seq<Segment>)
    requires raw == Example() && segs == [Segment(0, 1, 0, 1), Segment(1, 1, 0, 1)]
    ensures Accepts(raw) && segs == ReportOf(raw).segments && forall i :: 0 <= i < |segs| ==> InFile(|raw|, segs[i])
    ensures !AgreesAt(raw, segs, 0, Lookup(segs, 0, 0))
  {
    ExampleAccepted(raw);
    ByteBehind(raw, segs, 0);
    BytesDiffer(raw, segs);
  }

  lemma ExampleAccepted(raw: Raw)
    requires IsExample(raw)
    ensures Accepts(raw) && ReportOf(raw).segments == [Segment(0, 1, 0, 1), Segment(1, 1, 0, 1)]
  {
    ExampleTable(raw);
    FirstHeader(raw);
    SecondHeader(raw);
    TwoSegments(raw, TableOf(raw));
  }

  lemma BytesDiffer(raw: Raw, segs: seq<Segment>)
    requires 1 < |raw| < U64 && raw[0] != raw[1] && segs == [Segment(0, 1, 0, 1), Segment(1, 1, 0, 1)]
    ensures forall i :: 0 <= i < |segs| ==> InFile(|raw|, segs[i])
    ensures !SameByte(raw, segs, 0)
  {
    assert InFile(|raw|, segs[0]) && InFile(|raw|, segs[1]);
    assert FirstCovering(segs, 0, 0) && LastCovering(segs, 1, 0);
    assert FileByte(raw, segs[0], 0) == raw[0] && FileByte(raw, segs[1], 0) == raw[1];
  }
}
