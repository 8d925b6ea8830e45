/**
  Inspecting an ELF64 file and staging its loadable segments into an image. Inspection accepts a
  file or says why not; what it accepts can be staged without a range check failing, and the
  staged image is the segments' bytes, later segments over earlier ones, with zeros elsewhere.
 */
module ElfLoader {
  import opened Bytes

  const MAX_FILE_BYTES: nat := 256 * 1024 * 1024
  const MAX_STAGED_BYTES: nat := 256 * 1024 * 1024
  const HEADER_SIZE: nat := 64
  const ET_DYN: nat := 3
  const EM_X86_64: nat := 62
  const PT_LOAD: nat := 1
  const PT_DYNAMIC: nat := 2
  const PT_INTERP: nat := 3
  const PT_TLS: nat := 7
  const PAGE_SIZE: nat := 4096

  type Raw = seq<Byte>

  datatype ProgramHeader = ProgramHeader(kind: nat, offset: nat, vaddr: nat, fileSize: nat, memSize: nat)
  datatype Segment = Segment(fileOffset: nat, fileSize: nat, vaddr: nat, memSize: nat)

  datatype Report = Report(eType: nat, machine: nat, entry: nat, phCount: nat, segments: seq<Segment>, spanStart: nat,
      spanEnd: nat,
                           hasInterp: bool, hasDynamic: bool, hasTls: bool)

  datatype ElfError =
    | TooSmall | TooLarge | BadMagic | BadClass | BadData | BadIdentVersion | BadVersion
    | NoHeaders | BadHeaderSize | TableOutOfRange | FileLargerThanMemory | BadInterp | BadLoad | LoadOverflow
    | NoLoad | SpanOverflow | EmptySpan | WrongMachine | NotDynamic | ImageTooLarge

  datatype Result<+T> = Ok(value: T) | Err(error: ElfError)

  // ---- Small helpers of the source -----------------------------------------------------------------

  /** `align_down` for the page size. */
  function PageDown(v: nat): (r: nat)
    ensures r <= v < r + PAGE_SIZE && r % PAGE_SIZE == 0
  {
    v - v % PAGE_SIZE
  }

  /** `align_up` for the page size: `None` when the sum does not fit 64 bits. */
  function PageUp(v: nat): (r: Option<nat>)
    ensures r.Some? ==> v <= r.value < v + PAGE_SIZE && r.value % PAGE_SIZE == 0
    ensures r.None? <==> v + 4095 >= U64
  {
    if v + 4095 >= U64 then None else Some(PageDown(v + 4095))
  }

  /** `checked_range`. */
  predicate InRange(len: nat, offset: nat, size: nat) { offset + size <= len }

  // ---- The program headers -----------------------------------------------------------------------------

  function HeaderAt(raw: Raw, off: nat): (h: ProgramHeader)
    requires off + 56 <= |raw|
  {
    ProgramHeader(LeAt(raw, off, 4), LeAt(raw, off + 8, 8), LeAt(raw, off + 16, 8), LeAt(raw, off + 32, 8),
        LeAt(raw, off + 40, 8))
  }

  /** The 56 bytes of a program header in the ELF64 layout; flags, physical address and alignment are not read. */
  function HeaderBytes(h: ProgramHeader, flags: nat, paddr: nat, align: nat): (b: Raw) {
    LeBytes(h.kind, 4) + LeBytes(flags, 4) + LeBytes(h.offset, 8) + LeBytes(h.vaddr, 8) + LeBytes(paddr, 8)
        + LeBytes(h.fileSize, 8) + LeBytes(h.memSize, 8) + LeBytes(align, 8)
  }

  lemma FieldRead(raw: Raw, at: nat, b: Raw, o: nat, v: nat, k: nat)
    requires at + |b| <= |raw| && raw[at..at + |b|] == b && o + k <= |b| && b[o..o + k] == LeBytes(v, k)
             && v < Pow256(k)
    ensures LeAt(raw, at + o, k) == v
  {
    forall j | 0 <= j < k ensures raw[at + o + j] == LeBytes(v, k)[j] {
      assert raw[at..at + |b|][o + j] == b[o + j] == b[o..o + k][j];
    }
    LeRoundTrip(raw, at + o, v, k);
  }

  lemma WordRead(raw: Raw, at: nat, b: Raw, o: nat, v: nat)
    requires at + |b| <= |raw| && raw[at..at + |b|] == b && o + 8 <= |b| && b[o..o + 8] == LeBytes(v, 8) && v < U64
    ensures LeAt(raw, at + o, 8) == v
  {
    PowersOf256();
    FieldRead(raw, at, b, o, v, 8);
  }

  /** Reading a program header gives back what was encoded. */
  lemma HeaderRoundTrip(raw: Raw, at: nat, h: ProgramHeader, flags: nat, paddr: nat, align: nat)
    requires h.kind < U32 && h.offset < U64 && h.vaddr < U64 && h.fileSize < U64 && h.memSize < U64
    requires at + 56 <= |raw| && raw[at..at + 56] == HeaderBytes(h, flags, paddr, align)
    ensures HeaderAt(raw, at) == h
  {
    var b := HeaderBytes(h, flags, paddr, align);
    assert b[0..4] == LeBytes(h.kind, 4) && b[8..16] == LeBytes(h.offset, 8) && b[16..24] == LeBytes(h.vaddr, 8)
        && b[32..40] == LeBytes(h.fileSize, 8) && b[40..48] == LeBytes(h.memSize, 8);
    assert h.kind < Pow256(4) by { PowersOf256(); }
    FieldRead(raw, at, b, 0, h.kind, 4);
    WordRead(raw, at, b, 8, h.offset);
    WordRead(raw, at, b, 16, h.vaddr);
    WordRead(raw, at, b, 32, h.fileSize);
    WordRead(raw, at, b, 40, h.memSize);
  }

  datatype Table = Table(offset: nat, entrySize: nat, count: nat)

  function TableOf(raw: Raw): (t: Table)
    requires |raw| >= HEADER_SIZE
  {
    Table(LeAt(raw, 32, 8), LeAt(raw, 54, 2), LeAt(raw, 56, 2))
  }

  predicate TableFits(raw: Raw, t: Table) {
    t.count > 0 && t.entrySize >= 56 && t.offset + t.entrySize * t.count <= |raw|
  }

  lemma HeaderFits(raw: Raw, t: Table, i: nat)
    requires TableFits(raw, t) && i < t.count
    ensures t.offset + i * t.entrySize + 56 <= |raw|
  {
    assert i * t.entrySize + t.entrySize == (i + 1) * t.entrySize <= t.count * t.entrySize;
  }

  function Header(raw: Raw, t: Table, i: nat): (h: ProgramHeader)
    requires TableFits(raw, t) && i < t.count
  {
    HeaderFits(raw, t, i);
    HeaderAt(raw, t.offset + i * t.entrySize)
  }

  /** What is wrong with a header, if anything. */
  function Complaint(len: nat, h: ProgramHeader): (e: Option<ElfError>) {
    if h.fileSize > h.memSize then Some(FileLargerThanMemory)
    else if h.kind == PT_INTERP && !InRange(len, h.offset, h.fileSize) then Some(BadInterp)
    else if h.kind == PT_LOAD && !InRange(len, h.offset, h.fileSize) then Some(BadLoad)
    else if h.kind == PT_LOAD && h.vaddr + h.memSize >= U64 then Some(LoadOverflow)
    else None
  }

  /** A loadable segment (type 1) and the interpreter's name (3) lie in the file, and a segment ends below 2^64. */
  lemma HeaderAccepted(len: nat, h: ProgramHeader)
    ensures Complaint(len, h).None? <==>
              && h.fileSize <= h.memSize && (h.kind == 1 || h.kind == 3 ==> h.offset + h.fileSize <= len)
              && (h.kind == 1 ==> h.vaddr + h.memSize < U64)
  {
  }

  function AsSegment(h: ProgramHeader): (s: Segment) { Segment(h.offset, h.fileSize, h.vaddr, h.memSize) }

  /** The loadable segments among the first `n` headers, in order. */
  function LoadSegments(raw: Raw, t: Table, n: nat): (s: seq<Segment>)
    requires TableFits(raw, t) && n <= t.count
  {
    if n == 0 then []
    else
      var h := Header(raw, t, n - 1);
      LoadSegments(raw, t, n - 1) + (if h.kind == PT_LOAD then [AsSegment(h)] else [])
  }

  /** Every header among the first `n` is in order. */
  ghost predicate HeadersOk(raw: Raw, t: Table, n: nat)
    requires TableFits(raw, t) && n <= t.count
  {
    forall i {:trigger Header(raw, t, i)} :: 0 <= i < n ==> Complaint(|raw|, Header(raw, t, i)).None?
  }

  function LowestAddress(segs: seq<Segment>): (v: nat)
    requires |segs| > 0
  {
    if |segs| == 1 then segs[0].vaddr else Min(LowestAddress(segs[..|segs| - 1]), segs[|segs| - 1].vaddr)
  }

  function HighestEnd(segs: seq<Segment>): (v: nat)
    requires |segs| > 0
  {
    var end := segs[|segs| - 1].vaddr + segs[|segs| - 1].memSize;
    if |segs| == 1 then end else Max(HighestEnd(segs[..|segs| - 1]), end)
  }

  lemma {:induction false} SpanCovers(segs: seq<Segment>, i: nat)
    requires i < |segs|
    ensures LowestAddress(segs) <= segs[i].vaddr && segs[i].vaddr + segs[i].memSize <= HighestEnd(segs)
    decreases |segs|
  {
    if i < |segs| - 1 { SpanCovers(segs[..|segs| - 1], i); }
  }

  /** A loadable segment that inspection has let through. */
  ghost predicate SegmentOk(len: nat, s: Segment) {
    s.fileSize <= s.memSize && InRange(len, s.fileOffset, s.fileSize) && s.vaddr + s.memSize < U64
  }

  lemma {:induction false} SegmentsOk(raw: Raw, t: Table, n: nat)
    requires TableFits(raw, t) && n <= t.count && HeadersOk(raw, t, n)
    ensures forall i :: 0 <= i < |LoadSegments(raw, t, n)| ==> SegmentOk(|raw|, LoadSegments(raw, t, n)[i])
    decreases n
  {
    if n > 0 {
      SegmentsOk(raw, t, n - 1);
      assert Complaint(|raw|, Header(raw, t, n - 1)).None?;
    }
  }

  // ---- Inspection -----------------------------------------------------------------------------------------

  /** A little-endian 64-bit ELF file of version 1, of a size the loader takes. */
  predicate Identified(raw: Raw) {
    && HEADER_SIZE <= |raw| <= MAX_FILE_BYTES
    && raw[0] == 0x7F && raw[1] == 'E' as int && raw[2] == 'L' as int && raw[3] == 'F' as int
    && raw[4] == 2 && raw[5] == 1 && raw[6] == 1 && LeAt(raw, 20, 4) == 1
  }

  /** The files inspection accepts. */
  ghost predicate Accepts(raw: Raw) {
    && Identified(raw) && TableFits(raw, TableOf(raw))
    && var t := TableOf(raw);
       && HeadersOk(raw, t, t.count)
       && var segs := LoadSegments(raw, t, t.count);
          && |segs| > 0 && PageUp(HighestEnd(segs)).Some?
            && PageDown(LowestAddress(segs)) < PageUp(HighestEnd(segs)).value
  }

  /** The reported error names a condition the file does not meet. */
  ghost predicate Blames(raw: Raw, e: ElfError) {
    match e
    case TooSmall => |raw| < HEADER_SIZE
    case TooLarge => |raw| > MAX_FILE_BYTES
    case BadMagic => |raw| >= 4 && raw[..4] != [0x7F, 'E' as int, 'L' as int, 'F' as int]
    case BadClass => |raw| > 4 && raw[4] != 2
    case BadData => |raw| > 5 && raw[5] != 1
    case BadIdentVersion => |raw| > 6 && raw[6] != 1
    case BadVersion => |raw| >= 24 && LeAt(raw, 20, 4) != 1
    case NoHeaders => Identified(raw) && TableOf(raw).count == 0
    case BadHeaderSize => Identified(raw) && TableOf(raw).entrySize < 56
    case TableOutOfRange => Identified(raw) && TableOf(raw).offset + TableOf(raw).entrySize * TableOf(raw).count > |raw|
    case _ => Identified(raw) && TableFits(raw, TableOf(raw)) && BlamesContent(raw, TableOf(raw), e)
  }

  ghost predicate BlamesContent(raw: Raw, t: Table, e: ElfError)
    requires TableFits(raw, t)
  {
    match e
    case NoLoad => LoadSegments(raw, t, t.count) == []
    case SpanOverflow => var segs := LoadSegments(raw, t, t.count); segs != [] && PageUp(HighestEnd(segs)).None?
    case EmptySpan =>
      var segs := LoadSegments(raw, t, t.count);
        segs != [] && PageUp(HighestEnd(segs)).Some? && PageUp(HighestEnd(segs)).value <= PageDown(LowestAddress(segs))
    case _ => exists i :: 0 <= i < t.count && Complaint(|raw|, Header(raw, t, i)) == Some(e)
  }

  /** Some header among the first `n` is of this kind. */
  function HasKind(raw: Raw, t: Table, n: nat, kind: nat): (b: bool)
    requires TableFits(raw, t) && n <= t.count
  {
    n > 0 && (HasKind(raw, t, n - 1, kind) || Header(raw, t, n - 1).kind == kind)
  }

  /** The report of an accepted file. */
  ghost function ReportOf(raw: Raw): (r: Report)
    requires Accepts(raw)
  {
    var t := TableOf(raw);
    var segs := LoadSegments(raw, t, t.count);
    Report(LeAt(raw, 16, 2), LeAt(raw, 18, 2), LeAt(raw, 24, 8), t.count, segs, PageDown(LowestAddress(segs)),
        PageUp(HighestEnd(segs)).value,
           HasKind(raw, t, t.count, PT_INTERP), HasKind(raw, t, t.count, PT_DYNAMIC), HasKind(raw, t, t.count, PT_TLS))
  }

  lemma {:induction false} HasKindMeans(raw: Raw, t: Table, n: nat, kind: nat)
    requires TableFits(raw, t) && n <= t.count
    ensures HasKind(raw, t, n, kind) <==> exists i :: 0 <= i < n && Header(raw, t, i).kind == kind
  {
    if n > 0 { HasKindMeans(raw, t, n - 1, kind); }
  }

  /** The report tells whether there is an interpreter (3), a dynamic section (2) and thread-local storage (7). */
  lemma ReportKinds(raw: Raw)
    requires Accepts(raw)
    ensures var t, r := TableOf(raw), ReportOf(raw);
            && (r.hasInterp <==> exists i :: 0 <= i < t.count && Header(raw, t, i).kind == 3)
            && (r.hasDynamic <==> exists i :: 0 <= i < t.count && Header(raw, t, i).kind == 2)
            && (r.hasTls <==> exists i :: 0 <= i < t.count && Header(raw, t, i).kind == 7)
  {
    var t := TableOf(raw);
    HasKindMeans(raw, t, t.count, PT_INTERP);
    HasKindMeans(raw, t, t.count, PT_DYNAMIC);
    HasKindMeans(raw, t, t.count, PT_TLS);
  }

  /** What the file header says, beside its identification and the fields that are not read. */
  datatype FileHeader = FileHeader(eType: nat, machine: nat, entry: nat, table: Table)

  /** The 64 bytes of a file header in the ELF64 layout. */
  function FileHeaderBytes(ident: seq<Byte>, h: FileHeader, version: nat, shoff: nat, flags: nat, sizes: seq<Byte>,
                           rest: seq<Byte>): (b: Raw) {
    ident + LeBytes(h.eType, 2) + LeBytes(h.machine, 2) + LeBytes(version, 4) + LeBytes(h.entry, 8)
        + LeBytes(h.table.offset, 8) + LeBytes(shoff, 8) + LeBytes(flags, 4) + sizes + LeBytes(h.table.entrySize, 2)
        + LeBytes(h.table.count, 2) + rest
  }

  /** The report and the table of an accepted file say what is encoded in its first 64 bytes. */
  lemma FileHeaderRoundTrip(raw: Raw, ident: seq<Byte>, h: FileHeader, version: nat, shoff: nat, flags: nat,
                            sizes: seq<Byte>, rest: seq<Byte>)
    requires |ident| == 16 && |sizes| == 2 && |rest| == 6 && Accepts(raw)
    requires h.eType < U16 && h.machine < U16 && h.entry < U64 && h.table.offset < U64 && h.table.entrySize < U16
             && h.table.count < U16
    requires raw[0..64] == FileHeaderBytes(ident, h, version, shoff, flags, sizes, rest)
    ensures TableOf(raw) == h.table
    ensures ReportOf(raw).eType == h.eType && ReportOf(raw).machine == h.machine && ReportOf(raw).entry == h.entry
  {
    var b := FileHeaderBytes(ident, h, version, shoff, flags, sizes, rest);
    assert b[16..18] == LeBytes(h.eType, 2) && b[18..20] == LeBytes(h.machine, 2) && b[24..32] == LeBytes(h.entry, 8);
    assert b[32..40] == LeBytes(h.table.offset, 8) && b[54..56] == LeBytes(h.table.entrySize, 2)
        && b[56..58] == LeBytes(h.table.count, 2);
    HalfRead(raw, b, 16, h.eType);
    HalfRead(raw, b, 18, h.machine);
    WordRead(raw, 0, b, 24, h.entry);
    WordRead(raw, 0, b, 32, h.table.offset);
    HalfRead(raw, b, 54, h.table.entrySize);
    HalfRead(raw, b, 56, h.table.count);
  }

  lemma HalfRead(raw: Raw, b: Raw, o: nat, v: nat)
    requires |b| <= |raw| && raw[0..|b|] == b && o + 2 <= |b| && b[o..o + 2] == LeBytes(v, 2) && v < U16
    ensures LeAt(raw, o, 2) == v
  {
    PowersOf256();
    FieldRead(raw, 0, b, o, v, 2);
  }

  /** What the loop over the headers knows after `n` of them. */
  datatype Seen = Seen(segments: seq<Segment>, low: nat, high: nat, interp: bool, dynamic: bool, tls: bool)

  ghost predicate SpanSeen(segs: seq<Segment>, low: nat, high: nat) {
    if |segs| > 0 then low == LowestAddress(segs) && high == HighestEnd(segs) else low == U64 - 1 && high == 0
  }

  ghost predicate KindsSeen(raw: Raw, t: Table, n: nat, s: Seen)
    requires TableFits(raw, t) && n <= t.count
  {
    s.interp == HasKind(raw, t, n, PT_INTERP) && s.dynamic == HasKind(raw, t, n, PT_DYNAMIC)
        && s.tls == HasKind(raw, t, n, PT_TLS)
  }

  ghost predicate SeenUpTo(raw: Raw, t: Table, n: nat, s: Seen) {
    && TableFits(raw, t) && n <= t.count && HeadersOk(raw, t, n) && s.segments == LoadSegments(raw, t, n)
    && SpanSeen(s.segments, s.low, s.high) && KindsSeen(raw, t, n, s)
  }

  function WithSegment(s: Seen, h: ProgramHeader): (r: Seen) {
    s.(segments := s.segments + [AsSegment(h)], low := Min(s.low, h.vaddr), high := Max(s.high, h.vaddr + h.memSize))
  }

  function WithKind(s: Seen, kind: nat): (r: Seen) {
    s.(interp := s.interp || kind == PT_INTERP, dynamic := s.dynamic || kind == PT_DYNAMIC, tls := s.tls
        || kind == PT_TLS)
  }

  lemma SpanGrows(s: Seen, h: ProgramHeader)
    requires SpanSeen(s.segments, s.low, s.high) && h.vaddr < U64
    ensures var r := WithSegment(s, h); SpanSeen(r.segments, r.low, r.high)
  {
    var segs := s.segments + [AsSegment(h)];
    assert segs[..|segs| - 1] == s.segments;
  }

  lemma HeaderSeen(raw: Raw, t: Table, n: nat, s: Seen, h: ProgramHeader)
    requires SeenUpTo(raw, t, n, s) && n < t.count && h == Header(raw, t, n) && Complaint(|raw|, h).None?
    ensures h.kind == PT_LOAD ==> SeenUpTo(raw, t, n + 1, WithSegment(s, h))
    ensures h.kind != PT_LOAD ==> SeenUpTo(raw, t, n + 1, WithKind(s, h.kind))
  {
    if h.kind == PT_LOAD { SpanGrows(s, h); }
  }

  /** The checks on the identification, in the order of the source. */
  method CheckIdentification(raw: Raw) returns (e: Option<ElfError>)
    ensures e.None? <==> Identified(raw)
    ensures e.Some? ==> Blames(raw, e.value)
  {
    if |raw| < HEADER_SIZE { return Some(TooSmall); }
    if |raw| > MAX_FILE_BYTES { return Some(TooLarge); }
    if raw[0] != 0x7F || raw[1] != 'E' as int || raw[2] != 'L' as int || raw[3] != 'F' as int { return Some(BadMagic); }
    if raw[4] != 2 { return Some(BadClass); }
    if raw[5] != 1 { return Some(BadData); }
    if raw[6] != 1 { return Some(BadIdentVersion); }
    if LeAt(raw, 20, 4) != 1 { return Some(BadVersion); }
    return None;
  }

  /** The checks on the program headers, and what they list. */
  method CheckHeaders(raw: Raw, t: Table) returns (r: Result<Seen>)
    requires Identified(raw) && t == TableOf(raw)
    ensures r.Ok? <==> TableFits(raw, t) && HeadersOk(raw, t, t.count)
    ensures r.Ok? ==> SeenUpTo(raw, t, t.count, r.value)
    ensures r.Err? ==> Blames(raw, r.error)
  {
    if t.count == 0 { return Err(NoHeaders); }
    if t.entrySize < 56 { return Err(BadHeaderSize); }
    if t.offset + t.entrySize * t.count > |raw| { return Err(TableOutOfRange); }
    var s := Seen([], U64 - 1, 0, false, false, false);
    for i := 0 to t.count
      invariant SeenUpTo(raw, t, i, s)
    {
      var h := Header(raw, t, i);
      var complaint := Complaint(|raw|, h);
      if complaint.Some? {
        HeaderBlamed(raw, t, i, complaint.value);
        return Err(complaint.value);
      }
      HeaderSeen(raw, t, i, s, h);
      if h.kind == PT_LOAD {
        s := WithSegment(s, h);
      } else {
        s := WithKind(s, h.kind);
      }
    }
    return Ok(s);
  }

  lemma HeaderBlamed(raw: Raw, t: Table, i: nat, e: ElfError)
    requires Identified(raw) && t == TableOf(raw) && TableFits(raw, t) && i < t.count
             && Complaint(|raw|, Header(raw, t, i)) == Some(e)
    ensures Blames(raw, e) && !HeadersOk(raw, t, t.count)
  {
    assert e.FileLargerThanMemory? || e.BadInterp? || e.BadLoad? || e.LoadOverflow?;
  }

  /** `inspect_elf64`. */
  method Inspect(raw: Raw) returns (r: Result<Report>)
    ensures r.Ok? <==> Accepts(raw)
    ensures r.Ok? ==> r.value == ReportOf(raw)
    ensures r.Err? ==> Blames(raw, r.error)
  {
    var bad := CheckIdentification(raw);
    if bad.Some? { return Err(bad.value); }
    var t := TableOf(raw);
    var seen := CheckHeaders(raw, t);
    if seen.Err? { return Err(seen.error); }
    var s := seen.value;
    if s.segments == [] { return Err(NoLoad); }
    var start, end := PageDown(s.low), PageUp(s.high);
    if end.None? { return Err(SpanOverflow); }
    if end.value <= start { return Err(EmptySpan); }
    return Ok(Report(LeAt(raw, 16, 2), LeAt(raw, 18, 2), LeAt(raw, 24, 8), t.count, s.segments, start, end.value,
        s.interp, s.dynamic, s.tls));
  }

  // ---- Staging ----------------------------------------------------------------------------------------------

  predicate Covers(s: Segment, addr: nat) { s.vaddr <= addr < s.vaddr + s.fileSize }

  /** Where the byte behind a covered address lies in the file. */
  function OffsetOf(s: Segment, addr: nat): (off: nat)
    requires Covers(s, addr)
  {
    s.fileOffset + (addr - s.vaddr)
  }

  predicate InFile(len: nat, s: Segment) { InRange(len, s.fileOffset, s.fileSize) }

  /** The byte at an address after the first `n` segments have been copied, one over the other. */
  function StagedByte(raw: Raw, segs: seq<Segment>, n: nat, addr: nat): (b: Byte)
    requires n <= |segs| && forall i :: 0 <= i < n ==> InFile(|raw|, segs[i])
  {
    if n == 0 then 0
    else if Covers(segs[n - 1], addr) then
      assert InFile(|raw|, segs[n - 1]);
      raw[OffsetOf(segs[n - 1], addr)]
    else StagedByte(raw, segs, n - 1, addr)
  }

  /** The segments a report lists lie in the file and in the span. */
  lemma ReportSegments(raw: Raw, i: nat)
    requires Accepts(raw) && i < |ReportOf(raw).segments|
    ensures var r := ReportOf(raw); var s := r.segments[i];
            SegmentOk(|raw|, s) && r.spanStart <= s.vaddr && s.vaddr + s.memSize <= r.spanEnd
  {
    var t := TableOf(raw);
    SegmentsOk(raw, t, t.count);
    SpanCovers(LoadSegments(raw, t, t.count), i);
  }

  /** Why an accepted file is not staged: none of the segment checks is among the reasons. */
  function StageError(r: Report): (e: Option<ElfError>) {
    if r.machine != EM_X86_64 then Some(WrongMachine)
    else if r.eType != ET_DYN then Some(NotDynamic)
    else if r.spanEnd - r.spanStart > MAX_STAGED_BYTES then Some(ImageTooLarge)
    else None
  }

  /** Only position-independent files (type 3) for x86-64 (machine 62) of at most 256 MiB are staged. */
  lemma StagedExactlyWhen(r: Report)
    ensures StageError(r).None? <==>
              r.machine == 62 && r.eType == 3 && r.spanEnd - r.spanStart <= 256 * 1024 * 1024
  {
  }

  /** The copying part of `stage_runtime_dyn_image`. */
  method Stage(raw: Raw) returns (r: Result<seq<Byte>>)
    ensures r.Ok? <==> Accepts(raw) && StageError(ReportOf(raw)).None?
    ensures r.Err? && Accepts(raw) ==> StageError(ReportOf(raw)) == Some(r.error)
    ensures r.Ok? ==>
              var report := ReportOf(raw);
              && |r.value| == report.spanEnd - report.spanStart
              && (forall i :: 0 <= i < |report.segments| ==> InFile(|raw|, report.segments[i]))
              && forall o :: 0 <= o < |r.value| ==>
                  r.value[o] == StagedByte(raw, report.segments, |report.segments|, report.spanStart + o)
  {
    var inspected := Inspect(raw);
    if inspected.Err? { return Err(inspected.error); }
    var report := inspected.value;
    if report.machine != EM_X86_64 { return Err(WrongMachine); }
    if report.eType != ET_DYN { return Err(NotDynamic); }
    var size := report.spanEnd - report.spanStart;
    if size > MAX_STAGED_BYTES { return Err(ImageTooLarge); }
    forall i | 0 <= i < |report.segments| ensures InFile(|raw|, report.segments[i]) { ReportSegments(raw, i); }
    var image := Zeros(size);
    for i := 0 to |report.segments|
      invariant |image| == size
      invariant forall o :: 0 <= o < size ==> image[o] == StagedByte(raw, report.segments, i, report.spanStart + o)
    {
      var seg := report.segments[i];
      ReportSegments(raw, i);
      if seg.fileSize != 0 {
        var dst := seg.vaddr - report.spanStart;
        image := Splice(image, dst, raw[seg.fileOffset..seg.fileOffset + seg.fileSize]);
      }
    }
    return Ok(image);
  }

  // ---- Addresses back to file offsets -----------------------------------------------------------------------

  /** The segment whose file part covers an address first. */
  ghost predicate FirstCovering(segs: seq<Segment>, i: nat, addr: nat) {
    i < |segs| && Covers(segs[i], addr) && forall j :: 0 <= j < i ==> !Covers(segs[j], addr)
  }

  /** The search of `vaddr_to_file_offset` from segment `i` on; a sum that leaves 64 bits gives it up. */
  function Lookup(segs: seq<Segment>, i: nat, addr: nat): (r: Option<nat>)
    requires i <= |segs|
    decreases |segs| - i
  {
    if i == |segs| then None
    else if segs[i].fileSize == 0 then Lookup(segs, i + 1, addr)
    else if segs[i].vaddr + segs[i].fileSize >= U64 then None
    else if !Covers(segs[i], addr) then Lookup(segs, i + 1, addr)
    else if OffsetOf(segs[i], addr) >= U64 then None
    else Some(OffsetOf(segs[i], addr))
  }

  /** `vaddr_to_file_offset`. */
  method VaddrToFileOffset(segs: seq<Segment>, addr: nat) returns (r: Option<nat>)
    ensures r == Lookup(segs, 0, addr)
  {
    for i := 0 to |segs|
      invariant Lookup(segs, 0, addr) == Lookup(segs, i, addr)
    {
      var seg := segs[i];
      if seg.fileSize != 0 {
        if seg.vaddr + seg.fileSize >= U64 { return None; }
        if seg.vaddr <= addr < seg.vaddr + seg.fileSize {
          var off := seg.fileOffset + (addr - seg.vaddr);
          if off >= U64 { return None; }
          return Some(off);
        }
      }
    }
    return None;
  }

  /** A sum over the segment leaves 64 bits. */
  predicate Overflows(s: Segment) { s.vaddr + s.fileSize >= U64 || s.fileOffset + s.fileSize >= U64 }

  /** What a lookup means: the offset in the first covering segment, or nothing where none covers. */
  ghost predicate LookedUp(segs: seq<Segment>, addr: nat, r: Option<nat>) {
    if r.Some? then exists i: nat {:trigger FirstCovering(segs, i, addr)} ::
          FirstCovering(segs, i, addr) && r.value == OffsetOf(segs[i], addr)
    else (forall i :: 0 <= i < |segs| ==> !Covers(segs[i], addr)) || exists i :: 0 <= i < |segs| && Overflows(segs[i])
  }

  lemma {:induction false} LookupMeans(segs: seq<Segment>, i: nat, addr: nat)
    requires i <= |segs| && forall j :: 0 <= j < i ==> !Covers(segs[j], addr)
    ensures LookedUp(segs, addr, Lookup(segs, i, addr))
    decreases |segs| - i
  {
    if i < |segs| {
      if segs[i].fileSize != 0 && (segs[i].vaddr + segs[i].fileSize >= U64 || Covers(segs[i], addr)) {
        if Lookup(segs, i, addr).Some? {
          assert FirstCovering(segs, i, addr);
        } else {
          assert Overflows(segs[i]);
        }
      } else {
        LookupMeans(segs, i + 1, addr);
      }
    }
  }

  /** No two segments' file parts share an address. */
  ghost predicate FilePartsApart(segs: seq<Segment>) {
    forall i, j, addr {:trigger Covers(segs[i], addr), Covers(segs[j], addr)} ::
          0 <= i < |segs| && 0 <= j < |segs| && Covers(segs[i], addr) && Covers(segs[j], addr) ==> i == j
  }

  lemma {:induction false} UncoveredIsZero(raw: Raw, segs: seq<Segment>, n: nat, addr: nat)
    requires n <= |segs| && (forall i :: 0 <= i < n ==> InFile(|raw|, segs[i]))
             && forall i :: 0 <= i < n ==> !Covers(segs[i], addr)
    ensures StagedByte(raw, segs, n, addr) == 0
    decreases n
  {
    if n > 0 { UncoveredIsZero(raw, segs, n - 1, addr); }
  }

  lemma {:induction false} LastCovererWins(raw: Raw, segs: seq<Segment>, n: nat, i: nat, addr: nat)
    requires i < n <= |segs| && (forall k :: 0 <= k < n ==> InFile(|raw|, segs[k]))
    requires Covers(segs[i], addr) && forall j :: i < j < n ==> !Covers(segs[j], addr)
    ensures OffsetOf(segs[i], addr) < |raw| && StagedByte(raw, segs, n, addr) == raw[OffsetOf(segs[i], addr)]
    decreases n
  {
    assert InFile(|raw|, segs[i]);
    if i < n - 1 { LastCovererWins(raw, segs, n - 1, i, addr); }
  }

  lemma ReportSumsFit(raw: Raw, segs: seq<Segment>)
    requires Accepts(raw) && segs == ReportOf(raw).segments
    ensures forall i :: 0 <= i < |segs| ==> InFile(|raw|, segs[i]) && !Overflows(segs[i])
  {
    forall i | 0 <= i < |segs| ensures InFile(|raw|, segs[i]) && !Overflows(segs[i]) { ReportSegments(raw, i); }
  }

  /** What the lookup says of an address is what the image holds there. */
  ghost predicate AgreesAt(raw: Raw, segs: seq<Segment>, addr: nat, off: Option<nat>)
    requires forall i :: 0 <= i < |segs| ==> InFile(|raw|, segs[i])
  {
    if off.Some? then off.value < |raw|
        && raw[off.value] == StagedByte(raw, segs, |segs|, addr) else StagedByte(raw, segs, |segs|, addr) == 0
  }

  /** The segment whose file part covers an address last. */
  ghost predicate LastCovering(segs: seq<Segment>, i: nat, addr: nat) {
    i < |segs| && Covers(segs[i], addr) && forall j :: i < j < |segs| ==> !Covers(segs[j], addr)
  }

  /** The first and the last segment that cover the address have the same byte for it. */
  ghost predicate SameByte(raw: Raw, segs: seq<Segment>, addr: nat)
    requires forall i :: 0 <= i < |segs| ==> InFile(|raw|, segs[i])
  {
    forall i: nat, k: nat {:trigger FirstCovering(segs, i, addr), LastCovering(segs, k, addr)} ::
      FirstCovering(segs, i, addr) && LastCovering(segs, k, addr) ==>
        FileByte(raw, segs[i], addr) == FileByte(raw, segs[k], addr)
  }

  function FileByte(raw: Raw, s: Segment, addr: nat): (b: Byte)
    requires InFile(|raw|, s) && Covers(s, addr)
  {
    raw[OffsetOf(s, addr)]
  }

  lemma {:induction false} SomeLast(segs: seq<Segment>, n: nat, addr: nat) returns (k: Option<nat>)
    requires n <= |segs| && forall j :: n <= j < |segs| ==> !Covers(segs[j], addr)
    ensures if k.Some? then LastCovering(segs, k.value, addr) else forall j :: 0 <= j < |segs| ==>
              !Covers(segs[j], addr)
  {
    if n == 0 { return None; }
    if Covers(segs[n - 1], addr) { return Some(n - 1); }
    k := SomeLast(segs, n - 1, addr);
  }

  /** An address is covered by one first and one last segment, or by none. */
  lemma OneFirst(segs: seq<Segment>, i: nat, j: nat, addr: nat)
    requires FirstCovering(segs, i, addr) && FirstCovering(segs, j, addr)
    ensures i == j
  {
  }

  lemma OneLast(segs: seq<Segment>, i: nat, j: nat, addr: nat)
    requires LastCovering(segs, i, addr) && LastCovering(segs, j, addr)
    ensures i == j
  {
  }

  lemma LookupAgrees(raw: Raw, segs: seq<Segment>, addr: nat, off: Option<nat>)
    requires (forall i :: 0 <= i < |segs| ==> InFile(|raw|, segs[i]) && !Overflows(segs[i]))
             && LookedUp(segs, addr, off)
    ensures AgreesAt(raw, segs, addr, off) <==> SameByte(raw, segs, addr)
  {
    var last := SomeLast(segs, |segs|, addr);
    if off.Some? {
      var i: nat :| FirstCovering(segs, i, addr) && off.value == OffsetOf(segs[i], addr);
      var k := last.value;
      LastCovererWins(raw, segs, |segs|, k, addr);
      assert InFile(|raw|, segs[i]) && InFile(|raw|, segs[k]);
      forall i': nat, k': nat {:trigger FirstCovering(segs, i', addr), LastCovering(segs, k', addr)}
        | FirstCovering(segs, i', addr) && LastCovering(segs, k', addr) ensures i' == i && k' == k
      {
        OneFirst(segs, i, i', addr);
        OneLast(segs, k, k', addr);
      }
    } else {
      UncoveredIsZero(raw, segs, |segs|, addr);
    }
  }

  /**
    The two readings of an accepted file agree at an address, the byte behind it being the byte
    of the staged image, exactly when the first and the last segment that cover it say the same.
   */
  lemma ByteBehind(raw: Raw, segs: seq<Segment>, addr: nat)
    requires Accepts(raw) && segs == ReportOf(raw).segments
    ensures forall i :: 0 <= i < |segs| ==> InFile(|raw|, segs[i])
    ensures AgreesAt(raw, segs, addr, Lookup(segs, 0, addr)) <==> SameByte(raw, segs, addr)
    ensures FilePartsApart(segs) ==> AgreesAt(raw, segs, addr, Lookup(segs, 0, addr))
  {
    LookupMeans(segs, 0, addr);
    ReportSumsFit(raw, segs);
    LookupAgrees(raw, segs, addr, Lookup(segs, 0, addr));
  }
}
