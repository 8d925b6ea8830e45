/**
  Parsing exFAT entry sets out of a directory buffer, and what parsing recovers from the sets
  the engine builds or refreshes.
 */
module ExFatParse {
  import opened Bytes
  import opened ExFatEntrySet

  /** What parsing an entry set recovers. */
  datatype SetInfo = SetInfo(
    index: nat, count: nat, streamIndex: nat,
    firstCluster: nat, dataLength: nat, validLength: nat,
    noFatChain: bool, isDirectory: bool, name: Name)

  // ---- Name parts ------------------------------------------------------------------------

  /** A name entry from unit `j` up to the first zero unit. */
  function DecodeUnits(e: Entry, j: nat): (part: Name)
    ensures j <= 15 ==> |part| <= 15 - j
    decreases 15 - j, |e|
  {
    if j >= 15 then []
    else
      var ch := Word(e[2 + 2 * j], e[3 + 2 * j]);
      if ch == 0 then [] else [if ch < 0x80 then ch else '?' as int] + DecodeUnits(e, j + 1)
  }

  lemma NextUnit(e: Entry, j: nat, out: Name)
    requires j < 15 && Word(e[2 + 2 * j], e[3 + 2 * j]) != 0
    ensures var ch := Word(e[2 + 2 * j], e[3 + 2 * j]);
            out + DecodeUnits(e, j) == out + [if ch < 0x80 then ch else '?' as int] + DecodeUnits(e, j + 1)
  {
  }

  method DecodeNamePart(e: Entry) returns (out: Name)
    ensures out == DecodeUnits(e, 0)
  {
    out := [];
    var off := 2;
    ghost var j := 0;
    ghost var whole := DecodeUnits(e, j);
    while off + 1 < 32
      invariant off == 2 + 2 * j <= 32
      invariant whole == out + DecodeUnits(e, j)
    {
      var ch := Word(e[off], e[off + 1]);
      if ch == 0 { return; }
      NextUnit(e, j, out);
      out := out + [if ch < 0x80 then ch else '?' as int];
      off := off + 2;
      j := j + 1;
    }
  }

  lemma UnitRead(e: Entry, name: Name, k: nat, j: nat)
    requires IsNameEntry(e, name, k) && j < 15
    ensures Word(e[2 + 2 * j], e[3 + 2 * j]) == if 15 * k + j < |name| then name[15 * k + j] else 0
  {
    assert e[2 + 2 * j] == NameByte(name, k, 2 + 2 * j);
    assert e[3 + 2 * j] == NameByte(name, k, 3 + 2 * j);
  }

  lemma DecodeNameEntry(e: Entry, name: Name, k: nat, j: nat)
    requires PlainName(name) && j <= 15 && IsNameEntry(e, name, k)
    ensures DecodeUnits(e, j) == name[Min(15 * k + j, |name|)..Min(15 * k + 15, |name|)]
  {
    DecodeFrom(e, name, k, j, 15 * k + j, Min(15 * k + 15, |name|));
  }

  lemma {:induction false} DecodeFrom(e: Entry, name: Name, k: nat, j: nat, p: nat, end: nat)
    requires PlainName(name) && j <= 15 && IsNameEntry(e, name, k) && p == 15 * k + j
             && end == Min(15 * k + 15, |name|)
    ensures DecodeUnits(e, j) == name[Min(p, |name|)..end]
    decreases 15 - j
  {
    if j < 15 {
      UnitRead(e, name, k, j);
      if p < |name| {
        DecodeFrom(e, name, k, j + 1, p + 1, end);
        assert name[p..end] == [name[p]] + name[p + 1..end];
      }
    }
  }

  // ---- Secondary entries -----------------------------------------------------------------

  /** `attrs & 0x10`: bit 4 lies in the low byte of the attributes. */
  predicate HasDirectoryBit(attrs: Byte) { attrs % 32 >= 16 }

  /** `flags & 0x02`. */
  predicate HasNoFatChainBit(flags: Byte) { flags % 4 >= 2 }

  /**
    What the secondary entries seen so far tell: the stream extension is the one at `slot` entries
    past the file entry.
   */
  datatype Found = Found(slot: Option<nat>, name: Name)

  const Nothing := Found(None, [])

  /** What one entry adds: a stream extension replaces the one before, a name entry appends. */
  function Absorb(f: Found, e: Entry, slot: nat): (r: Found) {
    if e[0] == STREAM_ENTRY then Found(Some(slot), f.name)
    else if e[0] == NAME_ENTRY then Found(f.slot, f.name + DecodeUnits(e, 0))
    else f
  }

  /** The first `k` secondary entries of the set at entry `i`, taken in order. */
  function Secondaries(d: seq<Entry>, i: nat, k: nat): (f: Found)
    requires i + k < |d|
    ensures |f.name| <= 15 * (if f.slot.Some? then k - 1 else k)
    ensures f.slot.Some? ==> 1 <= f.slot.value <= k
    decreases k
  {
    if k == 0 then Nothing else Absorb(Secondaries(d, i, k - 1), d[i + k], k)
  }

  /** The fields of a stream extension. */
  datatype StreamFields = StreamFields(firstCluster: nat, dataLength: nat, validLength: nat, noFatChain: bool)

  function StreamFieldsOf(e: Entry): (f: StreamFields) {
    StreamFields(LeAt(e, 20, 4), LeAt(e, 24, 8), LeAt(e, 8, 8), HasNoFatChainBit(e[1]))
  }

  /** How the parts of a set are put together. */
  function Assemble(i: nat, count: nat, isDirectory: bool, slot: nat, s: StreamFields, name: Name): (info: SetInfo) {
    SetInfo(i, count, i + slot, s.firstCluster, s.dataLength, s.validLength, s.noFatChain, isDirectory, name)
  }

  /** The set whose file entry is entry `i`, if it is one. */
  function ParseAt(d: seq<Entry>, i: nat): (r: Option<SetInfo>)
    ensures r.Some? ==>
              r.value.index == i && 3 <= r.value.count <= 256 && r.value.name != [] && i + r.value.count <= |d|
    ensures r.Some? ==> d[i][0] == FILE_ENTRY && d[i][1] == r.value.count - 1
    ensures r.Some? ==> i < r.value.streamIndex < i + r.value.count && |r.value.name| <= 15 * (r.value.count - 2)
  {
    if i >= |d| || d[i][0] != FILE_ENTRY then None
    else
      var secondary: int := d[i][1];
      if secondary < 2 || i + secondary + 1 > |d| then None
      else
        var f := Secondaries(d, i, secondary);
        if f.slot.None? || f.name == [] then None
        else Some(Assemble(i, secondary + 1, HasDirectoryBit(d[i][4]), f.slot.value,
            StreamFieldsOf(d[i + f.slot.value]), f.name))
  }

  method ParseEntrySetAt(d: seq<Entry>, entryIndex: nat) returns (r: Option<SetInfo>)
    ensures r == ParseAt(d, entryIndex)
  {
    if entryIndex >= |d| || d[entryIndex][0] != FILE_ENTRY { return None; }
    var secondaryCount: int := d[entryIndex][1];
    if secondaryCount < 2 { return None; }
    var entryCount := secondaryCount + 1;
    if entryIndex + entryCount > |d| { return None; }

    var isDirectory := HasDirectoryBit(d[entryIndex][4]);
    var name: Name, stream, streamSlot: Option<nat> := [], StreamFields(0, 0, 0, false), None;
    var sec := 0;
    while sec < secondaryCount
      invariant 0 <= sec <= secondaryCount
      invariant Found(streamSlot, name) == Secondaries(d, entryIndex, sec)
      invariant streamSlot.Some? ==> stream == StreamFieldsOf(d[entryIndex + streamSlot.value])
    {
      var e := d[entryIndex + 1 + sec];
      if e[0] == STREAM_ENTRY {
        streamSlot := Some(sec + 1);
        stream := StreamFields(LeAt(e, 20, 4), LeAt(e, 24, 8), LeAt(e, 8, 8), HasNoFatChainBit(e[1]));
      } else if e[0] == NAME_ENTRY {
        var part := DecodeNamePart(e);
        name := name + part;
      }
      sec := sec + 1;
    }
    if streamSlot.None? || name == [] { return None; }
    return Some(SetInfo(entryIndex, entryCount, entryIndex + streamSlot.value, stream.firstCluster, stream.dataLength,
                        stream.validLength, stream.noFatChain, isDirectory, name));
  }

  /** What a successful parse says of the buffer. */
  lemma ParsedMeans(d: seq<Entry>, i: nat, info: SetInfo)
    requires ParseAt(d, i) == Some(info)
    ensures Secondaries(d, i, info.count - 1) == Found(Some(info.streamIndex - i), info.name)
    ensures StreamFieldsOf(d[info.streamIndex])
            == StreamFields(info.firstCluster, info.dataLength, info.validLength, info.noFatChain)
    ensures info.isDirectory == HasDirectoryBit(d[i][4])
  {
  }

  /** What makes a parse succeed. */
  lemma ParsesTo(d: seq<Entry>, i: nat, count: nat, f: Found, s: StreamFields)
    requires 3 <= count <= 256 && i + count <= |d| && d[i][0] == FILE_ENTRY && d[i][1] == count - 1
    requires f == Secondaries(d, i, count - 1) && f.slot.Some? && f.name != []
    requires s == StreamFieldsOf(d[i + f.slot.value])
    ensures ParseAt(d, i) == Some(Assemble(i, count, HasDirectoryBit(d[i][4]), f.slot.value, s, f.name))
  {
  }

  /** A parsed set always has room for a set built for a name equal to its own up to case. */
  lemma RoomToReplace(d: seq<Entry>, i: nat, name: Name, count: nat)
    requires ParseAt(d, i).Some? && EqIgnoreCase(ParseAt(d, i).value.name, name)
    requires RequiredEntryCount(|name|) == Some(count)
    ensures count <= ParseAt(d, i).value.count
  {
    assert 15 * (count - 3) < |name| <= 15 * (ParseAt(d, i).value.count - 2);
  }

  // ---- Parsing depends on the set's own entries only ---------------------------------------

  ghost predicate SameEntries(d: seq<Entry>, d': seq<Entry>, lo: nat, hi: nat) {
    hi <= |d| && hi <= |d'| && forall j :: lo <= j < hi ==> d[j] == d'[j]
  }

  lemma {:induction false} SecondariesLocal(d: seq<Entry>, d': seq<Entry>, i: nat, k: nat)
    requires SameEntries(d, d', i, i + k + 1)
    ensures Secondaries(d, i, k) == Secondaries(d', i, k)
    decreases k
  {
    if k > 0 { SecondariesLocal(d, d', i, k - 1); }
  }

  lemma ParseLocal(d: seq<Entry>, d': seq<Entry>, i: nat, info: SetInfo)
    requires ParseAt(d, i) == Some(info) && SameEntries(d, d', i, i + info.count)
    ensures ParseAt(d', i) == Some(info)
  {
    SecondariesLocal(d, d', i, info.count - 1);
  }

  // ---- Round trip ------------------------------------------------------------------------

  lemma FirstClusterRead(e: Entry, s: Stream, name: Name)
    requires IsStreamEntry(e, s, name) && s.firstCluster < U32
    ensures LeAt(e, 20, 4) == s.firstCluster
  {
    forall j | 0 <= j < 4 ensures e[20 + j] == LeBytes(s.firstCluster, 4)[j] {
      assert e[20 + j] == StreamByte(s, name, 20 + j);
    }
    Le32RoundTrip(e, 20, s.firstCluster);
  }

  lemma DataLengthRead(e: Entry, s: Stream, name: Name)
    requires IsStreamEntry(e, s, name) && s.dataLength < U64
    ensures LeAt(e, 24, 8) == s.dataLength
  {
    forall j | 0 <= j < 8 ensures e[24 + j] == LeBytes(s.dataLength, 8)[j] {
      assert e[24 + j] == StreamByte(s, name, 24 + j);
    }
    Le64RoundTrip(e, 24, s.dataLength);
  }

  lemma ValidLengthRead(e: Entry, s: Stream, name: Name)
    requires IsStreamEntry(e, s, name) && s.validLength < U64
    ensures LeAt(e, 8, 8) == s.validLength
  {
    forall j | 0 <= j < 8 ensures e[8 + j] == LeBytes(s.validLength, 8)[j] {
      assert e[8 + j] == StreamByte(s, name, 8 + j);
    }
    Le64RoundTrip(e, 8, s.validLength);
  }

  lemma StreamRead(e: Entry, s: Stream, name: Name)
    requires StreamFits(s) && IsStreamEntry(e, s, name)
    ensures e[0] == STREAM_ENTRY
    ensures StreamFieldsOf(e)
            == StreamFields(s.firstCluster, s.dataLength, s.validLength, s.noFatChain && s.firstCluster >= 2)
  {
    FirstClusterRead(e, s, name);
    DataLengthRead(e, s, name);
    ValidLengthRead(e, s, name);
    assert e[0] == StreamByte(s, name, 0);
    assert e[1] == StreamByte(s, name, 1) == FlagsByte(s.firstCluster, s.noFatChain);
  }

  lemma AbsorbNameEntry(f: Found, e: Entry, name: Name, m: nat, slot: nat)
    requires PlainName(name) && f.name == name[..Min(15 * m, |name|)] && IsNameEntry(e, name, m)
    ensures Absorb(f, e, slot) == Found(f.slot, name[..Min(15 * (m + 1), |name|)])
  {
    assert e[0] == NameByte(name, m, 0) == NAME_ENTRY;
    DecodeNameEntry(e, name, m, 0);
    var a, b := Min(15 * m, |name|), Min(15 * (m + 1), |name|);
    assert name[..a] + name[a..b] == name[..b];
  }

  lemma {:induction false} NameSecondaries(d: seq<Entry>, i: nat, name: Name, s: Stream, count: nat, checksum: nat,
                                           m: nat)
    requires PlainName(name) && m + 2 <= count && HoldsSet(d, i, name, s, count, checksum)
    ensures Secondaries(d, i, m + 1) == Found(Some(1), name[..Min(15 * m, |name|)])
    decreases m
  {
    if m == 0 {
      assert d[i + 1][0] == StreamByte(s, name, 0) == STREAM_ENTRY;
      assert Secondaries(d, i, 0) == Nothing;
    } else {
      NameSecondaries(d, i, name, s, count, checksum, m - 1);
      AbsorbNameEntry(Secondaries(d, i, m), d[i + m + 1], name, m - 1, m + 1);
    }
  }

  /** What the parser returns for a set the builder made, wherever the set stands. */
  function ParsedForm(i: nat, name: Name, s: Stream, count: nat): (info: SetInfo) {
    SetInfo(i, count, i + 1, s.firstCluster, s.dataLength, s.validLength, s.noFatChain
        && s.firstCluster >= 2, s.isDirectory, name)
  }

  lemma ParseHeldSet(d: seq<Entry>, i: nat, name: Name, s: Stream, count: nat, checksum: nat)
    requires PlainName(name) && StreamFits(s) && RequiredEntryCount(|name|) == Some(count)
    requires HoldsSet(d, i, name, s, count, checksum)
    ensures ParseAt(d, i) == Some(ParsedForm(i, name, s, count))
  {
    assert Secondaries(d, i, count - 1) == Found(Some(1), name) by {
      NameSecondaries(d, i, name, s, count, checksum, count - 2);
      assert name[..Min(15 * (count - 2), |name|)] == name;
    }
    StreamRead(d[i + 1], s, name);
    FileEntryRead(d[i], count, s.isDirectory, checksum);
  }

  lemma FileEntryRead(e: Entry, count: nat, isDirectory: bool, checksum: nat)
    requires 3 <= count <= 256 && IsFileEntry(e, count, isDirectory, checksum)
    ensures e[0] == FILE_ENTRY && e[1] == count - 1 && HasDirectoryBit(e[4]) == isDirectory
  {
    assert e[0] == FileByte(count, isDirectory, checksum, 0);
    assert e[1] == FileByte(count, isDirectory, checksum, 1);
    assert e[4] == FileByte(count, isDirectory, checksum, 4);
  }

  /**
    Parsing a built set, wherever it is copied, returns the name, type, lengths, first cluster and
    chain flag it was built from.
   */
  lemma EntrySetRoundTrip(d: seq<Entry>, i: nat, es: seq<Entry>, name: Name, s: Stream)
    requires PlainName(name) && StreamFits(s) && IsBuiltSet(es, name, s)
    requires i + |es| <= |d| && forall j :: 0 <= j < |es| ==> d[i + j] == es[j]
    ensures ParseAt(d, i) == Some(ParsedForm(i, name, s, |es|))
    ensures ChecksumOk(d, i, |es|)
  {
    assert d[i + 0] == es[0] && d[i + 1] == es[1];
    forall k | i + 2 <= k < i + |es| ensures IsNameEntry(d[k], name, k - i - 2) { assert d[i + (k - i)] == es[k - i]; }
    ParseHeldSet(d, i, name, s, |es|, SetChecksum(es, 0, 32 * |es|));
    BuiltSetChecksumOk(es, name, s);
    ChecksumLocal(es, 0, d, i, |es|);
  }

  /**
    Where the fields of a built set stand on disk: the offsets, widths and bits of sections 7.4, 7.6 and 7.7 of the
    exFAT specification.
   */
  lemma BuiltSetLayout(es: seq<Entry>, name: Name, s: Stream)
    requires IsBuiltSet(es, name, s)
    ensures es[0][0] == 0x85 && es[0][1] == |es| - 1 && Word(es[0][4], es[0][5]) == if s.isDirectory then 0x10 else 0x20
    ensures es[1][0] == 0xC0 && es[1][3] == |name| && Word(es[1][4], es[1][5]) == NameHash(name, |name|)
    ensures es[1][1] == if s.firstCluster < 2 then 0 else if s.noFatChain then 3 else 1
    ensures forall k :: 2 <= k < |es| ==> es[k][0] == 0xC1 && es[k][1] == 0
    ensures forall u :: 0 <= u < |name| ==>
      2 + u / 15 < |es| && Word(es[2 + u / 15][2 + 2 * (u % 15)], es[2 + u / 15][3 + 2 * (u % 15)]) == name[u]
  {
    FileLayout(es[0], |es|, s.isDirectory, SetChecksum(es, 0, 32 * |es|));
    StreamLayout(es[1], s, name);
    forall k | 2 <= k < |es| ensures es[k][0] == 0xC1 && es[k][1] == 0 {
      assert es[k][0] == NameByte(name, k - 2, 0) && es[k][1] == NameByte(name, k - 2, 1);
    }
    forall u | 0 <= u < |name| ensures 2 + u / 15 < |es|
      && Word(es[2 + u / 15][2 + 2 * (u % 15)], es[2 + u / 15][3 + 2 * (u % 15)]) == name[u]
    {
      assert IsNameEntry(es[2 + u / 15], name, 2 + u / 15 - 0 - 2);
      UnitRead(es[2 + u / 15], name, u / 15, u % 15);
    }
  }

  lemma FileLayout(e: Entry, count: nat, isDirectory: bool, checksum: nat)
    requires 3 <= count <= 19 && IsFileEntry(e, count, isDirectory, checksum)
    ensures e[0] == 0x85 && e[1] == count - 1 && Word(e[4], e[5]) == if isDirectory then 0x10 else 0x20
  {
    assert e[0] == FileByte(count, isDirectory, checksum, 0) && e[1] == FileByte(count, isDirectory, checksum, 1);
    assert e[4] == FileByte(count, isDirectory, checksum, 4) && e[5] == FileByte(count, isDirectory, checksum, 5);
  }

  lemma StreamLayout(e: Entry, s: Stream, name: Name)
    requires IsStreamEntry(e, s, name) && |name| <= 255
    ensures e[0] == 0xC0 && e[3] == |name| && Word(e[4], e[5]) == NameHash(name, |name|)
    ensures e[1] == if s.firstCluster < 2 then 0 else if s.noFatChain then 3 else 1
  {
    assert e[0] == STREAM_ENTRY by { assert e[0] == StreamByte(s, name, 0); }
    assert e[1] == FlagsByte(s.firstCluster, s.noFatChain) by { assert e[1] == StreamByte(s, name, 1); }
    SmallRemainder(|name|, 256);
    assert e[3] == |name| by { assert e[3] == StreamByte(s, name, 3); }
    HashRead(e, s, name);
  }

  lemma HashRead(e: Entry, s: Stream, name: Name)
    requires IsStreamEntry(e, s, name)
    ensures Word(e[4], e[5]) == NameHash(name, |name|)
  {
    assert e[4] == StreamByte(s, name, 4) && e[5] == StreamByte(s, name, 5);
    PairBytes(NameHash(name, |name|));
  }

  lemma PairBytes(h: nat)
    requires h < U16
    ensures Word(LeBytes(h, 2)[0], LeBytes(h, 2)[1]) == h
  {
    assert LeBytes(h, 2) == [h % 256] + LeBytes(h / 256, 1);
  }

  /** Bit 4 of the attributes is the directory bit, whatever the other bits are. */
  lemma DirectoryBit(a: nat, b: nat)
    requires a < 8 && b < 16
    ensures HasDirectoryBit(32 * a + 16 + b) && !HasDirectoryBit(32 * a + b)
  {
  }

  /** Bit 1 of the flags says that the clusters lie in a row, whatever the other bits are. */
  lemma NoFatChainBit(a: nat, b: nat)
    requires a < 64 && b < 2
    ensures HasNoFatChainBit(4 * a + 2 + b) && !HasNoFatChainBit(4 * a + b)
  {
  }

  ghost function UnitAt(e: Entry, m: nat): (ch: int)
    requires m < 15
  {
    Word(e[2 + 2 * m], e[3 + 2 * m])
  }

  /** A name part ends at the first zero unit; each unit before it is the letter itself, or `?` outside ASCII. */
  lemma {:induction false} DecodedPart(e: Entry, j: nat, part: Name, end: nat)
    requires j <= 15 && part == DecodeUnits(e, j) && end == j + |part|
    ensures end == 15 || (end < 15 && UnitAt(e, end) == 0)
    ensures forall m {:trigger UnitAt(e, m)} :: j <= m < end ==>
      UnitAt(e, m) != 0 && part[m - j] == if UnitAt(e, m) < 0x80 then UnitAt(e, m) else 0x3F
    decreases 15 - j
  {
    if j < 15 && UnitAt(e, j) != 0 {
      var rest := DecodeUnits(e, j + 1);
      DecodedPart(e, j + 1, rest, end);
      assert part == [part[0]] + rest;
    }
  }

  // ---- Refreshing the metadata of a set ---------------------------------------------------

  /** A stream extension with new flags and lengths. */
  function WithStreamFields(e: Entry, flags: Byte, validLength: nat, dataLength: nat): (r: Entry) {
    Splice(Splice(e[1 := flags], 8, LeBytes(validLength, 8)), 24, LeBytes(dataLength, 8))
  }

  /** The checksum of the set of `count` entries at entry `i`, stored in bytes 2 and 3 of its file entry. */
  function RefreshChecksum(d: seq<Entry>, i: nat, count: nat): (r: seq<Entry>)
    ensures |r| == |d|
  {
    if i + count > |d| || count < 3 then d
    else
      var z := d[i := d[i][2 := 0][3 := 0]];
      z[i := Splice(z[i], 2, LeBytes(SetChecksum(z, i, 32 * count), 2))]
  }

  method RefreshEntrySetChecksum(d: seq<Entry>, entryIndex: nat, entryCount: nat) returns (r: seq<Entry>)
    ensures r == RefreshChecksum(d, entryIndex, entryCount)
  {
    r := d;
    if entryIndex + entryCount > |d| || 32 * entryCount < 96 { return; }
    r := r[entryIndex := r[entryIndex][2 := 0][3 := 0]];
    var checksum := EntrySetChecksum(r, entryIndex, entryCount);
    r := r[entryIndex := Splice(r[entryIndex], 2, LeBytes(checksum, 2))];
  }

  /** The metadata update of a directory's entry set found in its parent. */
  function Refreshed(d: seq<Entry>, info: SetInfo, dataLength: nat, validLength: nat, noFatChain: bool): (r: seq<Entry>)
    requires info.index + info.count <= |d| && info.index < info.streamIndex < info.index + info.count
    ensures |r| == |d|
  {
    var e := WithStreamFields(d[info.streamIndex], FlagsByte(info.firstCluster, noFatChain), validLength, dataLength);
    RefreshChecksum(d[info.streamIndex := e], info.index, info.count)
  }

  lemma StoredChecksumRead(e: Entry, r: Entry, c: nat)
    requires c < U16 && r == Splice(e, 2, LeBytes(c, 2))
    ensures LeAt(r, 2, 2) == c
  {
    Le16RoundTrip(r, 2, c);
  }

  /** Refreshing a checksum makes it right and touches nothing but bytes 2 and 3 of the file entry. */
  lemma ChecksumRefreshed(d: seq<Entry>, i: nat, count: nat, r: seq<Entry>)
    requires count >= 3 && i + count <= |d| && r == RefreshChecksum(d, i, count)
    ensures ChecksumOk(r, i, count)
    ensures SameButChecksum(d[i], r[i]) && forall j :: 0 <= j < |d| && j != i ==> r[j] == d[j]
  {
    var z := d[i := d[i][2 := 0][3 := 0]];
    ChecksumIgnoresItself(z, i, r, i, 32 * count);
    StoredChecksumRead(z[i], r[i], SetChecksum(z, i, 32 * count));
  }

  lemma SplicedFields(e: Entry, flags: Byte, v: seq<Byte>, l: seq<Byte>, r: Entry)
    requires |v| == 8 == |l| && r == Splice(Splice(e[1 := flags], 8, v), 24, l)
    ensures r[0] == e[0] && r[1] == flags
    ensures forall j :: 0 <= j < 8 ==> r[8 + j] == v[j]
    ensures forall j :: 0 <= j < 8 ==> r[24 + j] == l[j]
    ensures forall j :: 20 <= j < 24 ==> r[j] == e[j]
  {
  }

  lemma NewStreamFields(e: Entry, flags: Byte, validLength: nat, dataLength: nat, r: Entry)
    requires validLength < U64 && dataLength < U64 && r == WithStreamFields(e, flags, validLength, dataLength)
    ensures r[0] == e[0]
    ensures StreamFieldsOf(r)
            == StreamFields(StreamFieldsOf(e).firstCluster, dataLength, validLength, HasNoFatChainBit(flags))
  {
    SplicedFields(e, flags, LeBytes(validLength, 8), LeBytes(dataLength, 8), r);
    assert LeAt(r, 8, 8) == validLength by { Le64RoundTrip(r, 8, validLength); }
    assert LeAt(r, 24, 8) == dataLength by { Le64RoundTrip(r, 24, dataLength); }
    assert LeAt(r, 20, 4) == LeAt(e, 20, 4) by { LeSame(r, e, 20, 4); }
  }

  /** Rewriting the fields of a stream extension does not change what the secondaries tell. */
  lemma {:induction false} RewrittenSecondaries(d: seq<Entry>, r: seq<Entry>, i: nat, k: nat, slot: nat)
    requires 1 <= slot && i + k < |d| == |r| && i + slot < |d|
    requires forall j :: i < j < |d| && j != i + slot ==> r[j] == d[j]
    requires d[i + slot][0] == STREAM_ENTRY == r[i + slot][0]
    ensures Secondaries(r, i, k) == Secondaries(d, i, k)
    decreases k
  {
    if k > 0 { RewrittenSecondaries(d, r, i, k - 1, slot); }
  }

  lemma {:induction false} SlotIsStream(d: seq<Entry>, i: nat, k: nat)
    requires i + k < |d| && Secondaries(d, i, k).slot.Some?
    ensures d[i + Secondaries(d, i, k).slot.value][0] == STREAM_ENTRY
    decreases k
  {
    if d[i + k][0] != STREAM_ENTRY { SlotIsStream(d, i, k - 1); }
  }

  /** A refresh changes bytes 2 and 3 of the file entry and the stream extension, and nothing else. */
  lemma RefreshedEntries(d: seq<Entry>, info: SetInfo, dataLength: nat, validLength: nat, noFatChain: bool,
                         r: seq<Entry>)
    requires info.count >= 3 && info.index + info.count <= |d|
             && info.index < info.streamIndex < info.index + info.count
    requires dataLength < U64 && validLength < U64 && r == Refreshed(d, info, dataLength, validLength, noFatChain)
    ensures SameButChecksum(d[info.index], r[info.index])
    ensures forall j :: 0 <= j < |d| && j != info.index && j != info.streamIndex ==> r[j] == d[j]
    ensures r[info.streamIndex][0] == d[info.streamIndex][0]
    ensures StreamFieldsOf(r[info.streamIndex])
         == StreamFields(StreamFieldsOf(d[info.streamIndex]).firstCluster, dataLength, validLength, noFatChain
             && info.firstCluster >= 2)
    ensures ChecksumOk(r, info.index, info.count)
  {
    var e, flags := d[info.streamIndex], FlagsByte(info.firstCluster, noFatChain);
    var e' := WithStreamFields(e, flags, validLength, dataLength);
    NewStreamFields(e, flags, validLength, dataLength, e');
    ChecksumRefreshed(d[info.streamIndex := e'], info.index, info.count, r);
  }

  /** After a refresh the set parses with the new lengths and flag, everything else as before, and a right checksum. */
  lemma RefreshedParses(d: seq<Entry>, i: nat, info: SetInfo, dataLength: nat, validLength: nat, noFatChain: bool,
                        r: seq<Entry>)
    requires ParseAt(d, i) == Some(info) && dataLength < U64 && validLength < U64
    requires r == Refreshed(d, info, dataLength, validLength, noFatChain)
    ensures ParseAt(r, i) == Some(info.(dataLength := dataLength, validLength := validLength,
                                        noFatChain := noFatChain && info.firstCluster >= 2))
    ensures ChecksumOk(r, i, info.count)
  {
    ParsedMeans(d, i, info);
    RefreshedEntries(d, info, dataLength, validLength, noFatChain, r);
    RefreshedSecondaries(d, i, info, r);
    RefreshedParse(r, i, info, StreamFieldsOf(r[info.streamIndex]));
  }

  lemma RefreshedParse(r: seq<Entry>, i: nat, info: SetInfo, s: StreamFields)
    requires 3 <= info.count <= 256 && i + info.count <= |r| && r[i][0] == FILE_ENTRY && r[i][1] == info.count - 1
    requires info.index == i < info.streamIndex < |r| && info.name != []
             && Secondaries(r, i, info.count - 1) == Found(Some(info.streamIndex - i), info.name)
    requires s == StreamFieldsOf(r[info.streamIndex]) && info.isDirectory == HasDirectoryBit(r[i][4])
    ensures ParseAt(r, i)
         == Some(Assemble(i, info.count, info.isDirectory, info.streamIndex - i, s, info.name))
  {
    var slot := info.streamIndex - i;
    assert i + slot == info.streamIndex;
    ParsesTo(r, i, info.count, Found(Some(slot), info.name), s);
  }

  lemma RefreshedSecondaries(d: seq<Entry>, i: nat, info: SetInfo, r: seq<Entry>)
    requires ParseAt(d, i) == Some(info) && |r| == |d|
    requires forall j :: i < j < |d| && j != info.streamIndex ==> r[j] == d[j]
    requires r[info.streamIndex][0] == d[info.streamIndex][0]
    ensures Secondaries(r, i, info.count - 1) == Found(Some(info.streamIndex - i), info.name)
  {
    ParsedMeans(d, i, info);
    SlotIsStream(d, i, info.count - 1);
    RewrittenSecondaries(d, r, i, info.count - 1, info.streamIndex - i);
  }
}
