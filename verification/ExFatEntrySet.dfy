/**
  The exFAT directory entry set: one file entry (0x85), one stream extension (0xC0) and the
  file name entries (0xC1), built and checksummed byte by byte
  (Microsoft exFAT specification, sections 6.3.3, 7.4, 7.6, 7.6.4 and 7.7).
  A directory buffer is a sequence of 32-byte entries.
 */
module ExFatEntrySet {
  import opened Bytes

  type Entry = e: seq<Byte> | |e| == 32 witness Zeros(32)
  const ZERO_ENTRY: Entry := Zeros(32)
  type Name = seq<Byte>

  const FILE_ENTRY: Byte := 0x85
  const STREAM_ENTRY: Byte := 0xC0
  const NAME_ENTRY: Byte := 0xC1

  /** What the caller puts into an entry set beside the name. */
  datatype Stream = Stream(isDirectory: bool, firstCluster: nat, dataLength: nat, validLength: nat, noFatChain: bool)

  ghost predicate StreamFits(s: Stream) {
    s.firstCluster < U32 && s.dataLength < U64 && s.validLength < U64
  }

  /** A name the validator lets through: printable ASCII, 1 to 255 bytes. */
  ghost predicate PlainName(name: Name) {
    1 <= |name| <= 255 && forall i :: 0 <= i < |name| ==> 0x20 <= name[i] < 0x7F
  }

  // ---- Checksum and name hash ------------------------------------------------------------

  /** `h.rotate_right(1).wrapping_add(b)` on 16 bits. */
  function RotateAdd(h: nat, b: nat): (r: nat)
    ensures r < U16
  {
    (h / 2 + h % 2 * 0x8000 + b) % U16
  }

  /** What `rotate_left(1)` does to 16 bits: doubling, with the carry coming back in at the bottom. */
  ghost function RotateLeft(x: nat): (r: nat) { (2 * x + x / 0x8000) % U16 }

  lemma StepValue(h: nat, b: Byte)
    requires h < U16
    ensures var x := h / 2 + h % 2 * 0x8000; x < U16 && RotateAdd(h, b) == if x + b < U16 then x + b else x + b - U16
  {
  }

  /** The step can be undone: taking the byte off again and rotating the other way gives the old value. */
  lemma StepIsUndone(h: nat, b: Byte)
    requires h < U16
    ensures RotateLeft((RotateAdd(h, b) - b) % U16) == h
  {
    var x := h / 2 + h % 2 * 0x8000;
    StepValue(h, b);
    assert (RotateAdd(h, b) - b) % U16 == x;
    if h % 2 == 0 {
      assert x < 0x8000;
    } else {
      assert x == h / 2 + 0x8000 && x / 0x8000 == 1;
    }
  }

  /** So different values stay different under the same byte, and different bytes give different values. */
  lemma StepSeparates(h: nat, h': nat, b: Byte, b': Byte)
    requires h < U16 && h' < U16
    ensures h != h' ==> RotateAdd(h, b) != RotateAdd(h', b)
    ensures b != b' ==> RotateAdd(h, b) != RotateAdd(h, b')
  {
    StepIsUndone(h, b);
    StepIsUndone(h', b);
    assert b != b' ==> RotateAdd(h, b) != RotateAdd(h, b') by {
      StepValue(h, b);
      StepValue(h, b');
    }
  }

  /** The checksum of the first `k` bytes of the set at entry `i`, leaving out the stored checksum. */
  function SetChecksum(d: seq<Entry>, i: nat, k: nat): (c: nat)
    requires 32 * i + k <= 32 * |d|
    ensures c < U16
  {
    if k == 0 then 0
    else if k - 1 == 2 || k - 1 == 3 then SetChecksum(d, i, k - 1)
    else RotateAdd(SetChecksum(d, i, k - 1), d[i + (k - 1) / 32][(k - 1) % 32])
  }

  method EntrySetChecksum(d: seq<Entry>, start: nat, count: nat) returns (checksum: nat)
    requires start + count <= |d|
    ensures checksum == SetChecksum(d, start, 32 * count)
  {
    checksum := 0;
    var i := 0;
    while i < 32 * count
      invariant 0 <= i <= 32 * count
      invariant checksum == SetChecksum(d, start, i)
    {
      if i != 2 && i != 3 {
        checksum := RotateAdd(checksum, d[start + i / 32][i % 32]);
      }
      i := i + 1;
    }
  }

  /** Two file entries that differ at most in the stored checksum. */
  ghost predicate SameButChecksum(e: Entry, f: Entry) {
    forall j :: 0 <= j < 32 && j != 2 && j != 3 ==> e[j] == f[j]
  }

  /** The checksum depends on the set's bytes only, and not on the two where it is stored. */
  lemma {:induction false} ChecksumIgnoresItself(d: seq<Entry>, i: nat, d': seq<Entry>, i': nat, k: nat)
    requires 32 * i + k <= 32 * |d| && 32 * i' + k <= 32 * |d'|
    requires k > 0 ==> SameButChecksum(d[i], d'[i'])
    requires forall j :: i < j < i + (k + 31) / 32 ==> d[j] == d'[j - i + i']
    ensures SetChecksum(d, i, k) == SetChecksum(d', i', k)
    decreases k
  {
    if k > 0 {
      ChecksumIgnoresItself(d, i, d', i', k - 1);
      var e := (k - 1) / 32;
      if e > 0 { assert d[i + e] == d'[i + e - i + i']; }
    }
  }

  /** Byte `j` of the set at entry `i`. */
  ghost function ByteOf(d: seq<Entry>, i: nat, j: nat): (b: Byte)
    requires 32 * i + j < 32 * |d|
  {
    d[i + j / 32][j % 32]
  }

  /** The two sets of `n` bytes differ in byte `p` and in no other. */
  ghost predicate OneByteApart(d: seq<Entry>, i: nat, d': seq<Entry>, i': nat, n: nat, p: nat) {
    && p < n && 32 * i + n <= 32 * |d| && 32 * i' + n <= 32 * |d'|
    && forall j {:trigger ByteOf(d, i, j)} :: 0 <= j < n ==> (ByteOf(d, i, j) == ByteOf(d', i', j) <==> j != p)
  }

  /** One changed byte that is summed changes the sum. */
  lemma {:induction false} SumSeesByte(d: seq<Entry>, i: nat, d': seq<Entry>, i': nat, n: nat, p: nat, k: nat)
    requires OneByteApart(d, i, d', i', n, p) && k <= n
    ensures SetChecksum(d, i, k) != SetChecksum(d', i', k) <==> p < k && p != 2 && p != 3
    decreases k
  {
    if k > 0 {
      SumSeesByte(d, i, d', i', n, p, k - 1);
      assert ByteOf(d, i, k - 1) == ByteOf(d', i', k - 1) <==> k - 1 != p;
      StepSeparates(SetChecksum(d, i, k - 1), SetChecksum(d', i', k - 1), ByteOf(d, i, k - 1), ByteOf(d', i', k - 1));
    }
  }

  function Upper(b: Byte): (u: Byte) {
    if 'a' as int <= b <= 'z' as int then b - 32 else b
  }

  predicate EqIgnoreCase(a: Name, b: Name) {
    |a| == |b| && forall i :: 0 <= i < |a| ==> Upper(a[i]) == Upper(b[i])
  }

  /** The hash over the first `k` name units; a unit is one byte followed by a zero byte. */
  function NameHash(name: Name, k: nat): (h: nat)
    requires k <= |name|
    ensures h < U16
  {
    if k == 0 then 0 else RotateAdd(RotateAdd(NameHash(name, k - 1), Upper(name[k - 1])), 0)
  }

  method NameHashFromUnits(units: seq<nat>) returns (hash: nat)
    requires forall i :: 0 <= i < |units| ==> units[i] < 256
    ensures hash == NameHash(units, |units|)
  {
    hash := 0;
    for n := 0 to |units|
      invariant hash == NameHash(units, n)
    {
      var mapped := if 'a' as int <= units[n] <= 'z' as int then units[n] - 32 else units[n];
      hash := RotateAdd(hash, mapped % 256);
      hash := RotateAdd(hash, mapped / 256);
    }
  }

  /** Two bytes count as the same letter when they are equal, or are the small and capital form of one. */
  lemma UpperMeans(b: Byte, c: Byte)
    ensures Upper(b) == Upper(c)
       <==> b == c || (0x61 <= b <= 0x7A && c == b - 0x20) || (0x41 <= b <= 0x5A && c == b + 0x20)
  {
  }

  /** Names equal up to ASCII case have the same hash. */
  lemma {:induction false} HashIgnoresCase(a: Name, b: Name, k: nat)
    requires EqIgnoreCase(a, b) && k <= |a|
    ensures NameHash(a, k) == NameHash(b, k)
  {
    if k > 0 { HashIgnoresCase(a, b, k - 1); }
  }

  /** A hash over `A` alone: 0x41 is summed, then rotated on by the high byte of the unit. */
  lemma HashOfA()
    ensures NameHash([0x41], 1) == NameHash([0x61], 1) == 0x8020
  {
    assert NameHash([0x41], 0) == NameHash([0x61], 0) == 0;
  }

  /** Names that differ in one letter, whatever its case, have different hashes. */
  lemma {:induction false} HashSeesLetter(a: Name, b: Name, p: nat, k: nat)
    requires |a| == |b| && p < |a| && k <= |a|
    requires forall i :: 0 <= i < |a| ==> (Upper(a[i]) == Upper(b[i]) <==> i != p)
    ensures NameHash(a, k) != NameHash(b, k) <==> p < k
  {
    if k > 0 {
      HashSeesLetter(a, b, p, k - 1);
      var h, h' := NameHash(a, k - 1), NameHash(b, k - 1);
      StepSeparates(h, h', Upper(a[k - 1]), Upper(b[k - 1]));
      StepSeparates(RotateAdd(h, Upper(a[k - 1])), RotateAdd(h', Upper(b[k - 1])), 0, 0);
    }
  }

  // ---- The bytes of a set ----------------------------------------------------------------

  function RequiredEntryCount(nameUnits: nat): (r: Option<nat>)
    ensures r.Some? <==> 1 <= nameUnits <= 255
    ensures r.Some? ==> 3 <= r.value <= 19 && 15 * (r.value - 3) < nameUnits <= 15 * (r.value - 2)
  {
    if nameUnits == 0 || nameUnits > 255 then None
    else Some(2 + (nameUnits + 14) / 15)
  }

  /** Byte `j` of the file entry. */
  function FileByte(count: nat, isDirectory: bool, checksum: nat, j: nat): (b: Byte) {
    if j == 0 then FILE_ENTRY
    else if j == 1 then (count - 1) % 256
    else if 2 <= j < 4 then LeBytes(checksum, 2)[j - 2]
    else if j == 4 then (if isDirectory then 0x10 else 0x20)
    else 0
  }

  function FlagsByte(firstCluster: nat, noFatChain: bool): (b: Byte) {
    if firstCluster >= 2 then (if noFatChain then 3 else 1) else 0
  }

  /** Byte `j` of the stream extension. */
  function StreamByte(s: Stream, name: Name, j: nat): (b: Byte) {
    if j == 0 then STREAM_ENTRY
    else if j == 1 then FlagsByte(s.firstCluster, s.noFatChain)
    else if j == 3 then |name| % 256
    else if 4 <= j < 6 then LeBytes(NameHash(name, |name|), 2)[j - 4]
    else if 8 <= j < 16 then LeBytes(s.validLength, 8)[j - 8]
    else if 20 <= j < 24 then LeBytes(s.firstCluster, 4)[j - 20]
    else if 24 <= j < 32 then LeBytes(s.dataLength, 8)[j - 24]
    else 0
  }

  /** Byte `j` of the `k`-th name entry: 15 two-byte units, zero past the end of the name. */
  function NameByte(name: Name, k: nat, j: nat): (b: Byte) {
    if j == 0 then NAME_ENTRY
    else if j >= 2 && j % 2 == 0 && 15 * k + (j - 2) / 2 < |name| then name[15 * k + (j - 2) / 2]
    else 0
  }

  ghost predicate IsFileEntry(e: Entry, count: nat, isDirectory: bool, checksum: nat) {
    forall j {:trigger FileByte(count, isDirectory, checksum, j)} :: 0 <= j < 32 ==>
          e[j] == FileByte(count, isDirectory, checksum, j)
  }

  ghost predicate IsStreamEntry(e: Entry, s: Stream, name: Name) {
    forall j {:trigger StreamByte(s, name, j)} :: 0 <= j < 32 ==> e[j] == StreamByte(s, name, j)
  }

  ghost predicate IsNameEntry(e: Entry, name: Name, k: nat) {
    forall j {:trigger NameByte(name, k, j)} :: 0 <= j < 32 ==> e[j] == NameByte(name, k, j)
  }

  /** The `count` entries of a set for `name` and `s` stand in `d` from entry `i` on, with the given checksum stored. */
  ghost predicate HoldsSet(d: seq<Entry>, i: nat, name: Name, s: Stream, count: nat, checksum: nat) {
    && 2 <= count && i + count <= |d|
    && IsFileEntry(d[i], count, s.isDirectory, checksum)
    && IsStreamEntry(d[i + 1], s, name)
    && forall k :: i + 2 <= k < i + count ==> IsNameEntry(d[k], name, k - i - 2)
  }

  /** A whole set: its checksum is the one of its own bytes. */
  ghost predicate IsBuiltSet(es: seq<Entry>, name: Name, s: Stream) {
    && RequiredEntryCount(|name|) == Some(|es|)
    && HoldsSet(es, 0, name, s, |es|, SetChecksum(es, 0, 32 * |es|))
  }

  // ---- Building --------------------------------------------------------------------------

  method BuildEntrySet(name: Name, s: Stream) returns (r: Option<seq<Entry>>)
    ensures r.Some? <==> 1 <= |name| <= 255
    ensures r.Some? ==> IsBuiltSet(r.value, name, s)
  {
    var units := name;
    var required := RequiredEntryCount(|units|);
    if required.None? { return None; }
    var count := required.value;
    var es := seq(count, _ => Zeros(32));
    es := es[0 := FillFileEntry(count, s.isDirectory)];
    var stream := FillStreamEntry(s, units);
    es := es[1 := stream];
    es := FillNameEntries(es, units, count);
    var checksum := EntrySetChecksum(es, 0, count);
    ghost var blank := es;
    es := es[0 := Splice(es[0], 2, LeBytes(checksum, 2))];
    StoreChecksum(blank[0], es[0], count, s.isDirectory, checksum);
    ChecksumIgnoresItself(blank, 0, es, 0, 32 * count);
    return Some(es);
  }

  /** Entry 0: type, secondary count and attributes; the checksum is still zero. */
  function FillFileEntry(count: nat, isDirectory: bool): (e: Entry)
    requires 3 <= count <= 19
    ensures IsFileEntry(e, count, isDirectory, 0)
  {
    assert LeBytes(0, 2) == [0, 0] by { assert LeBytes(0, 1) == [0]; }
    Zeros(32)[0 := FILE_ENTRY][1 := count - 1][4 := if isDirectory then 0x10 else 0x20]
  }

  /** Entry 1: flags, name length, name hash, lengths and first cluster. */
  method FillStreamEntry(s: Stream, units: Name) returns (e: Entry)
    requires 1 <= |units| <= 255
    ensures IsStreamEntry(e, s, units)
  {
    var hash := NameHashFromUnits(units);
    e := Zeros(32)[0 := STREAM_ENTRY][1 := FlagsByte(s.firstCluster, s.noFatChain)][3 := |units|];
    var h, v, c, l := LeBytes(hash, 2), LeBytes(s.validLength, 8), LeBytes(s.firstCluster, 4), LeBytes(s.dataLength, 8);
    e := SpliceFields(e, h, v, c, l);
    forall j | 4 <= j < 6 ensures e[j] == StreamByte(s, units, j) {}
    forall j | 8 <= j < 16 ensures e[j] == StreamByte(s, units, j) {}
    forall j | 20 <= j < 24 ensures e[j] == StreamByte(s, units, j) {}
    forall j | 24 <= j < 32 ensures e[j] == StreamByte(s, units, j) {}
    SmallRemainder(|units|, 256);
    forall j | 0 <= j < 4 ensures e[j] == StreamByte(s, units, j) {}
    forall j | 6 <= j < 8 || 16 <= j < 20 ensures e[j] == StreamByte(s, units, j) {}
  }

  function SpliceFields(e: Entry, h: seq<Byte>, v: seq<Byte>, c: seq<Byte>, l: seq<Byte>): (r: Entry)
    requires |h| == 2 && |v| == 8 && |c| == 4 && |l| == 8
    ensures forall j :: 0 <= j < 32 ==>
      r[j] == if 4 <= j < 6 then h[j - 4] else if 8 <= j < 16 then v[j - 8] else if 20 <= j < 24 then c[j - 20]
          else if 24 <= j then l[j - 24] else e[j]
  {
    Splice(Splice(Splice(Splice(e, 4, h), 8, v), 20, c), 24, l)
  }

  /** The name loop: entries 2.. receive their type byte and up to 15 units each. */
  method FillNameEntries(start: seq<Entry>, units: Name, count: nat) returns (es: seq<Entry>)
    requires RequiredEntryCount(|units|) == Some(count) && |start| == count
    requires forall k :: 2 <= k < count ==> start[k] == Zeros(32)
    ensures |es| == count && es[0] == start[0] && es[1] == start[1]
    ensures forall k :: 2 <= k < count ==> IsNameEntry(es[k], units, k - 2)
  {
    es := start;
    var unitIdx := 0;
    for e := 0 to count - 2
      invariant |es| == count && es[0] == start[0] && es[1] == start[1]
      invariant unitIdx == Min(15 * e, |units|)
      invariant forall k :: 2 <= k < 2 + e ==> IsNameEntry(es[k], units, k - 2)
      invariant forall k :: 2 + e <= k < count ==> es[k] == start[k]
    {
      var entry;
      entry, unitIdx := FillNameEntry(units, e, unitIdx);
      es := es[2 + e := entry];
    }
  }

  method FillNameEntry(units: Name, e: nat, firstUnit: nat) returns (entry: Entry, unitIdx: nat)
    requires firstUnit == Min(15 * e, |units|)
    ensures unitIdx == Min(15 * (e + 1), |units|)
    ensures IsNameEntry(entry, units, e)
  {
    entry := Zeros(32)[0 := NAME_ENTRY];
    unitIdx := firstUnit;
    var slot := 0;
    while slot < 15 && unitIdx < |units|
      invariant 0 <= slot <= 15
      invariant unitIdx == Min(15 * e + slot, |units|)
      invariant forall j :: 0 <= j < 2 + 2 * slot ==> entry[j] == NameByte(units, e, j)
      invariant forall j :: 2 + 2 * slot <= j < 32 ==> entry[j] == 0
    {
      entry := Splice(entry, 2 + slot * 2, [units[unitIdx], 0]);
      unitIdx := unitIdx + 1;
      slot := slot + 1;
    }
  }

  lemma StoreChecksum(blank: Entry, e: Entry, count: nat, isDirectory: bool, checksum: nat)
    requires IsFileEntry(blank, count, isDirectory, 0) && e == Splice(blank, 2, LeBytes(checksum, 2))
    ensures IsFileEntry(e, count, isDirectory, checksum) && SameButChecksum(blank, e)
  {
    forall j | 0 <= j < 32 ensures e[j] == FileByte(count, isDirectory, checksum, j) {
      assert blank[j] == FileByte(count, isDirectory, 0, j);
    }
  }

  // ---- The stored checksum ---------------------------------------------------------------

  /** The property every set the engine writes has: bytes 2 and 3 of its file entry hold its checksum. */
  ghost predicate ChecksumOk(d: seq<Entry>, i: nat, count: nat) {
    1 <= count && i + count <= |d| && LeAt(d[i], 2, 2) == SetChecksum(d, i, 32 * count)
  }

  lemma ChecksumLocal(d: seq<Entry>, i: nat, d': seq<Entry>, i': nat, count: nat)
    requires ChecksumOk(d, i, count) && i' + count <= |d'| && forall j :: i <= j < i + count ==> d[j] == d'[j - i + i']
    ensures ChecksumOk(d', i', count)
  {
    assert d[i] == d'[i - i + i'];
    ChecksumIgnoresItself(d, i, d', i', 32 * count);
  }

  /** A set with the right checksum no longer has it once any one of its bytes is another. */
  lemma OneByteIsDetected(d: seq<Entry>, i: nat, d': seq<Entry>, i': nat, count: nat, p: nat)
    requires ChecksumOk(d, i, count) && OneByteApart(d, i, d', i', 32 * count, p)
    ensures !ChecksumOk(d', i', count)
  {
    SumSeesByte(d, i, d', i', 32 * count, p, 32 * count);
    assert ByteOf(d, i, 2) == d[i][2] && ByteOf(d, i, 3) == d[i][3];
    assert ByteOf(d', i', 2) == d'[i'][2] && ByteOf(d', i', 3) == d'[i'][3];
    StoredPair(d[i], d'[i']);
  }

  /** Two stored checksums agree when both their bytes do. */
  lemma StoredPair(e: Entry, f: Entry)
    ensures LeAt(e, 2, 2) == LeAt(f, 2, 2) <==> e[2] == f[2] && e[3] == f[3]
  {
    assert LeAt(e, 2, 2) == e[2] + 256 * LeAt(e, 3, 1) && LeAt(f, 2, 2) == f[2] + 256 * LeAt(f, 3, 1);
    assert LeAt(e, 3, 1) == e[3] + 256 * LeAt(e, 4, 0) && LeAt(f, 3, 1) == f[3] + 256 * LeAt(f, 4, 0);
  }

  lemma FileEntryChecksum(e: Entry, count: nat, isDirectory: bool, checksum: nat)
    requires IsFileEntry(e, count, isDirectory, checksum) && checksum < U16
    ensures LeAt(e, 2, 2) == checksum
  {
    forall j | 0 <= j < 2 ensures e[2 + j] == LeBytes(checksum, 2)[j] {
      assert e[2 + j] == FileByte(count, isDirectory, checksum, 2 + j);
    }
    Le16RoundTrip(e, 2, checksum);
  }

  /** A built set carries its own checksum. */
  lemma BuiltSetChecksumOk(es: seq<Entry>, name: Name, s: Stream)
    requires IsBuiltSet(es, name, s)
    ensures ChecksumOk(es, 0, |es|)
  {
    FileEntryChecksum(es[0], |es|, s.isDirectory, SetChecksum(es, 0, 32 * |es|));
  }
}
