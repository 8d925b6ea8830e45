/**
  FAT32 directories of short entries: 16 entries of 32 bytes in every sector. The scan looks for
  a file of a given name up to the end marker and remembers the first entry that is free.
 */
module Fat32Directory {
  import opened Bytes
  import opened SectorCopy
  import opened Fat32Table
  import opened Fat32Streams

  type ShortName = n: seq<Byte> | |n| == 11 witness Zeros(11)
  type DirEntry = e: seq<Byte> | |e| == 32 witness Zeros(32)

  const DELETED: Byte := 0xE5
  const FILE_ATTRIBUTES: Byte := 0x20

  function EntryIn(sector: Sector, i: nat): (e: DirEntry)
    requires i < 16
  {
    sector[32 * i..32 * i + 32]
  }

  function EntryAt(s: seq<Sector>, lbas: seq<nat>, q: nat): (e: DirEntry)
    requires q < 16 * |lbas| && lbas[q / 16] < |s|
  {
    EntryIn(s[lbas[q / 16]], q % 16)
  }

  predicate IsFree(e: DirEntry) { e[0] == 0 || e[0] == DELETED }

  /** A long-name entry or the volume label. */
  predicate IsSkipped(e: DirEntry) { var attr: int := e[11]; attr % 16 == 15 || attr / 8 % 2 == 1 }

  predicate IsDirectoryEntry(e: DirEntry) { var attr: int := e[11]; attr / 16 % 2 == 1 }

  predicate Matches(e: DirEntry, name: ShortName) { !IsFree(e) && !IsSkipped(e) && e[..11] == name }

  function EntryCluster(e: DirEntry): (c: nat) { LeAt(e, 20, 2) * 65536 + LeAt(e, 26, 2) }

  function EntrySize(e: DirEntry): (n: nat) { LeAt(e, 28, 4) }

  /** All entries stored in these sectors. */
  function EntriesOf(s: seq<Sector>, lbas: seq<nat>): (es: seq<DirEntry>)
    requires forall p :: 0 <= p < |lbas| ==> lbas[p] < |s|
    ensures |es| == 16 * |lbas| && forall q :: 0 <= q < |es| ==> es[q] == EntryAt(s, lbas, q)
  {
    seq(16 * |lbas|, q requires 0 <= q < 16 * |lbas| => EntryAt(s, lbas, q))
  }

  lemma EntryNumber(s: seq<Sector>, lbas: seq<nat>, p: nat, i: nat)
    requires (forall p :: 0 <= p < |lbas| ==> lbas[p] < |s|) && p < |lbas| && i < 16
    ensures EntriesOf(s, lbas)[16 * p + i] == EntryIn(s[lbas[p]], i)
  {
    assert (16 * p + i) / 16 == p && (16 * p + i) % 16 == i;
  }

  // ---- The scan ---------------------------------------------------------------------------------------

  datatype Scan = Existing(q: nat) | FreeSlot(q: nat) | Full | TargetIsDirectory | TargetExists

  /** What the scan comes to from entry `q` on, when `free` is the first free entry before it. */
  function ScanFrom(es: seq<DirEntry>, name: ShortName, strict: bool, q: nat, free: Option<nat>): (r: Scan)
    decreases |es| - q
  {
    if q >= |es| then (if free.Some? then FreeSlot(free.value) else Full)
    else
      var e := es[q];
      if e[0] == 0 then FreeSlot(if free.Some? then free.value else q)
      else if e[0] == DELETED then ScanFrom(es, name, strict, q + 1, if free.Some? then free else Some(q))
      else if IsSkipped(e) || e[..11] != name then ScanFrom(es, name, strict, q + 1, free)
      else if IsDirectoryEntry(e) then TargetIsDirectory
      else if !strict then TargetExists
      else Existing(q)
  }

  /** The end of the directory: the first entry from `q` on that was never used. */
  function EndFrom(es: seq<DirEntry>, q: nat): (end: nat)
    ensures end >= q
    decreases |es| - q
  {
    if q >= |es| || es[q][0] == 0 then q else EndFrom(es, q + 1)
  }

  ghost predicate NoMatch(es: seq<DirEntry>, name: ShortName, lo: nat, hi: nat) {
    forall j :: lo <= j < hi && j < |es| ==> !Matches(es[j], name)
  }

  ghost predicate NoneFree(es: seq<DirEntry>, lo: nat, hi: nat) {
    forall j :: lo <= j < hi && j < |es| ==> !IsFree(es[j])
  }

  /** What each outcome of the scan says about the entries from `q` on. */
  ghost predicate ScanSays(es: seq<DirEntry>, name: ShortName, strict: bool, q: nat, free: Option<nat>, r: Scan) {
    match r
    case Existing(i) =>
      strict && q <= i < |es| && i < EndFrom(es, q) && NoMatch(es, name, q, i) && Matches(es[i], name)
        && !IsDirectoryEntry(es[i])
    case FreeSlot(i) =>
      && NoMatch(es, name, q, EndFrom(es, q)) && (free.Some? ==> i == free.value)
      && (free.None? ==> q <= i < |es| && IsFree(es[i]) && NoneFree(es, q, i))
    case Full => free.None? && EndFrom(es, q) >= |es| && NoMatch(es, name, q, |es|) && NoneFree(es, q, |es|)
    case TargetIsDirectory =>
      exists i :: q <= i < |es| && NoMatch(es, name, q, i) && Matches(es[i], name) && IsDirectoryEntry(es[i])
    case TargetExists =>
      !strict
      && exists i :: q <= i < |es| && NoMatch(es, name, q, i) && Matches(es[i], name) && !IsDirectoryEntry(es[i])
  }

  /**
    The scan finds the first file of that name before the end of the directory; when it gives a free
    slot, there is no such file and the slot is the first.
   */
  lemma {:induction false} ScanMeans(es: seq<DirEntry>, name: ShortName, strict: bool, q: nat, free: Option<nat>)
    ensures ScanSays(es, name, strict, q, free, ScanFrom(es, name, strict, q, free))
    decreases |es| - q
  {
    if q < |es| && es[q][0] != 0 && !Matches(es[q], name) {
      var free' := if es[q][0] == DELETED && free.None? then Some(q) else free;
      ScanMeans(es, name, strict, q + 1, free');
      ScanPasses(es, name, strict, q, free, free', ScanFrom(es, name, strict, q + 1, free'));
    }
  }

  /** What holds from the next entry on holds from this one on, if the scan passes it. */
  lemma ScanPasses(es: seq<DirEntry>, name: ShortName, strict: bool, q: nat, free: Option<nat>, free': Option<nat>,
                   r: Scan)
    requires q < |es| && es[q][0] != 0 && !Matches(es[q], name)
    requires free' == if es[q][0] == DELETED && free.None? then Some(q) else free
    requires ScanSays(es, name, strict, q + 1, free', r)
    ensures ScanSays(es, name, strict, q, free, r)
  {
    assert EndFrom(es, q) == EndFrom(es, q + 1);
  }

  // ---- The scan in terms of bytes -----------------------------------------------------------------------

  /** Bit 4 of the attribute byte marks a directory, whatever the other bits are. */
  lemma DirectoryBit(e: DirEntry, a: nat, b: nat)
    requires a < 8 && b < 16
    ensures e[11] == 32 * a + 16 + b ==> IsDirectoryEntry(e)
    ensures e[11] == 32 * a + b ==> !IsDirectoryEntry(e)
  {
  }

  /** Bit 3 marks a volume label and, with all four low bits, a part of a long name: such an entry is passed over. */
  lemma SkippedBit(e: DirEntry, a: nat, b: nat)
    requires a < 16 && b < 8
    ensures e[11] == 16 * a + 8 + b ==> IsSkipped(e)
    ensures e[11] == 16 * a + b ==> !IsSkipped(e)
  {
  }

  /** The first cluster stands in two halves, the upper one at byte 20 and the lower one at byte 26. */
  lemma ClusterHalves(e: DirEntry)
    ensures EntryCluster(e) == Word(e[26], e[27]) + 0x1_0000 * Word(e[20], e[21])
  {
    assert LeAt(e, 20, 2) == e[20] + 256 * LeAt(e, 21, 1) && LeAt(e, 21, 1) == e[21] + 256 * LeAt(e, 22, 0);
    assert LeAt(e, 26, 2) == e[26] + 256 * LeAt(e, 27, 1) && LeAt(e, 27, 1) == e[27] + 256 * LeAt(e, 28, 0);
  }

  /** The entry is in use, has bit 3 of its attributes clear, and bears the name. */
  ghost predicate Bears(e: DirEntry, name: ShortName) {
    e[0] != 0 && e[0] != 0xE5 && e[11] % 16 < 8 && e[..11] == name
  }

  ghost predicate Bit4(e: DirEntry) { e[11] % 32 >= 16 }

  lemma AttributesRead(e: DirEntry, name: ShortName)
    ensures Matches(e, name) == Bears(e, name) && IsDirectoryEntry(e) == Bit4(e)
  {
    var attr: int := e[11];
    DirectoryBit(e, attr / 32, attr % 16);
    SkippedBit(e, attr / 16, attr % 8);
    assert attr == 32 * (attr / 32) + attr % 32 && attr == 16 * (attr / 16) + attr % 16;
  }

  /** Entry `i` is the first from `q` on that bears the name, and no end mark stands before it. */
  ghost predicate FirstNamed(es: seq<DirEntry>, name: ShortName, q: nat, i: nat) {
    q <= i < |es| && Bears(es[i], name) && forall j :: q <= j < i ==> es[j][0] != 0 && !Bears(es[j], name)
  }

  /** The first entry that bears the name decides, and of it bit 4 and whether the name is the file's own. */
  lemma {:induction false} NamedDecides(es: seq<DirEntry>, name: ShortName, strict: bool, q: nat, free: Option<nat>,
                                        i: nat)
    requires FirstNamed(es, name, q, i)
    ensures ScanFrom(es, name, strict, q, free)
         == if Bit4(es[i]) then TargetIsDirectory else if strict then Existing(i) else TargetExists
    decreases i - q
  {
    AttributesRead(es[q], name);
    if q < i { NamedDecides(es, name, strict, q + 1, if es[q][0] == 0xE5 && free.None? then Some(q) else free, i); }
  }

  /** Without one, the scan gives the first free entry; none is left exactly when all are in use. */
  lemma {:induction false} UnnamedDecides(es: seq<DirEntry>, name: ShortName, strict: bool, q: nat, free: Option<nat>)
    requires forall i: nat :: !FirstNamed(es, name, q, i)
    ensures var r := ScanFrom(es, name, strict, q, free);
            && (r.FreeSlot? || r.Full?)
            && (r.Full? <==> free.None? && forall j :: q <= j < |es| ==> es[j][0] != 0 && es[j][0] != 0xE5)
    decreases |es| - q
  {
    if q < |es| && es[q][0] != 0 {
      assert !FirstNamed(es, name, q, q);
      AttributesRead(es[q], name);
      var next := q + 1;
      forall i: nat ensures !FirstNamed(es, name, next, i) { assert !FirstNamed(es, name, q, i); }
      UnnamedDecides(es, name, strict, next, if es[q][0] == 0xE5 && free.None? then Some(q) else free);
    }
  }

  /** A place in a directory: cluster number in the chain, sector in the cluster, entry in the sector. */
  datatype Slot = Slot(ci: nat, sec: nat, i: nat)

  predicate SlotIn(g: Geometry, clusters: nat, slot: Slot) {
    slot.ci < clusters && slot.sec < g.sectorsPerCluster && slot.i < 16
  }

  function SlotNumber(g: Geometry, slot: Slot): (q: nat) { 16 * Position(g, slot.ci, slot.sec) + slot.i }

  datatype Found = AtExisting(slot: Slot) | AtFree(slot: Slot) | NoSlot | AtDirectory | AtOther | Interrupted

  function AsScan(g: Geometry, f: Found): (r: Scan) {
    match f
    case AtExisting(slot) => Existing(SlotNumber(g, slot))
    case AtFree(slot) => FreeSlot(SlotNumber(g, slot))
    case NoSlot => Full
    case Interrupted => Full
    case AtDirectory => TargetIsDirectory
    case AtOther => TargetExists
  }

  function NumberOf(g: Geometry, free: Option<Slot>): (q: Option<nat>) {
    if free.Some? then Some(SlotNumber(g, free.value)) else None
  }

  ghost predicate SlotsFit(g: Geometry, clusters: nat, f: Found) {
    match f
    case AtExisting(slot) => SlotIn(g, clusters, slot)
    case AtFree(slot) => SlotIn(g, clusters, slot)
    case _ => true
  }

  /** The entry at which the scan from `q` on ends: the end mark or a file of the name. */
  function ScanStop(es: seq<DirEntry>, name: ShortName, q: nat): (end: nat)
    requires q <= |es|
    ensures q <= end <= |es|
    decreases |es| - q
  {
    if q == |es| then q
    else if es[q][0] == 0 || Matches(es[q], name) then q
    else ScanStop(es, name, q + 1)
  }

  /** The sectors the scan reads. */
  function SectorsScanned(es: seq<DirEntry>, name: ShortName): (n: nat) {
    var stop := ScanStop(es, name, 0);
    if stop < |es| then stop / 16 + 1 else |es| / 16
  }

  /** The callback, asked before every 32nd sector, let the scan read `n` sectors. */
  ghost predicate LetScan(progress: Call -> bool, n: nat) {
    forall k :: 1 <= k <= n && k % 32 == 0 ==> progress(Scanned(k))
  }

  /** After `steps` sectors the scan goes on, has been refused the last of them, or has ended in it. */
  ghost predicate Stepped(es: seq<DirEntry>, name: ShortName, progress: Call -> bool, steps: nat, end: Option<Found>) {
    match end
    case None =>
      16 * steps <= |es| && ScanStop(es, name, 16 * steps) == ScanStop(es, name, 0) && LetScan(progress, steps)
    case Some(f) =>
      && 0 < steps && 16 * steps <= |es| && 16 * (steps - 1) <= ScanStop(es, name, 0)
      && if f.Interrupted? then steps % 32 == 0 && !progress(Scanned(steps))
         else ScanStop(es, name, 0) < 16 * steps && LetScan(progress, steps)
  }

  /** So the scan is interrupted exactly if a call it makes is refused. */
  lemma StepsEnd(es: seq<DirEntry>, name: ShortName, progress: Call -> bool, steps: nat, end: Option<Found>)
    requires Stepped(es, name, progress, steps, end) && |es| % 16 == 0 && (end.None? ==> 16 * steps == |es|)
    ensures end == Some(Interrupted) <==> !LetScan(progress, SectorsScanned(es, name))
    ensures end != Some(Interrupted) ==> steps == SectorsScanned(es, name)
  {
    var stop := ScanStop(es, name, 0);
    if end == Some(Interrupted) {
      assert steps <= SectorsScanned(es, name) by { Sixteenths(stop, |es|, steps - 1); }
    } else if end.Some? {
      assert stop / 16 == steps - 1;
    }
  }

  lemma Sixteenths(stop: nat, n: nat, k: nat)
    requires 16 * k <= stop <= n && 16 * (k + 1) <= n
    ensures k <= stop / 16 && k + 1 <= n / 16
  {
  }

  /** The scan that comes to `total` stands before entry `q`, with `free` remembered, or has come to its end. */
  ghost predicate ScanAt(g: Geometry, clusters: nat, es: seq<DirEntry>, name: ShortName, strict: bool, total: Scan,
                         q: nat, end: Option<Found>, free: Option<Slot>) {
    if end.Some? then end.value.Interrupted? || (SlotsFit(g, clusters, end.value) && AsScan(g, end.value) == total)
    else (free.Some? ==> SlotIn(g, clusters, free.value)) && total == ScanFrom(es, name, strict, q, NumberOf(g, free))
  }

  /** The entries of `sector` stand in the list from `base` on. */
  ghost predicate HoldsEntries(es: seq<DirEntry>, base: nat, sector: Sector) {
    base + 16 <= |es| && forall j :: base <= j < base + 16 ==> es[j] == EntryIn(sector, j - base)
  }

  lemma SectorEntries(s: seq<Sector>, lbas: seq<nat>, p: nat)
    requires AllOnDevice(s, lbas) && p < |lbas|
    ensures HoldsEntries(EntriesOf(s, lbas), 16 * p, s[lbas[p]])
  {
    forall j | 16 * p <= j < 16 * p + 16 ensures EntriesOf(s, lbas)[j] == EntryIn(s[lbas[p]], j - 16 * p) {
      EntryNumber(s, lbas, p, j - 16 * p);
    }
  }

  /** Of the scan from `base` on: it ends among the next `n` entries, or goes on behind them. */
  ghost predicate StopsWithin(es: seq<DirEntry>, name: ShortName, base: nat, n: nat, end: Option<Found>) {
    && base + n <= |es|
    && if end.None? then ScanStop(es, name, base) == ScanStop(es, name, base + n)
       else ScanStop(es, name, base) < base + n
  }

  /** One entry. */
  method ScanEntry(g: Geometry, clusters: nat, e: DirEntry, slot: Slot, name: ShortName, strict: bool,
                   start: Option<Slot>, ghost q: nat, ghost es: seq<DirEntry>, ghost total: Scan)
    returns (end: Option<Found>, free: Option<Slot>)
    requires SlotIn(g, clusters, slot) && q == SlotNumber(g, slot) < |es| && es[q] == e
    requires ScanAt(g, clusters, es, name, strict, total, q, None, start)
    ensures ScanAt(g, clusters, es, name, strict, total, q + 1, end, free) && end != Some(Interrupted)
    ensures StopsWithin(es, name, q, 1, end)
  {
    end, free := None, start;
    if e[0] == 0 {
      if free.None? { free := Some(slot); }
      end := Some(AtFree(free.value));
    } else if e[0] == DELETED {
      if free.None? { free := Some(slot); }
    } else if !IsSkipped(e) && e[..11] == name {
      if IsDirectoryEntry(e) {
        end := Some(AtDirectory);
      } else if !strict {
        end := Some(AtOther);
      } else {
        end := Some(AtExisting(slot));
      }
    }
  }

  /** The entries of one sector. */
  method ScanSector(g: Geometry, clusters: nat, sector: Sector, ci: nat, sec: nat, name: ShortName, strict: bool,
                    start: Option<Slot>, ghost p: nat, ghost es: seq<DirEntry>, ghost total: Scan)
    returns (end: Option<Found>, free: Option<Slot>)
    requires ci < clusters && sec < g.sectorsPerCluster && p == Position(g, ci, sec)
             && HoldsEntries(es, 16 * p, sector)
    requires ScanAt(g, clusters, es, name, strict, total, 16 * p, None, start)
    ensures ScanAt(g, clusters, es, name, strict, total, 16 * (p + 1), end, free) && end != Some(Interrupted)
    ensures StopsWithin(es, name, 16 * p, 16, end)
  {
    end, free := None, start;
    var i: nat := 0;
    while i < 16 && end.None?
      invariant i <= 16 && ScanAt(g, clusters, es, name, strict, total, 16 * p + i, end, free)
                && end != Some(Interrupted)
      invariant StopsWithin(es, name, 16 * p, i, end)
    {
      var e := EntryIn(sector, i);
      assert es[16 * p + i] == e;
      end, free := ScanEntry(g, clusters, e, Slot(ci, sec, i), name, strict, free, 16 * p + i, es, total);
      i := i + 1;
    }
  }

  /** One sector of one cluster. */
  method ScanOne(disk: FatDisk, g: Geometry, chain: seq<nat>, ci: nat, sec: nat, name: ShortName, strict: bool,
                 start: Option<Slot>,
                 ghost p: nat, ghost es: seq<DirEntry>, ghost total: Scan)
    returns (end: Option<Found>, free: Option<Slot>)
    requires ci < |chain| && sec < g.sectorsPerCluster && p == Position(g, ci, sec)
    requires AllOnDevice(disk.sectors, SectorList(g, chain)) && es == EntriesOf(disk.sectors, SectorList(g, chain))
    requires ScanAt(g, |chain|, es, name, strict, total, 16 * p, None, start)
    ensures ScanAt(g, |chain|, es, name, strict, total, 16 * (p + 1), end, free) && end != Some(Interrupted)
    ensures StopsWithin(es, name, 16 * p, 16, end)
  {
    SectorAt(g, chain, ci, sec);
    SectorEntries(disk.sectors, SectorList(g, chain), p);
    end, free := ScanSector(g, |chain|, disk.sectors[ClusterToLba(g, chain[ci]) + sec], ci, sec, name, strict, start,
        p, es, total);
  }

  /** The sectors of one cluster; after every 32 sectors the callback is asked. */
  method ScanCluster(disk: FatDisk, g: Geometry, chain: seq<nat>, ci: nat, before: nat, name: ShortName, strict: bool,
                     progress: Call -> bool,
                     start: Option<Slot>, ghost es: seq<DirEntry>, ghost total: Scan)
    returns (end: Option<Found>, free: Option<Slot>, steps: nat)
    requires ci < |chain| && AllOnDevice(disk.sectors, SectorList(g, chain))
             && es == EntriesOf(disk.sectors, SectorList(g, chain))
    requires ScanAt(g, |chain|, es, name, strict, total, 16 * SectorsOf(g, ci), None, start)
    requires before == SectorsOf(g, ci) && Stepped(es, name, progress, before, None)
    ensures ScanAt(g, |chain|, es, name, strict, total, 16 * SectorsOf(g, ci + 1), end, free)
    ensures Stepped(es, name, progress, steps, end) && (end.None? ==> steps == SectorsOf(g, ci + 1))
  {
    end, free, steps := None, start, before;
    var sec: nat := 0;
    while sec < g.sectorsPerCluster && end.None?
      invariant sec <= g.sectorsPerCluster && steps == Position(g, ci, sec)
                && ScanAt(g, |chain|, es, name, strict, total, 16 * steps, end, free)
      invariant Stepped(es, name, progress, steps, end)
      decreases g.sectorsPerCluster - sec
    {
      end, free := ScanNext(disk, g, chain, ci, sec, steps, name, strict, progress, free, es, total);
      steps := steps + 1;
      sec := sec + 1;
    }
    EndOfCluster(g, |chain|, es, name, strict, total, ci, sec, end, free);
  }

  /** The next sector, unless the callback refuses. */
  method ScanNext(disk: FatDisk, g: Geometry, chain: seq<nat>, ci: nat, sec: nat, steps: nat, name: ShortName,
                  strict: bool, progress: Call -> bool,
                  start: Option<Slot>, ghost es: seq<DirEntry>, ghost total: Scan)
    returns (end: Option<Found>, free: Option<Slot>)
    requires ci < |chain| && sec < g.sectorsPerCluster && steps == Position(g, ci, sec)
    requires AllOnDevice(disk.sectors, SectorList(g, chain)) && es == EntriesOf(disk.sectors, SectorList(g, chain))
    requires ScanAt(g, |chain|, es, name, strict, total, 16 * steps, None, start)
             && Stepped(es, name, progress, steps, None)
    ensures ScanAt(g, |chain|, es, name, strict, total, 16 * (steps + 1), end, free)
            && Stepped(es, name, progress, steps + 1, end)
  {
    assert 16 * (steps + 1) <= |es| by { SectorAt(g, chain, ci, sec); }
    if (steps + 1) % 32 == 0 && !progress(Scanned(steps + 1)) { return Some(Interrupted), start; }
    end, free := ScanOne(disk, g, chain, ci, sec, name, strict, start, steps, es, total);
    StepTaken(es, name, progress, steps, end);
  }

  lemma StepTaken(es: seq<DirEntry>, name: ShortName, progress: Call -> bool, steps: nat, end: Option<Found>)
    requires Stepped(es, name, progress, steps, None) && StopsWithin(es, name, 16 * steps, 16, end)
    requires end != Some(Interrupted) && ((steps + 1) % 32 == 0 ==> progress(Scanned(steps + 1)))
    ensures Stepped(es, name, progress, steps + 1, end)
  {
  }

  lemma EndOfCluster(g: Geometry, clusters: nat, es: seq<DirEntry>, name: ShortName, strict: bool, total: Scan, ci: nat,
                     sec: nat,
                     end: Option<Found>, free: Option<Slot>)
    requires ScanAt(g, clusters, es, name, strict, total, 16 * Position(g, ci, sec), end, free)
             && (end.Some? || sec == g.sectorsPerCluster)
    ensures ScanAt(g, clusters, es, name, strict, total, 16 * SectorsOf(g, ci + 1), end, free)
  {
  }

  /** The whole directory, as far as it is read. */
  method ScanDirectory(disk: FatDisk, g: Geometry, chain: seq<nat>, name: ShortName, strict: bool,
                       progress: Call -> bool) returns (f: Found, steps: nat)
    requires AllOnDevice(disk.sectors, SectorList(g, chain))
    ensures var n := SectorsScanned(EntriesOf(disk.sectors, SectorList(g, chain)), name);
            (f.Interrupted? <==> !LetScan(progress, n)) && (!f.Interrupted? ==> steps == n)
    ensures !f.Interrupted? ==>
              AsScan(g, f) == ScanFrom(EntriesOf(disk.sectors, SectorList(g, chain)), name, strict, 0, None)
                  && SlotsFit(g, |chain|, f)
  {
    ghost var es := EntriesOf(disk.sectors, SectorList(g, chain));
    ghost var total := ScanFrom(es, name, strict, 0, None);
    var end, free;
    end, free, steps := ScanClusters(disk, g, chain, name, strict, progress, es, total);
    StepsEnd(es, name, progress, steps, end);
    if end.Some? {
      f := end.value;
    } else {
      f := if free.Some? then AtFree(free.value) else NoSlot;
    }
  }

  /** Cluster by cluster. */
  method ScanClusters(disk: FatDisk, g: Geometry, chain: seq<nat>, name: ShortName, strict: bool,
                      progress: Call -> bool, ghost es: seq<DirEntry>, ghost total: Scan)
    returns (end: Option<Found>, free: Option<Slot>, steps: nat)
    requires AllOnDevice(disk.sectors, SectorList(g, chain)) && es == EntriesOf(disk.sectors, SectorList(g, chain))
             && total == ScanFrom(es, name, strict, 0, None)
    ensures ScanAt(g, |chain|, es, name, strict, total, |es|, end, free)
    ensures Stepped(es, name, progress, steps, end) && (end.None? ==> 16 * steps == |es|)
  {
    end, free, steps := None, None, 0;
    var ci: nat := 0;
    while ci < |chain| && end.None?
      invariant ci <= |chain| && ScanAt(g, |chain|, es, name, strict, total, 16 * SectorsOf(g, ci), end, free)
      invariant Stepped(es, name, progress, steps, end) && (end.None? ==> steps == SectorsOf(g, ci))
    {
      end, free, steps := ScanCluster(disk, g, chain, ci, steps, name, strict, progress, free, es, total);
      ci := ci + 1;
    }
  }

  // ---- Finding an entry again ------------------------------------------------------------------------------

  /** The entry of a file under its own name is found, if no other of the name and no end mark stands before it. */
  lemma {:induction false} ScanFinds(es: seq<DirEntry>, name: ShortName, i: nat, free: Option<nat>, q: nat)
    requires i <= q < |es| && Matches(es[q], name) && !IsDirectoryEntry(es[q])
    requires forall j :: i <= j < q ==> es[j][0] != 0 && !Matches(es[j], name)
    ensures ScanFrom(es, name, true, i, free) == Existing(q)
    decreases q - i
  {
    if i < q { ScanFinds(es, name, i + 1, if es[i][0] == DELETED && free.None? then Some(i) else free, q); }
  }

  /** No end mark stands before the end of the directory. */
  lemma {:induction false} UsedBeforeEnd(es: seq<DirEntry>, q: nat)
    ensures forall j :: q <= j < EndFrom(es, q) && j < |es| ==> es[j][0] != 0
    decreases |es| - q
  {
    if q < |es| && es[q][0] != 0 { UsedBeforeEnd(es, q + 1); }
  }

  lemma {:induction false} EndAfterUsed(es: seq<DirEntry>, q: nat, i: nat)
    requires q <= i <= |es| && forall j :: q <= j < i ==> es[j][0] != 0
    ensures EndFrom(es, q) >= i
    decreases i - q
  {
    if q < i { EndAfterUsed(es, q + 1, i); }
  }
}
