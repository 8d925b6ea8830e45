/**
  The FAT of a FAT32 volume, byte by byte: a number of copies of a table of 32-bit entries of
  which the low 28 bits link clusters. Reading uses the first copy, writing changes all copies
  and keeps the top four bits.
 */
module Fat32Table {
  import opened Bytes
  import opened SectorCopy

  const LOW28: nat := 0x1000_0000
  const CHAIN_END: nat := 0x0FFF_FFF8

  /** Where the copies of the FAT lie. */
  datatype FatArea = FatArea(start: nat, sectorsPerFat: nat, fats: nat)

  function Copies(a: FatArea): (n: nat)
    ensures n >= 1
  {
    Max(a.fats, 1)
  }

  /** The first sector of copy number `k`. */
  function CopyStart(a: FatArea, k: nat): (lba: nat) {
    if k == 0 then a.start else CopyStart(a, k - 1) + a.sectorsPerFat
  }

  lemma {:induction false} CopiesInOrder(a: FatArea, j: nat, k: nat)
    requires j < k
    ensures CopyStart(a, j) + a.sectorsPerFat <= CopyStart(a, k)
    decreases k
  {
    if j < k - 1 { CopiesInOrder(a, j, k - 1); }
  }

  lemma {:induction false} CopiesFromStart(a: FatArea, k: nat)
    ensures a.start <= CopyStart(a, k)
  {
    if k > 0 { CopiesFromStart(a, k - 1); }
  }

  /** The copies stand one behind the other, as many as the volume says and at least one. */
  lemma {:induction false} CopiesStand(a: FatArea, k: nat)
    ensures CopyStart(a, k) == a.start + k * a.sectorsPerFat
    ensures Copies(a) == if a.fats == 0 then 1 else a.fats
  {
    if k > 0 {
      CopiesStand(a, k - 1);
      assert k * a.sectorsPerFat == (k - 1) * a.sectorsPerFat + a.sectorsPerFat;
    }
  }

  /** The cluster has an entry. */
  predicate InFat(a: FatArea, c: nat) { c / 128 < a.sectorsPerFat }

  ghost predicate Fits(s: seq<Sector>, a: FatArea) { CopyStart(a, Copies(a)) <= |s| }

  function EntryLba(a: FatArea, copy: nat, c: nat): (lba: nat) { CopyStart(a, copy) + c / 128 }

  lemma EntryOnDevice(s: seq<Sector>, a: FatArea, copy: nat, c: nat)
    requires Fits(s, a) && copy < Copies(a) && InFat(a, c)
    ensures a.start <= EntryLba(a, copy, c) < CopyStart(a, copy) + a.sectorsPerFat <= CopyStart(a, Copies(a)) <= |s|
  {
    CopiesInOrder(a, copy, Copies(a));
    CopiesFromStart(a, copy);
  }

  lemma EntryPlace(c: nat)
    ensures (c * 4) / SECTOR_SIZE == c / 128 && (c * 4) % SECTOR_SIZE == 4 * (c % 128)
  {
  }

  /** The raw entry in a sector. */
  function RawIn(sector: Sector, c: nat): (v: nat) { LeAt(sector, 4 * (c % 128), 4) }

  function Raw(s: seq<Sector>, a: FatArea, copy: nat, c: nat): (v: nat)
    requires EntryLba(a, copy, c) < |s|
  {
    RawIn(s[EntryLba(a, copy, c)], c)
  }

  lemma RawBound(sector: Sector, c: nat)
    ensures RawIn(sector, c) < U32
  {
    LeLocal(sector, 4 * (c % 128), sector, 4 * (c % 128), 4);
    PowersOf256();
  }

  /** The top four bits of the old entry with the low 28 bits of the new value. */
  function Merged(old_: nat, value: nat): (v: nat)
    ensures v % LOW28 == value % LOW28 && v / LOW28 == old_ / LOW28
  {
    (old_ / LOW28) * LOW28 + value % LOW28
  }

  // ---- One sector ---------------------------------------------------------------------------------

  function WithRaw(sector: Sector, c: nat, v: nat): (r: Sector) { Splice(sector, 4 * (c % 128), LeBytes(v, 4)) }

  lemma RawRead(sector: Sector, c: nat, v: nat)
    requires v < U32
    ensures RawIn(WithRaw(sector, c, v), c) == v
  {
    var r, off := WithRaw(sector, c, v), 4 * (c % 128);
    forall j | 0 <= j < 4 ensures r[off + j] == LeBytes(v, 4)[j] {}
    Le32RoundTrip(r, off, v);
  }

  lemma OtherRaw(sector: Sector, c: nat, v: nat, e: nat)
    requires e % 128 != c % 128
    ensures RawIn(WithRaw(sector, c, v), e) == RawIn(sector, e)
  {
    LeSame(WithRaw(sector, c, v), sector, 4 * (e % 128), 4);
  }

  // ---- Reading and writing entries ------------------------------------------------------------------

  class FatDisk {
    const area: FatArea
    var sectors: seq<Sector>

    constructor (area: FatArea, sectors: seq<Sector>)
      ensures this.area == area && this.sectors == sectors
    {
      this.area, this.sectors := area, sectors;
    }

    /** `read_fat_entry`. */
    method ReadEntry(c: nat) returns (v: nat)
      requires Fits(sectors, area) && InFat(area, c)
      ensures EntryLba(area, 0, c) < |sectors| && v == Raw(sectors, area, 0, c) % LOW28
    {
      EntryOnDevice(sectors, area, 0, c);
      var fatOffset := c * 4;
      EntryPlace(c);
      var lba, offset := area.start + fatOffset / SECTOR_SIZE, fatOffset % SECTOR_SIZE;
      var sector := sectors[lba];
      v := LeAt(sector, offset, 4) % LOW28;
    }

    /** `write_fat_entry`. */
    method WriteEntry(c: nat, value: nat)
      requires Fits(sectors, area) && InFat(area, c)
      modifies this
      ensures EntryWritten(old(sectors), sectors, area, c, value, Copies(area))
    {
      for copy := 0 to Copies(area)
        invariant EntryWritten(old(sectors), sectors, area, c, value, copy)
      {
        EntryOnDevice(sectors, area, copy, c);
        var fatOffset := c * 4;
        EntryPlace(c);
        var lba, offset := CopyStart(area, copy) + fatOffset / SECTOR_SIZE, fatOffset % SECTOR_SIZE;
        var sector: Sector := sectors[lba];
        var raw := Merged(LeAt(sector, offset, 4), value);
        sector := Splice(sector, offset, LeBytes(raw, 4));
        ghost var before := sectors;
        sectors := sectors[lba := sector];
        CopyWritten(old(sectors), before, sectors, area, c, value, copy);
      }
    }
  }

  /** What entry `e` of a copy holds after entry `c` of that copy has been written. */
  function EntryAfter(raw: nat, e: nat, c: nat, value: nat, written: bool): (v: nat) {
    if written && e == c then Merged(raw, value) else raw
  }

  ghost predicate EntrySame(s: seq<Sector>, s': seq<Sector>, a: FatArea, c: nat, value: nat, copies: nat, copy: nat,
                            e: nat)
    requires EntryLba(a, copy, e) < |s| == |s'|
  {
    Raw(s', a, copy, e) == EntryAfter(Raw(s, a, copy, e), e, c, value, copy < copies)
  }

  /**
    Entry `c` has been written in the first `copies` copies; every other entry and every sector
    outside the FATs is as before.
   */
  ghost predicate EntryWritten(s: seq<Sector>, s': seq<Sector>, a: FatArea, c: nat, value: nat, copies: nat) {
    && Fits(s, a) && |s'| == |s|
    && (forall copy: nat, e: nat {:trigger EntrySame(s, s', a, c, value, copies, copy, e)} ::
          copy < Copies(a) && InFat(a, e) && EntryLba(a, copy, e) < |s| ==>
            EntrySame(s, s', a, c, value, copies, copy, e))
    && (forall lba :: 0 <= lba < |s| && !(a.start <= lba < CopyStart(a, Copies(a))) ==> s'[lba] == s[lba])
  }

  /** Writing the entry of one more copy. */
  lemma CopyWritten(s: seq<Sector>, mid: seq<Sector>, s': seq<Sector>, a: FatArea, c: nat, value: nat, copy: nat)
    requires copy < Copies(a) && InFat(a, c) && EntryWritten(s, mid, a, c, value, copy) && EntryLba(a, copy, c) < |s|
    requires s' == mid[EntryLba(a, copy, c)
             := WithRaw(mid[EntryLba(a, copy, c)], c, Merged(Raw(mid, a, copy, c), value))]
    ensures EntryWritten(s, s', a, c, value, copy + 1)
  {
    EntryOnDevice(s, a, copy, c);
    forall k: nat, e: nat | k < Copies(a) && InFat(a, e) && EntryLba(a, k, e) < |s|
        ensures EntrySame(s, s', a, c, value, copy + 1, k, e) {
      assert EntrySame(s, mid, a, c, value, copy, k, e) && EntrySame(s, mid, a, c, value, copy, copy, c);
      EntryStep(mid, s', a, c, value, copy, k, e);
    }
  }

  lemma EntryStep(mid: seq<Sector>, s': seq<Sector>, a: FatArea, c: nat, value: nat, copy: nat, k: nat, e: nat)
    requires InFat(a, c) && InFat(a, e) && EntryLba(a, copy, c) < |mid| == |s'| && EntryLba(a, k, e) < |mid|
    requires s' == mid[EntryLba(a, copy, c)
             := WithRaw(mid[EntryLba(a, copy, c)], c, Merged(Raw(mid, a, copy, c), value))]
    ensures Raw(s', a, k, e) == if k == copy && e == c then Merged(Raw(mid, a, copy, c), value) else Raw(mid, a, k, e)
  {
    if k < copy { CopiesInOrder(a, k, copy); }
    if copy < k { CopiesInOrder(a, copy, k); }
    if k == copy && e / 128 == c / 128 {
      var old_ := mid[EntryLba(a, copy, c)];
      if e == c {
        RawBound(old_, c);
        RawRead(old_, c, Merged(RawIn(old_, c), value));
      } else {
        OtherRaw(old_, c, Merged(RawIn(old_, c), value), e);
      }
    }
  }

  // ---- The table of links -----------------------------------------------------------------------------

  /** The links as reading sees them: the low 28 bits of the first copy. */
  function Links(s: seq<Sector>, a: FatArea): (t: seq<nat>)
    requires Fits(s, a)
    ensures |t| == 128 * a.sectorsPerFat
  {
    seq(128 * a.sectorsPerFat, c
        requires 0 <= c < 128 * a.sectorsPerFat => (EntryOnDevice(s, a, 0, c); Raw(s, a, 0, c) % LOW28))
  }

  lemma LinkAt(s: seq<Sector>, a: FatArea, c: nat)
    requires Fits(s, a) && InFat(a, c)
    ensures c < |Links(s, a)| && EntryLba(a, 0, c) < |s| && Links(s, a)[c] == Raw(s, a, 0, c) % LOW28
  {
    EntryOnDevice(s, a, 0, c);
  }

  /** Writing an entry changes one link. */
  lemma LinksAfter(s: seq<Sector>, s': seq<Sector>, a: FatArea, c: nat, value: nat)
    requires InFat(a, c) && EntryWritten(s, s', a, c, value, Copies(a))
    ensures c < |Links(s, a)| && Links(s', a) == Links(s, a)[c := value % LOW28]
  {
    forall e | 0 <= e < 128 * a.sectorsPerFat
        ensures Links(s', a)[e] == if e == c then value % LOW28 else Links(s, a)[e] {
      LinkAt(s, a, e);
      LinkAt(s', a, e);
      assert EntrySame(s, s', a, c, value, Copies(a), 0, e);
    }
  }

  /** Links lead to clusters that have an entry, or end a chain. */
  ghost predicate LinksInside(t: seq<nat>) { forall c :: 0 <= c < |t| ==> t[c] < 2 || t[c] >= CHAIN_END || t[c] < |t| }

  predicate Ends(c: nat, next: nat) { next == c || next < 2 || next >= CHAIN_END }

  // ---- Walking --------------------------------------------------------------------------------------------

  const WALK_LIMIT: nat := 0x100000

  /** What reading entry after entry collects from `current` on, when `k` clusters have been collected before. */
  function Walk(t: seq<nat>, current: nat, max: nat, k: nat): (r: Option<seq<nat>>)
    decreases WALK_LIMIT + 1 - k
  {
    if current < 2 || current >= CHAIN_END || current >= |t| then Some([])
    else if k + 1 >= max then Some([current])
    else if Ends(current, t[current]) then Some([current])
    else if k + 1 > WALK_LIMIT then None
    else
      var rest := Walk(t, t[current], max, k + 1);
      if rest.None? then None else Some([current] + rest.value)
  }

  function After(chain: seq<nat>, rest: Option<seq<nat>>): (r: Option<seq<nat>>) {
    if rest.None? then None else Some(chain + rest.value)
  }

  lemma AfterMore(chain: seq<nat>, c: nat, rest: Option<seq<nat>>)
    ensures After(chain, After([c], rest)) == After(chain + [c], rest) && After([], rest) == rest
  {
    if rest.Some? {
      assert chain + ([c] + rest.value) == chain + [c] + rest.value;
      assert [] + rest.value == rest.value;
    }
  }

  /** The sector in memory is the one on the disk. */
  ghost predicate Fresh(s: seq<Sector>, cached: Option<(nat, Sector)>) {
    cached.Some? ==> cached.value.0 < |s| && cached.value.1 == s[cached.value.0]
  }

  method CachedEntry(disk: FatDisk, cached: Option<(nat, Sector)>, c: nat, ghost t: seq<nat>)
    returns (next: nat, cached': Option<(nat, Sector)>)
    requires Fits(disk.sectors, disk.area) && t == Links(disk.sectors, disk.area) && InFat(disk.area, c)
             && Fresh(disk.sectors, cached)
    ensures c < |t| && next == t[c] && Fresh(disk.sectors, cached')
  {
    LinkAt(disk.sectors, disk.area, c);
    EntryPlace(c);
    var lba, offset := disk.area.start + (c * 4) / SECTOR_SIZE, (c * 4) % SECTOR_SIZE;
    cached' := cached;
    if cached.None? || cached.value.0 != lba { cached' := Some((lba, disk.sectors[lba])); }
    next := LeAt(cached'.value.1, offset, 4) % LOW28;
  }

  /** `chain` has been collected from `start` on and the walk stands at `current`. */
  ghost predicate Walking(t: seq<nat>, start: nat, max: nat, chain: seq<nat>, current: nat) {
    Walk(t, start, max, 0) == After(chain, Walk(t, current, max, |chain|))
  }

  lemma WalkStep(t: seq<nat>, start: nat, max: nat, chain: seq<nat>, current: nat)
    requires Walking(t, start, max, chain, current) && 2 <= current < CHAIN_END && current < |t|
    ensures |chain| + 1 >= max || Ends(current, t[current]) ==> Walk(t, start, max, 0) == Some(chain + [current])
    ensures |chain| + 1 < max && !Ends(current, t[current]) ==>
              if |chain| + 1 > WALK_LIMIT then Walk(t, start, max, 0) == None
                  else Walking(t, start, max, chain + [current], t[current])
  {
    AfterMore(chain, current, Walk(t, t[current], max, |chain| + 1));
  }

  lemma WalkBegins(t: seq<nat>, start: nat, max: nat)
    ensures Walking(t, start, max, [], start)
  {
    AfterMore([], 0, Walk(t, start, max, 0));
  }

  lemma WalkIsOver(t: seq<nat>, start: nat, max: nat, chain: seq<nat>, current: nat)
    requires Walking(t, start, max, chain, current) && !(2 <= current < CHAIN_END)
    ensures Walk(t, start, max, 0) == Some(chain)
  {
    assert chain + [] == chain;
  }

  /** `read_cluster_chain`: the walk keeps the FAT sector it read last, and finds what reading every entry finds. */
  method ReadClusterChain(disk: FatDisk, start: nat, max: nat) returns (r: Option<seq<nat>>)
    requires Fits(disk.sectors, disk.area) && LinksInside(Links(disk.sectors, disk.area))
    requires 2 <= start < CHAIN_END ==> InFat(disk.area, start)
    ensures r == Walk(Links(disk.sectors, disk.area), start, max, 0)
  {
    ghost var t := Links(disk.sectors, disk.area);
    var chain: seq<nat> := [];
    WalkBegins(t, start, max);
    var current: nat, guard := start, 0;
    var cached: Option<(nat, Sector)> := None;
    while 2 <= current < CHAIN_END
      invariant guard == |chain| <= WALK_LIMIT && (2 <= current < CHAIN_END ==> current < |t|)
      invariant Walking(t, start, max, chain, current) && Fresh(disk.sectors, cached)
      decreases WALK_LIMIT - guard
    {
      WalkStep(t, start, max, chain, current);
      chain := chain + [current];
      if |chain| >= max { return Some(chain); }
      var next;
      next, cached := CachedEntry(disk, cached, current, t);
      if next == current || next < 2 || next >= CHAIN_END { return Some(chain); }
      current := next;
      guard := guard + 1;
      if guard > WALK_LIMIT { return None; }
    }
    WalkIsOver(t, start, max, chain, current);
    return Some(chain);
  }

  // ---- Freeing a chain --------------------------------------------------------------------------------------

  const FREE_LIMIT: nat := 0x10000

  /** The number of entries among the first `n` that are not zero. */
  function NonZero(t: seq<nat>, n: nat): (k: nat)
    requires n <= |t|
  {
    if n == 0 then 0 else NonZero(t, n - 1) + (if t[n - 1] != 0 then 1 else 0)
  }

  lemma {:induction false} ZeroedCount(t: seq<nat>, c: nat, n: nat)
    requires c < |t| && n <= |t|
    ensures NonZero(t[c := 0], n) == NonZero(t, n) - (if c < n && t[c] != 0 then 1 else 0)
  {
    if n > 0 { ZeroedCount(t, c, n - 1); }
  }

  /**
    The clusters freed from `cluster` on, when `k` have been freed before, and whether that ended
    well.
   */
  function FreeList(t: seq<nat>, cluster: nat, k: nat): (r: (seq<nat>, bool))
    decreases FREE_LIMIT + 1 - k
  {
    if cluster < 2 || cluster >= CHAIN_END || cluster >= |t| then ([], true)
    else if Ends(cluster, t[cluster]) then ([cluster], true)
    else if k + 1 > FREE_LIMIT then ([cluster], false)
    else
      var rest := FreeList(t[cluster := 0], t[cluster], k + 1);
      ([cluster] + rest.0, rest.1)
  }

  /** The entries of these clusters are zero in every copy, with their top four bits kept; nothing else has changed. */
  ghost predicate ChainFreed(s: seq<Sector>, s': seq<Sector>, a: FatArea, cs: seq<nat>) {
    && Fits(s, a) && |s'| == |s|
    && (forall copy: nat, e: nat {:trigger EntryFreed(s, s', a, cs, copy, e)} ::
          copy < Copies(a) && InFat(a, e) && EntryLba(a, copy, e) < |s| ==> EntryFreed(s, s', a, cs, copy, e))
    && (forall lba :: 0 <= lba < |s| && !(a.start <= lba < CopyStart(a, Copies(a))) ==> s'[lba] == s[lba])
  }

  ghost predicate EntryFreed(s: seq<Sector>, s': seq<Sector>, a: FatArea, cs: seq<nat>, copy: nat, e: nat)
    requires EntryLba(a, copy, e) < |s| == |s'|
  {
    Raw(s', a, copy, e) == if e in cs then Merged(Raw(s, a, copy, e), 0) else Raw(s, a, copy, e)
  }

  lemma MergedAgain(raw: nat)
    ensures Merged(Merged(raw, 0), 0) == Merged(raw, 0)
  {
  }

  lemma OneMoreFreed(s: seq<Sector>, mid: seq<Sector>, s': seq<Sector>, a: FatArea, cs: seq<nat>, c: nat)
    requires ChainFreed(s, mid, a, cs) && InFat(a, c) && EntryWritten(mid, s', a, c, 0, Copies(a))
    ensures ChainFreed(s, s', a, cs + [c])
  {
    forall copy: nat, e: nat | copy < Copies(a) && InFat(a, e) && EntryLba(a, copy, e) < |s|
        ensures EntryFreed(s, s', a, cs + [c], copy, e) {
      assert EntryFreed(s, mid, a, cs, copy, e) && EntrySame(mid, s', a, c, 0, Copies(a), copy, e);
      MergedAgain(Raw(s, a, copy, e));
    }
  }

  function Behind(cs: seq<nat>, r: (seq<nat>, bool)): (q: (seq<nat>, bool)) { (cs + r.0, r.1) }

  lemma BehindMore(cs: seq<nat>, c: nat, r: (seq<nat>, bool))
    ensures Behind(cs, ([c] + r.0, r.1)) == Behind(cs + [c], r) && Behind([], r) == r
  {
    assert cs + ([c] + r.0) == cs + [c] + r.0;
    assert [] + r.0 == r.0;
  }

  lemma ZeroedInside(t: seq<nat>, c: nat)
    requires LinksInside(t) && c < |t|
    ensures LinksInside(t[c := 0])
  {
  }

  /** One step: the entry is read and zeroed. */
  method FreeEntry(disk: FatDisk, c: nat, ghost t: seq<nat>, ghost s: seq<Sector>, ghost cs: seq<nat>)
    returns (next: nat)
    requires Fits(disk.sectors, disk.area) && t == Links(disk.sectors, disk.area) && c < |t|
             && ChainFreed(s, disk.sectors, disk.area, cs)
    modifies disk
    ensures Fits(disk.sectors, disk.area) && ChainFreed(s, disk.sectors, disk.area, cs + [c])
    ensures next == t[c] && Links(disk.sectors, disk.area) == t[c := 0]
  {
    LinkAt(disk.sectors, disk.area, c);
    next := disk.ReadEntry(c);
    ghost var mid := disk.sectors;
    disk.WriteEntry(c, 0);
    LinksAfter(mid, disk.sectors, disk.area, c, 0);
    OneMoreFreed(s, mid, disk.sectors, disk.area, cs, c);
  }

  /** `cs` have been freed from `start` on and the loop stands at `cluster`, with the table now `t`. */
  ghost predicate Freeing(t0: seq<nat>, start: nat, cs: seq<nat>, t: seq<nat>, cluster: nat, k: nat) {
    FreeList(t0, start, 0) == Behind(cs, FreeList(t, cluster, k))
  }

  lemma FreeStep(t0: seq<nat>, start: nat, cs: seq<nat>, t: seq<nat>, cluster: nat, k: nat)
    requires Freeing(t0, start, cs, t, cluster, k) && 2 <= cluster < CHAIN_END && cluster < |t|
    ensures Ends(cluster, t[cluster]) ==> FreeList(t0, start, 0) == (cs + [cluster], true)
    ensures !Ends(cluster, t[cluster]) && k + 1 > FREE_LIMIT ==> FreeList(t0, start, 0) == (cs + [cluster], false)
    ensures !Ends(cluster, t[cluster]) && k + 1 <= FREE_LIMIT ==>
              Freeing(t0, start, cs + [cluster], t[cluster := 0], t[cluster], k + 1)
    ensures !Ends(cluster, t[cluster]) ==> NonZero(t[cluster := 0], |t|) < NonZero(t, |t|)
  {
    ZeroedCount(t, cluster, |t|);
    BehindMore(cs, cluster, FreeList(t[cluster := 0], t[cluster], k + 1));
  }

  lemma NothingFreed(s: seq<Sector>, a: FatArea)
    requires Fits(s, a)
    ensures ChainFreed(s, s, a, [])
  {
    forall copy: nat, e: nat | copy < Copies(a) && InFat(a, e) && EntryLba(a, copy, e) < |s|
        ensures EntryFreed(s, s, a, [], copy, e) {}
  }

  lemma FreeBegins(t: seq<nat>, start: nat)
    ensures Freeing(t, start, [], t, start, 0)
  {
    BehindMore([], 0, FreeList(t, start, 0));
  }

  lemma FreeIsOver(t0: seq<nat>, start: nat, cs: seq<nat>, t: seq<nat>, cluster: nat, k: nat)
    requires Freeing(t0, start, cs, t, cluster, k) && !(2 <= cluster < CHAIN_END)
    ensures FreeList(t0, start, 0) == (cs, true)
  {
    assert cs + [] == cs;
  }

  /** Everything the freeing loop maintains: `t` is the table now, `cs` have been freed, `cluster` is next. */
  ghost predicate FreeState(s0: seq<Sector>, s: seq<Sector>, a: FatArea, t0: seq<nat>, start: nat, cs: seq<nat>,
                            t: seq<nat>, cluster: nat, k: nat) {
    && Fits(s, a) && t == Links(s, a) && LinksInside(t) && (2 <= cluster < CHAIN_END ==> cluster < |t|)
    && ChainFreed(s0, s, a, cs) && Freeing(t0, start, cs, t, cluster, k)
  }

  /** The loop has come to its end, well or with the error. */
  ghost predicate FreeEnd(s0: seq<Sector>, s: seq<Sector>, a: FatArea, t0: seq<nat>, start: nat, cs: seq<nat>,
                          ok: bool) {
    ChainFreed(s0, s, a, cs) && FreeList(t0, start, 0) == (cs, ok)
  }

  /** One round of the loop: `end` tells whether it is the last, and how it ends. */
  method FreeOne(disk: FatDisk, cluster: nat, guard: nat, ghost s0: seq<Sector>, ghost t0: seq<nat>, ghost start: nat,
                 ghost cs: seq<nat>, ghost t: seq<nat>)
    returns (next: nat, end: Option<bool>)
    requires FreeState(s0, disk.sectors, disk.area, t0, start, cs, t, cluster, guard) && 2 <= cluster < CHAIN_END
             && guard <= FREE_LIMIT
    modifies disk
    ensures end.Some? ==> FreeEnd(s0, disk.sectors, disk.area, t0, start, cs + [cluster], end.value)
    ensures end.None? ==>
              && FreeState(s0, disk.sectors, disk.area, t0, start, cs + [cluster], t[cluster := 0], next, guard + 1)
              && 2 <= next < CHAIN_END && guard + 1 <= FREE_LIMIT && NonZero(t[cluster := 0], |t|) < NonZero(t, |t|)
  {
    FreeStep(t0, start, cs, t, cluster, guard);
    next := FreeEntry(disk, cluster, t, s0, cs);
    ZeroedInside(t, cluster);
    end := None;
    if next == cluster || next < 2 || next >= CHAIN_END {
      end := Some(true);
    } else if guard + 1 > FREE_LIMIT {
      end := Some(false);
    }
  }

  /** `free_cluster_chain`. The loop ends on every table: an entry that leads on becomes zero. */
  method FreeClusterChain(disk: FatDisk, start: nat) returns (ok: bool, ghost cs: seq<nat>)
    requires Fits(disk.sectors, disk.area) && LinksInside(Links(disk.sectors, disk.area))
    requires 2 <= start < CHAIN_END ==> InFat(disk.area, start)
    modifies disk
    ensures FreeEnd(old(disk.sectors), disk.sectors, disk.area, Links(old(disk.sectors), disk.area), start, cs, ok)
  {
    cs := [];
    var cluster: nat, guard: nat := start, 0;
    ghost var t := Links(disk.sectors, disk.area);
    ghost var t0, s0 := t, disk.sectors;
    FreeBegins(t0, start);
    NothingFreed(s0, disk.area);
    if !(2 <= cluster < CHAIN_END) {
      FreeIsOver(t0, start, cs, t, cluster, guard);
      return true, cs;
    }
    var end: Option<bool> := None;
    while end.None?
      invariant end.None? ==>
                  FreeState(s0, disk.sectors, disk.area, t0, start, cs, t, cluster, guard) && 2 <= cluster < CHAIN_END
                  && guard <= FREE_LIMIT
      invariant end.Some? ==> FreeEnd(s0, disk.sectors, disk.area, t0, start, cs, end.value)
      decreases end.None?, NonZero(t, |t|)
    {
      var next;
      next, end := FreeOne(disk, cluster, guard, s0, t0, start, cs, t);
      t, cs := t[cluster := 0], cs + [cluster];
      cluster, guard := next, guard + 1;
    }
    ok := end.value;
  }

  // ---- Chains without loops ----------------------------------------------------------------------------------

  /** A chain of distinct clusters, linked, and ended. */
  ghost predicate IsChain(t: seq<nat>, chain: seq<nat>) {
    && Distinct(chain) && (forall i :: 0 <= i < |chain| ==> 2 <= chain[i] < |t| && chain[i] < CHAIN_END)
    && (forall i :: 0 <= i < |chain| - 1 ==> t[chain[i]] == chain[i + 1])
    && (|chain| > 0 ==> Ends(chain[|chain| - 1], t[chain[|chain| - 1]]))
  }

  /** The rest of the chain is still as it was when its beginning has been freed. */
  ghost predicate RestOfChain(t: seq<nat>, t': seq<nat>, chain: seq<nat>, k: nat) {
    |t'| == |t| && forall i :: k <= i < |chain| ==> 0 <= chain[i] < |t| && t'[chain[i]] == t[chain[i]]
  }

  /**
    A chain within the limit is freed entirely, and no other cluster; of a longer one the beginning is
    freed and an error returned.
   */
  lemma {:induction false} FreesTheChain(t: seq<nat>, t': seq<nat>, chain: seq<nat>, k: nat)
    requires IsChain(t, chain) && k < |chain| && k <= FREE_LIMIT && RestOfChain(t, t', chain, k)
    ensures FreeList(t', chain[k], k) == (chain[k..Min(|chain|, FREE_LIMIT + 1)], |chain| <= FREE_LIMIT + 1)
    decreases |chain| - k
  {
    if k + 1 == |chain| {
      assert chain[k..k + 1] == [chain[k]];
    } else {
      assert t'[chain[k]] == t[chain[k]] == chain[k + 1] != chain[k];
      if k + 1 <= FREE_LIMIT {
        FreesTheChain(t, t'[chain[k] := 0], chain, k + 1);
        var n := Min(|chain|, FREE_LIMIT + 1);
        assert chain[k..n] == [chain[k]] + chain[k + 1..n];
      } else {
        assert chain[k..FREE_LIMIT + 1] == [chain[k]];
      }
    }
  }
}
