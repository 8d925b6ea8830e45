/**
  Cluster chains of a FAT32 volume: finding free clusters, making chains longer and shorter.
  A cluster is free when its link is zero, so the number of non-zero links is the number of
  clusters in use.
 */
module Fat32Alloc {
  import opened Bytes
  import opened SectorCopy
  import opened Fat32Table

  const FAT32_EOC: nat := 0x0FFF_FFFF

  /** Why an operation stopped. */
  datatype FatError = NoFreeClusters | Refused | ChainLoop | OffDevice | DirectoryChain | IsDirectory | Exists

  datatype Result<+T> = Ok(value: T) | Err(error: FatError)

  /** Distinct clusters in use, each linked to the next. */
  ghost predicate Linked(t: seq<nat>, chain: seq<nat>) {
    && Distinct(chain) && (forall i :: 0 <= i < |chain| ==> 2 <= chain[i] < |t| && chain[i] < CHAIN_END)
    && (forall i :: 0 <= i < |chain| - 1 ==> t[chain[i]] == chain[i + 1])
    && (|chain| > 0 ==> t[chain[|chain| - 1]] != 0)
  }

  /** A whole chain: the last cluster has an end mark. */
  ghost predicate StrictChain(t: seq<nat>, chain: seq<nat>) {
    Linked(t, chain) && (|chain| > 0 ==> t[chain[|chain| - 1]] >= CHAIN_END)
  }

  /** The beginning of a chain is linked. */
  lemma BeginningLinked(t: seq<nat>, chain: seq<nat>, n: nat)
    requires Linked(t, chain) && n <= |chain|
    ensures Linked(t, chain[..n])
  {
    if 0 < n { ChainInUse(t, chain, n - 1); }
  }

  /** Links outside `chain` are as before. */
  ghost predicate LinksKept(t: seq<nat>, t': seq<nat>, chain: seq<nat>) {
    |t'| == |t| && forall c :: 0 <= c < |t| && c !in chain ==> t'[c] == t[c]
  }

  ghost predicate Apart(a: seq<nat>, b: seq<nat>) { forall i :: 0 <= i < |a| ==> a[i] !in b }

  /** Clusters of chains are in use. */
  lemma ChainInUse(t: seq<nat>, chain: seq<nat>, i: nat)
    requires Linked(t, chain) && i < |chain|
    ensures t[chain[i]] != 0
  {
    if i < |chain| - 1 { assert t[chain[i]] == chain[i + 1] >= 2; }
  }

  lemma {:induction false} SetCount(t: seq<nat>, c: nat, v: nat, n: nat)
    requires c < |t| && n <= |t|
    ensures NonZero(t[c := v], n)
            == NonZero(t, n) - (if c < n && t[c] != 0 then 1 else 0) + (if c < n && v != 0 then 1 else 0)
  {
    if n > 0 { SetCount(t, c, v, n - 1); }
  }

  /** The clusters in use. */
  function Used(t: seq<nat>): (n: nat) { NonZero(t, |t|) }

  /** All of these links are zero. */
  function ZeroAll(t: seq<nat>, cs: seq<nat>): (r: seq<nat>)
    requires forall i :: 0 <= i < |cs| ==> cs[i] < |t|
    ensures |r| == |t| && forall c :: 0 <= c < |t| ==> r[c] == if c in cs then 0 else t[c]
  {
    if cs == [] then t else ZeroAll(t, cs[..|cs| - 1])[cs[|cs| - 1] := 0]
  }

  lemma {:induction false} ZeroAllCount(t: seq<nat>, cs: seq<nat>)
    requires (forall i :: 0 <= i < |cs| ==> cs[i] < |t| && t[cs[i]] != 0) && Distinct(cs)
    ensures Used(ZeroAll(t, cs)) == Used(t) - |cs|
    decreases |cs|
  {
    if cs != [] {
      var init, last := cs[..|cs| - 1], cs[|cs| - 1];
      assert last !in init;
      ZeroAllCount(t, init);
      SetCount(ZeroAll(t, init), last, 0, |t|);
    }
  }

  /** Freed entries are zero links. */
  lemma LinksFreed(s: seq<Sector>, s': seq<Sector>, a: FatArea, cs: seq<nat>)
    requires ChainFreed(s, s', a, cs) && forall i :: 0 <= i < |cs| ==> cs[i] < 128 * a.sectorsPerFat
    ensures Fits(s', a) && Links(s', a) == ZeroAll(Links(s, a), cs)
  {
    forall e | 0 <= e < 128 * a.sectorsPerFat ensures Links(s', a)[e] == ZeroAll(Links(s, a), cs)[e] {
      LinkAt(s, a, e);
      LinkAt(s', a, e);
      assert EntryFreed(s, s', a, cs, 0, e);
    }
  }

  // ---- Looking for a free cluster -------------------------------------------------------------------

  /** The first zero link from `c` on, or the length of the table. */
  function FirstZero(t: seq<nat>, c: nat): (r: nat)
    requires c <= |t|
    ensures c <= r <= |t| && (r < |t| ==> t[r] == 0) && forall e :: c <= e < r ==> t[e] != 0
    decreases |t| - c
  {
    if c == |t| || t[c] == 0 then c else FirstZero(t, c + 1)
  }

  function SearchStart(t: seq<nat>, hint: nat): (c: nat) { if hint < 2 || hint >= |t| then 2 else hint }

  /** The free cluster the search from `hint` gives: the first one from there on, else the first one at all. */
  function FirstFree(t: seq<nat>, hint: nat): (r: Option<nat>)
    ensures r.Some? ==> 2 <= r.value < |t| && t[r.value] == 0
    ensures r.None? ==> forall c :: 2 <= c < |t| ==> t[c] != 0
  {
    if |t| <= 2 then None
    else
      var start := SearchStart(t, hint);
      var c := FirstZero(t, start);
      if c < |t| then Some(c)
      else
        var e := FirstZero(t, 2);
        if e < start then Some(e) else None
  }

  /** The search from `hint` has come to `cluster`, and has passed the end of the table or not. */
  ghost predicate Searching(t: seq<nat>, hint: nat, start: nat, cluster: nat, wrapped: bool) {
    && 2 <= cluster < |t| && 2 <= start < |t| && start == SearchStart(t, hint)
    && if wrapped then cluster < start && FirstZero(t, start) == |t| && FirstZero(t, 2) == FirstZero(t, cluster)
       else start <= cluster && FirstZero(t, start) == FirstZero(t, cluster)
  }

  lemma SearchStep(t: seq<nat>, hint: nat, start: nat, cluster: nat, wrapped: bool)
    requires Searching(t, hint, start, cluster, wrapped)
    ensures t[cluster] == 0 ==> FirstFree(t, hint) == Some(cluster)
    ensures t[cluster] != 0 && cluster + 1 < |t| ==>
              if cluster + 1 == start then FirstFree(t, hint).None?
              else Searching(t, hint, start, cluster + 1, wrapped)
    ensures t[cluster] != 0 && cluster + 1 == |t| ==>
              !wrapped && if 2 == start then FirstFree(t, hint).None? else Searching(t, hint, start, 2, true)
  {
  }

  /**
    A FAT may have entries behind those of the volume's clusters. Only if none of them is zero does
    the search give a cluster of the volume from every hint.
   */
  lemma FreeClusterInside(t: seq<nat>, end: nat)
    requires 2 <= end <= |t|
    ensures (forall hint: nat :: FirstFree(t, hint).Some? ==> FirstFree(t, hint).value < end) <==>
              forall c :: end <= c < |t| ==> t[c] != 0
  {
    forall c: nat | end <= c < |t| && t[c] == 0 ensures FirstFree(t, c) == Some(c) {}
  }

  /** The search after it has given `c`. */
  function NextHint(t: seq<nat>, c: nat): (hint: nat) { if c + 1 < |t| then c + 1 else 2 }

  // ---- What there is to take ------------------------------------------------------------------------

  function ZerosFrom(t: seq<nat>, c: nat): (n: nat)
    decreases |t| - c
  {
    if c >= |t| then 0 else (if t[c] == 0 then 1 else 0) + ZerosFrom(t, c + 1)
  }

  /** The free clusters. */
  function Spare(t: seq<nat>): (n: nat) { ZerosFrom(t, 2) }

  lemma {:induction false} NoZeros(t: seq<nat>, c: nat)
    ensures ZerosFrom(t, c) == 0 <==> forall e :: c <= e < |t| ==> t[e] != 0
    decreases |t| - c
  {
    if c < |t| { NoZeros(t, c + 1); }
  }

  lemma {:induction false} SetZero(t: seq<nat>, e: nat, v: nat, c: nat)
    requires e < |t|
    ensures ZerosFrom(t[e := v], c)
         == ZerosFrom(t, c) - (if c <= e && t[e] == 0 then 1 else 0) + (if c <= e && v == 0 then 1 else 0)
    decreases |t| - c
  {
    if c < |t| { SetZero(t, e, v, c + 1); }
  }

  /** A cluster is free in one table exactly if it is in the other. */
  ghost predicate SameFree(t: seq<nat>, u: seq<nat>) {
    |t| == |u| && forall c :: 0 <= c < |t| ==> (t[c] == 0 <==> u[c] == 0)
  }

  lemma {:induction false} SameFirstZero(t: seq<nat>, u: seq<nat>, c: nat)
    requires SameFree(t, u) && c <= |t|
    ensures FirstZero(t, c) == FirstZero(u, c)
    decreases |t| - c
  {
    if c < |t| && t[c] != 0 { SameFirstZero(t, u, c + 1); }
  }

  lemma SameFirstFree(t: seq<nat>, u: seq<nat>, hint: nat)
    requires SameFree(t, u)
    ensures FirstFree(t, hint) == FirstFree(u, hint)
  {
    if |t| > 2 {
      SameFirstZero(t, u, SearchStart(t, hint));
      SameFirstZero(t, u, 2);
    }
  }

  /** The clusters the search gives when it is asked `n` times. */
  function Takes(t: seq<nat>, hint: nat, n: nat): (cs: seq<nat>)
    decreases n
  {
    if n == 0 || FirstFree(t, hint).None? then []
    else
      var c := FirstFree(t, hint).value;
      [c] + Takes(t[c := FAT32_EOC], NextHint(t, c), n - 1)
  }

  /** What is free is all that matters. */
  lemma {:induction false} SameTakes(t: seq<nat>, u: seq<nat>, hint: nat, n: nat)
    requires SameFree(t, u)
    ensures Takes(t, hint, n) == Takes(u, hint, n)
    decreases n
  {
    SameFirstFree(t, u, hint);
    if n > 0 && FirstFree(t, hint).Some? {
      var c := FirstFree(t, hint).value;
      StillSame(t, u, c);
      SameTakes(t[c := FAT32_EOC], u[c := FAT32_EOC], NextHint(t, c), n - 1);
    }
  }

  lemma StillSame(t: seq<nat>, u: seq<nat>, c: nat)
    requires SameFree(t, u) && c < |t|
    ensures SameFree(t[c := FAT32_EOC], u[c := FAT32_EOC]) && NextHint(t, c) == NextHint(u, c)
  {
  }

  /** Of the clusters that are free, as many as are asked for. */
  lemma {:induction false} TakesCount(t: seq<nat>, hint: nat, n: nat)
    ensures |Takes(t, hint, n)| == Min(n, Spare(t))
    decreases n
  {
    NoZeros(t, 2);
    if n > 0 && FirstFree(t, hint).Some? {
      var c := FirstFree(t, hint).value;
      SetZero(t, c, FAT32_EOC, 2);
      TakesCount(t[c := FAT32_EOC], NextHint(t, c), n - 1);
    }
  }

  // ---- The volume ---------------------------------------------------------------------------------

  /** The data clusters lie behind the FATs. */
  ghost predicate DataFits(s: seq<Sector>, a: FatArea, g: Geometry) {
    Fits(s, a) && CopyStart(a, Copies(a)) <= g.dataStart && g.sectorsPerCluster > 0
  }

  ghost predicate DataSame(s: seq<Sector>, s': seq<Sector>, a: FatArea) {
    |s'| == |s| && forall lba :: 0 <= lba < |s| && !(a.start <= lba < CopyStart(a, Copies(a))) ==> s'[lba] == s[lba]
  }

  class Fat32 {
    const disk: FatDisk
    const g: Geometry
    var hint: nat

    constructor (disk: FatDisk, g: Geometry, hint: nat)
      ensures this.disk == disk && this.g == g && this.hint == hint
    {
      this.disk, this.g, this.hint := disk, g, hint;
    }

    ghost predicate Valid()
      reads this, disk
    {
      && DataFits(disk.sectors, disk.area, g) && 128 * disk.area.sectorsPerFat <= CHAIN_END
      && LinksInside(Links(disk.sectors, disk.area))
    }

    ghost function T(): (t: seq<nat>)
      requires Fits(disk.sectors, disk.area)
      reads this, disk
    {
      Links(disk.sectors, disk.area)
    }

    /** A link is written. */
    method Link(c: nat, value: nat)
      requires Valid() && 2 <= c < |T()| && value < LOW28 && (value >= CHAIN_END || value < |T()|)
      modifies disk
      ensures Valid() && T() == old(T())[c := value] && DataSame(old(disk.sectors), disk.sectors, disk.area)
    {
      ghost var s := disk.sectors;
      disk.WriteEntry(c, value);
      LinksAfter(s, disk.sectors, disk.area, c, value);
    }

    /** `find_free_cluster`. */
    method FindFreeCluster() returns (r: Option<nat>)
      requires Valid()
      modifies this
      ensures Valid() && r == FirstFree(T(), old(hint))
      ensures hint == if r.None? then old(hint) else NextHint(T(), r.value)
    {
      var total := 128 * disk.area.sectorsPerFat;
      if total <= 2 { return None; }
      var start: nat := hint;
      if start < 2 || start >= total { start := 2; }
      var cluster: nat := start;
      ghost var t, wrapped := T(), false;
      while true
        invariant Valid() && hint == old(hint) && t == T() && Searching(t, hint, start, cluster, wrapped)
        decreases !wrapped, total - cluster
      {
        LinkAt(disk.sectors, disk.area, cluster);
        SearchStep(t, hint, start, cluster, wrapped);
        var entry := disk.ReadEntry(cluster);
        if entry == 0 {
          var nextHint := cluster + 1;
          if nextHint >= total { nextHint := 2; }
          hint := nextHint;
          return Some(cluster);
        }
        cluster := cluster + 1;
        if cluster >= total {
          cluster := 2;
          wrapped := true;
        }
        if cluster == start { break; }
      }
      return None;
    }

    /** One more cluster behind the chain. */
    method AppendCluster(chain: seq<nat>, ghost t0: seq<nat>, ghost chain0: seq<nat>) returns (r: Option<seq<nat>>)
      requires Valid() && |chain| > 0 && Longer(t0, T(), chain0, chain)
      modifies this, disk
      ensures Valid() && DataSame(old(disk.sectors), disk.sectors, disk.area)
      ensures Appended(old(T()), old(hint), chain, T(), hint, r)
      ensures Longer(t0, T(), chain0, if r.Some? then r.value else chain)
    {
      var found := FindFreeCluster();
      if found.None? { return None; }
      var prev, next := chain[|chain| - 1], found.value;
      LongerStep(t0, T(), chain0, chain, next);
      Link(prev, next);
      Link(next, FAT32_EOC);
      return Some(chain + [next]);
    }

    /**
      The chain is made `required` clusters long. `ask(k)` is whether the callback lets the loop go
      on after its round number `k`. Whatever stops the loop, the clusters added so far stay linked.
     */
    method ExtendChain(chain: seq<nat>, required: nat, ask: nat -> bool)
      returns (r: Result<seq<nat>>, ghost longer: seq<nat>)
      requires Valid() && |chain| > 0 && Linked(T(), chain)
      modifies this, disk
      ensures Valid() && DataSame(old(disk.sectors), disk.sectors, disk.area) && Longer(old(T()), T(), chain, longer)
      ensures ErrorOf(r) == ExtendError(Spare(old(T())), Missing(chain, required), ask)
      ensures r.Ok? ==> r.value == longer == chain + Takes(old(T()), old(hint), Missing(chain, required))
    {
      ghost var t0, h0, s0 := T(), hint, disk.sectors;
      LongerItself(t0, chain);
      var more := chain;
      var failed: Option<FatError> := None;
      ExtendStarts(t0, h0, chain, required, ask);
      while |more| < required && failed.None?
        invariant Valid() && DataSame(s0, disk.sectors, disk.area) && |more| > 0 && Longer(t0, T(), chain, more)
        invariant Extending(t0, h0, chain, required, ask, T(), hint, more, failed)
        decreases required - |more|, failed.None?
      {
        more, failed := ExtendOne(more, required, ask, t0, h0, chain, s0);
      }
      longer := more;
      ExtendEnds(t0, h0, chain, required, ask, T(), hint, more, failed);
      r := if failed.Some? then Err(failed.value) else Ok(more);
    }

    /** One round of the loop. */
    method ExtendOne(more: seq<nat>, required: nat, ask: nat -> bool, ghost t0: seq<nat>, ghost h0: nat,
                     chain: seq<nat>, ghost s0: seq<Sector>)
      returns (more': seq<nat>, failed: Option<FatError>)
      requires Valid() && DataSame(s0, disk.sectors, disk.area) && |more| > 0 && |chain| <= |more| < required
               && Longer(t0, T(), chain, more)
      requires Extending(t0, h0, chain, required, ask, T(), hint, more, None)
      modifies this, disk
      ensures Valid() && DataSame(s0, disk.sectors, disk.area) && |more| <= |more'| && Longer(t0, T(), chain, more')
      ensures Extending(t0, h0, chain, required, ask, T(), hint, more', failed)
              && (|more'| == |more| ==> failed.Some?)
    {
      ghost var mid, t, h := disk.sectors, T(), hint;
      ChainInUse(t, more, |more| - 1);
      var one := AppendCluster(more, t0, chain);
      DataSameTwice(s0, mid, disk.sectors, disk.area);
      AfterRound(t0, h0, chain, required, ask, t, h, more, T(), hint, one);
      more' := if one.Some? then one.value else more;
      failed := StopsRound(chain, ask, one);
    }

    /**
      The chain is cut to its first `keep` clusters and the rest is freed, or as much of it as the
      engine frees at a time.
     */
    method TrimChain(keepLast: nat, tailStart: nat, ghost chain: seq<nat>, ghost keep: nat) returns (ok: bool)
      requires Valid() && 0 < keep < |chain| && StrictChain(T(), chain) && keepLast == chain[keep - 1]
               && tailStart == chain[keep]
      modifies this, disk
      ensures Valid() && DataSame(old(disk.sectors), disk.sectors, disk.area) && LinksKept(old(T()), T(), chain)
      ensures ok <==> |chain| - keep <= FREE_LIMIT + 1
      ensures ok ==> Shorter(old(T()), T(), chain, keep)
    {
      ghost var t, s := T(), disk.sectors;
      TailIsChain(t, chain, keep);
      Link(keepLast, FAT32_EOC);
      ghost var mid := disk.sectors;
      ok := FreeWhole(tailStart, chain[keep..]);
      DataSameTwice(s, mid, disk.sectors, disk.area);
      TrimIsDone(t, chain, keep, T());
      if ok { hint := tailStart; }
    }

    /** A whole chain is freed, or as much of it as the engine frees at a time. */
    method FreeWhole(start: nat, ghost chain: seq<nat>) returns (ok: bool)
      requires Valid() && StrictChain(T(), chain) && 0 < |chain| && start == chain[0]
      modifies disk
      ensures Valid() && DataSame(old(disk.sectors), disk.sectors, disk.area) && (ok <==> |chain| <= FREE_LIMIT + 1)
      ensures FreedPart(old(T()), chain, T())
    {
      ghost var s, cs := disk.sectors, [];
      ok, cs := FreeClusterChain(disk, start);
      ChainIsFreed(s, disk.sectors, disk.area, chain, cs, ok);
    }
  }

  function ErrorOf<T>(r: Result<T>): (e: Option<FatError>) { if r.Err? then Some(r.error) else None }

  /** A cluster has been found and linked behind the chain, or there was none. */
  ghost predicate Appended(t: seq<nat>, hint: nat, chain: seq<nat>, t': seq<nat>, hint': nat, r: Option<seq<nat>>) {
    match FirstFree(t, hint)
    case None => r.None? && t' == t && hint' == hint
    case Some(c) => r == Some(chain + [c]) && t' == LinkedBehind(t, chain, c) && hint' == NextHint(t, c)
  }

  /** The table with `c` linked behind the chain. */
  function LinkedBehind(t: seq<nat>, chain: seq<nat>, c: nat): (r: seq<nat>) {
    if chain != [] && chain[|chain| - 1] < |t| && c < |t| then t[chain[|chain| - 1] := c][c := FAT32_EOC] else t
  }

  /** The clusters the chain is short of. */
  function Missing(chain: seq<nat>, required: nat): (n: nat) { if |chain| < required then required - |chain| else 0 }

  /**
    What stops the loop that adds `need` clusters when `spare` are free: a round that is refused, or
    the end of what is free.
   */
  ghost function ExtendError(spare: nat, need: nat, ask: nat -> bool): (e: Option<FatError>) {
    if !LetOn(ask, Min(need, spare)) then Some(Refused) else if spare < need then Some(NoFreeClusters) else None
  }

  /** The loop has made `chain` as long as `more`, or has been stopped. */
  ghost predicate Extending(t0: seq<nat>, h0: nat, chain: seq<nat>, required: nat, ask: nat -> bool, t: seq<nat>,
                            h: nat, more: seq<nat>, failed: Option<FatError>) {
    if failed.Some? then failed == ExtendError(Spare(t0), Missing(chain, required), ask)
    else
      && |chain| <= |more| && (|more| > |chain| ==> |more| <= required) && LetOn(ask, |more| - |chain|)
      && Spare(t) + |more| == Spare(t0) + |chain|
      && more + Takes(t, h, Missing(more, required)) == chain + Takes(t0, h0, Missing(chain, required))
  }

  lemma ExtendStarts(t0: seq<nat>, h0: nat, chain: seq<nat>, required: nat, ask: nat -> bool)
    ensures Extending(t0, h0, chain, required, ask, t0, h0, chain, None)
  {
  }

  /** Linking a free cluster behind the chain takes just that one. */
  lemma OneTaken(t: seq<nat>, h: nat, chain: seq<nat>, c: nat, n: nat)
    requires FirstFree(t, h) == Some(c) && chain != [] && chain[|chain| - 1] < |t| && t[chain[|chain| - 1]] != 0
    ensures Spare(LinkedBehind(t, chain, c)) + 1 == Spare(t)
    ensures Takes(t, h, n + 1) == [c] + Takes(LinkedBehind(t, chain, c), NextHint(t, c), n)
  {
    var last := chain[|chain| - 1];
    SetZero(t, last, c, 2);
    SetZero(t[last := c], c, FAT32_EOC, 2);
    SameTakes(t[c := FAT32_EOC], LinkedBehind(t, chain, c), NextHint(t, c), n);
  }

  lemma ExtendStep(t0: seq<nat>, h0: nat, chain: seq<nat>, required: nat, ask: nat -> bool, t: seq<nat>, h: nat,
                   more: seq<nat>, c: nat)
    requires Extending(t0, h0, chain, required, ask, t, h, more, None) && |chain| <= |more| < required
    requires FirstFree(t, h) == Some(c) && more != [] && more[|more| - 1] < |t| && t[more[|more| - 1]] != 0
    ensures Extending(t0, h0, chain, required, ask, LinkedBehind(t, more, c), NextHint(t, c), more + [c],
            if ask(|more| + 1 - |chain|) then None else Some(Refused))
  {
    if ask(|more| + 1 - |chain|) {
      ExtendGoesOn(t0, h0, chain, required, ask, t, h, more, c);
    } else {
      OneTaken(t, h, more, c, 0);
      NotLet(ask, |more| + 1 - |chain|, Min(Missing(chain, required), Spare(t0)));
    }
  }

  lemma ExtendGoesOn(t0: seq<nat>, h0: nat, chain: seq<nat>, required: nat, ask: nat -> bool, t: seq<nat>, h: nat,
                     more: seq<nat>, c: nat)
    requires Extending(t0, h0, chain, required, ask, t, h, more, None) && |chain| <= |more| < required
    requires FirstFree(t, h) == Some(c) && more != [] && more[|more| - 1] < |t| && t[more[|more| - 1]] != 0
    requires ask(|more| + 1 - |chain|)
    ensures Extending(t0, h0, chain, required, ask, LinkedBehind(t, more, c), NextHint(t, c), more + [c], None)
  {
    var left := required - |more| - 1;
    var rest := Takes(LinkedBehind(t, more, c), NextHint(t, c), left);
    OneTaken(t, h, more, c, left);
    LetOnce(ask, |more| - |chain|);
    assert more + [c] + rest == more + ([c] + rest);
  }

  lemma LetOnce(ask: nat -> bool, n: nat)
    requires LetOn(ask, n) && ask(n + 1)
    ensures LetOn(ask, n + 1)
  {
  }

  lemma NotLet(ask: nat -> bool, k: nat, n: nat)
    requires 1 <= k <= n && !ask(k)
    ensures !LetOn(ask, n)
  {
  }

  lemma NoneLeft(t0: seq<nat>, h0: nat, chain: seq<nat>, required: nat, ask: nat -> bool, t: seq<nat>, h: nat,
                 more: seq<nat>)
    requires Extending(t0, h0, chain, required, ask, t, h, more, None) && |more| < required && FirstFree(t, h).None?
    ensures Extending(t0, h0, chain, required, ask, t, h, more, Some(NoFreeClusters))
  {
    NoZeros(t, 2);
  }

  /** What a round of the loop comes to: no cluster, or whether the callback lets the loop go on. */
  function StopsRound(chain: seq<nat>, ask: nat -> bool, one: Option<seq<nat>>): (e: Option<FatError>)
    requires one.Some? ==> |chain| <= |one.value|
  {
    if one.None? then Some(NoFreeClusters) else if ask(|one.value| - |chain|) then None else Some(Refused)
  }

  lemma AfterRound(t0: seq<nat>, h0: nat, chain: seq<nat>, required: nat, ask: nat -> bool, t: seq<nat>, h: nat,
                   more: seq<nat>, t': seq<nat>, h': nat, one: Option<seq<nat>>)
    requires Extending(t0, h0, chain, required, ask, t, h, more, None) && |chain| <= |more| < required
    requires more != [] && more[|more| - 1] < |t| && t[more[|more| - 1]] != 0 && Appended(t, h, more, t', h', one)
    ensures one.Some? ==> |one.value| == |more| + 1
    ensures Extending(t0, h0, chain, required, ask, t', h', if one.Some? then one.value else more,
            StopsRound(chain, ask, one))
  {
    if one.None? {
      NoneLeft(t0, h0, chain, required, ask, t, h, more);
    } else {
      ExtendStep(t0, h0, chain, required, ask, t, h, more, FirstFree(t, h).value);
    }
  }

  lemma ExtendEnds(t0: seq<nat>, h0: nat, chain: seq<nat>, required: nat, ask: nat -> bool, t: seq<nat>, h: nat,
                   more: seq<nat>, failed: Option<FatError>)
    requires Extending(t0, h0, chain, required, ask, t, h, more, failed) && (failed.None? ==> required <= |more|)
    ensures failed == ExtendError(Spare(t0), Missing(chain, required), ask)
    ensures failed.None? ==> more == chain + Takes(t0, h0, Missing(chain, required))
  {
  }

  /** The callback let the first `n` rounds go on. */
  ghost predicate LetOn(ask: nat -> bool, n: nat) { forall k :: 1 <= k <= n ==> ask(k) }

  lemma DataSameTwice(s: seq<Sector>, mid: seq<Sector>, s': seq<Sector>, a: FatArea)
    requires DataSame(s, mid, a) && DataSame(mid, s', a)
    ensures DataSame(s, s', a)
  {
  }

  /** As much of the chain has been freed as the engine frees at a time. */
  ghost predicate FreedPart(t: seq<nat>, chain: seq<nat>, t': seq<nat>) {
    var n := Min(|chain|, FREE_LIMIT + 1);
    (forall i :: 0 <= i < n ==> chain[..n][i] < |t|) && t' == ZeroAll(t, chain[..n]) && Used(t') == Used(t) - n
  }

  /** The chain has been cut, and as much of the tail freed as the engine frees at a time. */
  lemma TrimIsDone(t: seq<nat>, chain: seq<nat>, keep: nat, t': seq<nat>)
    requires StrictChain(t, chain) && 0 < keep < |chain|
    requires FreedPart(t[chain[keep - 1] := FAT32_EOC], chain[keep..], t')
    ensures LinksKept(t, t', chain)
    ensures |chain| - keep <= FREE_LIMIT + 1 ==> Shorter(t, t', chain, keep)
  {
    var n := Min(|chain| - keep, FREE_LIMIT + 1);
    forall c | 0 <= c < |t| && c !in chain ensures t'[c] == t[c] {
      assert c !in chain[keep..][..n] && c != chain[keep - 1];
    }
    if n == |chain| - keep {
      assert chain[keep..][..n] == chain[keep..];
      CutChain(t, chain, keep, t');
    }
  }

  /** `chain` is `chain0` with free clusters linked behind it. */
  ghost predicate Longer(t0: seq<nat>, t: seq<nat>, chain0: seq<nat>, chain: seq<nat>) {
    && chain0 <= chain && Linked(t, chain) && LinksKept(t0, t, chain) && Used(t) == Used(t0) + |chain| - |chain0|
    && forall i :: |chain0| <= i < |chain| ==> 0 <= chain[i] < |t0| && t0[chain[i]] == 0
  }

  lemma LongerItself(t: seq<nat>, chain: seq<nat>)
    requires Linked(t, chain)
    ensures Longer(t, t, chain, chain)
  {
  }

  lemma LongerStep(t0: seq<nat>, t: seq<nat>, chain0: seq<nat>, chain: seq<nat>, c: nat)
    requires Longer(t0, t, chain0, chain) && |chain| > 0 && 2 <= c < |t| && c < CHAIN_END && t[c] == 0
    ensures Longer(t0, t[chain[|chain| - 1] := c][c := FAT32_EOC], chain0, chain + [c])
    ensures StrictChain(t[chain[|chain| - 1] := c][c := FAT32_EOC], chain + [c])
  {
    var last := chain[|chain| - 1];
    forall i | 0 <= i < |chain| ensures chain[i] != c { ChainInUse(t, chain, i); }
    SetCount(t, last, c, |t|);
    SetCount(t[last := c], c, FAT32_EOC, |t|);
  }

  /** The first `keep` clusters are still a chain, the others are free. */
  ghost predicate Shorter(t: seq<nat>, t': seq<nat>, chain: seq<nat>, keep: nat) {
    && keep <= |chain| && StrictChain(t', chain[..keep]) && LinksKept(t, t', chain)
      && Used(t') == Used(t) - (|chain| - keep)
    && forall i :: keep <= i < |chain| ==> 0 <= chain[i] < |t'| && t'[chain[i]] == 0
  }

  lemma StrictIsChain(t: seq<nat>, chain: seq<nat>)
    requires StrictChain(t, chain)
    ensures IsChain(t, chain) && RestOfChain(t, t, chain, 0)
  {
  }

  lemma ChainIsFreed(s: seq<Sector>, s': seq<Sector>, a: FatArea, chain: seq<nat>, cs: seq<nat>, ok: bool)
    requires Fits(s, a) && StrictChain(Links(s, a), chain) && 0 < |chain| && LinksInside(Links(s, a))
    requires FreeEnd(s, s', a, Links(s, a), chain[0], cs, ok)
    ensures var n := Min(|chain|, FREE_LIMIT + 1);
            && ok == (|chain| <= FREE_LIMIT + 1) && Fits(s', a) && Links(s', a) == ZeroAll(Links(s, a), chain[..n])
              && LinksInside(Links(s', a))
            && Used(Links(s', a)) == Used(Links(s, a)) - n && DataSame(s, s', a)
  {
    var t, n := Links(s, a), Min(|chain|, FREE_LIMIT + 1);
    StrictIsChain(t, chain);
    FreesTheChain(t, t, chain, 0);
    assert chain[0..n] == chain[..n];
    LinksFreed(s, s', a, chain[..n]);
    FreedCount(t, chain, n);
  }

  lemma FreedCount(t: seq<nat>, chain: seq<nat>, n: nat)
    requires Linked(t, chain) && n <= |chain| && LinksInside(t)
    ensures Used(ZeroAll(t, chain[..n])) == Used(t) - n && LinksInside(ZeroAll(t, chain[..n]))
  {
    forall i | 0 <= i < n ensures t[chain[..n][i]] != 0 { ChainInUse(t, chain, i); }
    ZeroAllCount(t, chain[..n]);
  }

  /** Ending the chain early leaves a tail that is a chain of its own. */
  lemma TailIsChain(t: seq<nat>, chain: seq<nat>, keep: nat)
    requires StrictChain(t, chain) && 0 < keep < |chain|
    ensures 2 <= chain[keep - 1] < |t| && StrictChain(t[chain[keep - 1] := FAT32_EOC], chain[keep..])
  {
    var t1 := t[chain[keep - 1] := FAT32_EOC];
    var tail := chain[keep..];
    forall i | 0 <= i < |tail| - 1 ensures t1[tail[i]] == tail[i + 1] {
      assert tail[i] == chain[keep + i] && t[chain[keep + i]] == chain[keep + i + 1];
    }
  }

  lemma CutChain(t: seq<nat>, chain: seq<nat>, keep: nat, t': seq<nat>)
    requires StrictChain(t, chain) && 0 < keep < |chain|
             && (forall i :: 0 <= i < |chain[keep..]| ==> chain[keep..][i] < |t|)
    requires t' == ZeroAll(t[chain[keep - 1] := FAT32_EOC], chain[keep..])
    requires Used(t') == Used(t[chain[keep - 1] := FAT32_EOC]) - (|chain| - keep)
    ensures Shorter(t, t', chain, keep)
  {
    ChainInUse(t, chain, keep - 1);
    SetCount(t, chain[keep - 1], FAT32_EOC, |t|);
    CutFront(t, chain, keep, t');
  }

  lemma CutFront(t: seq<nat>, chain: seq<nat>, keep: nat, t': seq<nat>)
    requires StrictChain(t, chain) && 0 < keep < |chain| && |t'| == |t|
    requires forall c :: 0 <= c < |t| ==>
               t'[c] == if c in chain[keep..] then 0 else if c == chain[keep - 1] then FAT32_EOC else t[c]
    ensures StrictChain(t', chain[..keep]) && LinksKept(t, t', chain)
            && forall i :: keep <= i < |chain| ==> t'[chain[i]] == 0
  {
    forall i | keep <= i < |chain| ensures chain[i] in chain[keep..] { assert chain[keep..][i - keep] == chain[i]; }
    forall i | 0 <= i < keep ensures chain[i] !in chain[keep..] {}
  }
}
