/**
  The cluster allocator: the search for a free cluster with a moving hint, building a linked
  chain with rollback when the volume is full, giving clusters back, and walking chains.
 */
module ExFatAllocator {
  import opened Bytes
  import opened ExFatChains

  // ---- What the operations do to a volume --------------------------------------------------

  /**
    The clusters of `chain` were free; they are now marked and linked into a finished chain. Nothing
    else but the hint changed.
   */
  ghost predicate Allocated(v: Vol, v': Vol, chain: seq<nat>) {
    && v' == v.(fat := v'.fat, bitmap := v'.bitmap, hint := v'.hint)
    && |v.fat| == |v'.fat| == |v.bitmap| == |v'.bitmap| == v.clusterCount + 2
    && IsFatChain(v', chain)
    && (forall c :: c in chain ==> ValidCluster(v, c) && !v.bitmap[c] && v'.bitmap[c])
    && (forall c :: 0 <= c < |v.fat| && c !in chain ==> v'.bitmap[c] == v.bitmap[c] && v'.fat[c] == v.fat[c])
  }

  /** The clusters of `chain` are unmarked and unlinked. Nothing else but the hint changed. */
  ghost predicate Freed(v: Vol, v': Vol, chain: seq<nat>) {
    && v' == v.(fat := v'.fat, bitmap := v'.bitmap, hint := v'.hint)
    && |v.fat| == |v'.fat| == |v.bitmap| == |v'.bitmap| == v.clusterCount + 2
    && (forall c :: 0 <= c < |v.fat| ==> v'.bitmap[c] == (v.bitmap[c] && !(c in chain && ValidCluster(v, c))))
    && (forall c :: 0 <= c < |v.fat| ==> v'.fat[c] == if c in chain && ValidCluster(v, c) then 0 else v.fat[c])
  }

  /** The bitmap is exactly as before; FAT entries differ at most on free clusters. */
  ghost predicate RolledBack(v: Vol, v': Vol) {
    && v' == v.(fat := v'.fat, hint := v'.hint)
    && |v.fat| == |v'.fat| == |v.bitmap| == v.clusterCount + 2
    && (forall c :: 0 <= c < |v.fat| && v.bitmap[c] ==> v'.fat[c] == v.fat[c])
  }

  ghost function FreeClusters(v: Vol): (s: set<nat>)
    requires |v.bitmap| == v.clusterCount + 2
  {
    set c | 2 <= c <= v.clusterCount + 1 && !v.bitmap[c]
  }

  /** `c` is the first free cluster met when counting up from `start` and wrapping at the end. */
  ghost predicate FirstFreeFrom(v: Vol, start: nat, c: nat)
    requires |v.bitmap| == v.clusterCount + 2
  {
    && ValidCluster(v, c) && !v.bitmap[c]
    && (forall e :: start <= e <= v.clusterCount + 1 && (c < start || e < c) ==> v.bitmap[e])
    && (c < start ==> forall e :: 2 <= e < c ==> v.bitmap[e])
  }

  function ScanStart(v: Vol): (s: nat) {
    if v.hint < 2 || v.hint > v.clusterCount + 1 then 2 else v.hint
  }

  ghost function Elements(s: seq<nat>): (e: set<nat>) { set c | c in s }

  lemma {:induction false} DistinctSize(s: seq<nat>)
    requires Distinct(s)
    ensures |Elements(s)| == |s|
    decreases |s|
  {
    if s != [] {
      var last, init := s[|s| - 1], s[..|s| - 1];
      DistinctSize(init);
      assert last !in Elements(init);
      assert s == init + [last];
      assert Elements(s) == Elements(init) + {last};
    }
  }

  class Volume {
    const clusterCount: nat
    const entriesPerCluster: nat
    const root: nat
    var fat: seq<nat>
    var bitmap: seq<bool>
    var heap: seq<Cluster>
    var hint: nat
    var cache: seq<StreamInfo>

    constructor (v: Vol)
      requires Shape(v)
      ensures V() == v
    {
      clusterCount, entriesPerCluster, root := v.clusterCount, v.entriesPerCluster, v.root;
      fat, bitmap, heap, hint, cache := v.fat, v.bitmap, v.heap, v.hint, v.cache;
    }

    function V(): (v: Vol)
      reads this
    {
      Vol(clusterCount, entriesPerCluster, root, fat, bitmap, heap, hint, cache)
    }

    method FindFreeCluster() returns (r: Option<nat>)
      requires Shape(V())
      modifies this
      ensures V() == old(V()).(hint := hint)
      ensures r.Some? ==> FirstFreeFrom(old(V()), ScanStart(old(V())), r.value)
      ensures r.Some? ==> hint == if r.value + 1 > clusterCount + 1 then 2 else r.value + 1
      ensures r.None? ==> hint == old(hint) && FreeClusters(V()) == {}
    {
      if clusterCount == 0 { return None; }
      var maxCluster := clusterCount + 1;
      var start := hint;
      if start < 2 || start > maxCluster { start := 2; }
      var cluster := start;
      ghost var wrapped := false;
      while true
        invariant 2 <= cluster <= maxCluster
        invariant if wrapped then cluster < start else start <= cluster
        invariant forall e :: start <= e <= maxCluster && (wrapped || e < cluster) ==> bitmap[e]
        invariant wrapped ==> forall e :: 2 <= e < cluster ==> bitmap[e]
        invariant V() == old(V())
        decreases !wrapped, maxCluster - cluster
      {
        if !bitmap[cluster] {
          var next := cluster + 1;
          if next > maxCluster { next := 2; }
          hint := next;
          return Some(cluster);
        }
        cluster := cluster + 1;
        if cluster > maxCluster {
          cluster := 2;
          wrapped := true;
        }
        if cluster == start { break; }
      }
      return None;
    }

    method FreeClusterList(clusters: seq<nat>)
      requires Shape(V())
      modifies this
      ensures Freed(old(V()), V(), clusters)
    {
      for i := 0 to |clusters|
        invariant Shape(V()) && Freed(old(V()), V(), clusters[..i])
      {
        var cluster := clusters[i];
        if 2 <= cluster <= clusterCount + 1 {
          bitmap := bitmap[cluster := false];
          fat := fat[cluster := 0];
          hint := cluster;
        }
        assert clusters[..i + 1] == clusters[..i] + [cluster];
      }
      assert clusters[..|clusters|] == clusters;
    }

    /** Collected but not yet linked: each cluster of `chain` is marked and ends its own chain. */
    ghost predicate Collected(v: Vol, chain: seq<nat>)
      reads this
    {
      && Shape(V()) && V() == v.(fat := fat, bitmap := bitmap, hint := hint)
      && |v.fat| == |v.bitmap| == clusterCount + 2 && Distinct(chain)
      && (forall c :: c in chain ==> ValidCluster(v, c) && !v.bitmap[c] && bitmap[c] && fat[c] == CHAIN_END_MARK)
      && (forall c :: 0 <= c < |v.fat| && c !in chain ==> bitmap[c] == v.bitmap[c] && fat[c] == v.fat[c])
    }

    /** A chain of `count` free clusters, or no change to the bitmap if there are fewer than that. */
    method AllocateChain(count: nat) returns (r: Option<seq<nat>>)
      requires Shape(V())
      modifies this
      ensures r.Some? <==> count <= |FreeClusters(old(V()))|
      ensures r.Some? ==> |r.value| == count && Allocated(old(V()), V(), r.value)
      ensures r.None? ==> RolledBack(old(V()), V())
    {
      var chain: seq<nat> := [];
      if count == 0 { return Some(chain); }
      while |chain| < count
        invariant |chain| <= count && Collected(old(V()), chain)
        decreases count - |chain|
      {
        var found := FindFreeCluster();
        if found.None? {
          label Full:
          FullVolume(old(V()), V(), chain);
          FreeClusterList(chain);
          FreedRollsBack(old(V()), old@Full(V()), V(), chain);
          return None;
        }
        var cluster := found.value;
        bitmap := bitmap[cluster := true];
        fat := fat[cluster := CHAIN_END_MARK];
        chain := chain + [cluster];
      }
      EnoughFree(old(V()), chain);
      LinkChain(chain, old(V()));
      return Some(chain);
    }

    /** Every cluster but the last is linked to the one after it. */
    method LinkChain(chain: seq<nat>, ghost v: Vol)
      requires Collected(v, chain) && |chain| > 0
      modifies this
      ensures Allocated(v, V(), chain)
    {
      var idx := 0;
      while idx + 1 < |chain|
        invariant 0 <= idx < |chain|
        invariant V() == old(V()).(fat := fat) && |fat| == clusterCount + 2
        invariant forall i :: 0 <= i < |chain| ==> ValidCluster(v, chain[i])
        invariant forall i :: 0 <= i < idx ==> fat[chain[i]] == chain[i + 1]
        invariant forall i :: idx <= i < |chain| ==> fat[chain[i]] == CHAIN_END_MARK
        invariant forall c :: 0 <= c < |fat| && c !in chain ==> fat[c] == v.fat[c]
      {
        fat := fat[chain[idx] := chain[idx + 1]];
        idx := idx + 1;
      }
    }
  }

  lemma AllMarked(v: Vol)
    requires |v.bitmap| == v.clusterCount + 2 && FreeClusters(v) == {}
    ensures forall c: nat :: ValidCluster(v, c) ==> v.bitmap[c]
  {
    forall c: nat | ValidCluster(v, c) ensures v.bitmap[c] { assert !(c in FreeClusters(v)); }
  }

  lemma FullVolume(v: Vol, v': Vol, chain: seq<nat>)
    requires |v.bitmap| == v.clusterCount + 2 == |v'.bitmap| && v'.clusterCount == v.clusterCount && Distinct(chain)
    requires forall c :: c in chain ==> ValidCluster(v, c) && !v.bitmap[c]
    requires forall c :: 0 <= c < |v.bitmap| && c !in chain ==> v'.bitmap[c] == v.bitmap[c]
    requires FreeClusters(v') == {}
    ensures |FreeClusters(v)| == |chain|
  {
    AllMarked(v');
    assert forall c :: c in FreeClusters(v) ==> c in chain;
    assert FreeClusters(v) == Elements(chain);
    DistinctSize(chain);
  }

  lemma EnoughFree(v: Vol, chain: seq<nat>)
    requires |v.bitmap| == v.clusterCount + 2 && Distinct(chain)
    requires forall c :: c in chain ==> ValidCluster(v, c) && !v.bitmap[c]
    ensures |chain| <= |FreeClusters(v)|
  {
    DistinctSize(chain);
    assert Elements(chain) <= FreeClusters(v);
    SubsetSize(Elements(chain), FreeClusters(v));
  }

  lemma SubsetSize(a: set<nat>, b: set<nat>)
    requires a <= b
    ensures |a| <= |b|
  {
    assert b == a + (b - a);
  }

  lemma FreedRollsBack(v: Vol, mid: Vol, v': Vol, chain: seq<nat>)
    requires |v.fat| == |v.bitmap| == v.clusterCount + 2
             && mid == v.(fat := mid.fat, bitmap := mid.bitmap, hint := mid.hint)
    requires |mid.fat| == |mid.bitmap| == v.clusterCount + 2
    requires forall c :: c in chain ==> ValidCluster(v, c) && !v.bitmap[c]
    requires forall c :: 0 <= c < |v.fat| && c !in chain ==> mid.bitmap[c] == v.bitmap[c] && mid.fat[c] == v.fat[c]
    requires Freed(mid, v', chain)
    ensures RolledBack(v, v')
  {
    assert v'.bitmap == v.bitmap;
  }
}
