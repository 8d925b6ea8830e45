/**
  Growing a directory by one cluster: the cluster is linked behind the directory's chain, a
  directory stored without FAT links gets them, and the directory's entry set in its parent
  gets the new length.
 */
module ExFatGrowth {
  import opened Bytes
  import opened ExFatChains
  import opened ExFatAllocator
  import opened ExFatLayout
  import opened ExFatInvariant
  import opened ExFatReading
  import opened ExFatTree

  // ---- A failed allocation ------------------------------------------------------------------

  /** A rolled back allocation leaves the volume as good as it was. */
  lemma RolledBackMatches(v: Vol, v': Vol, l: Layout, loose: set<nat>, skip: set<nat>)
    requires Inv(v, l, loose, skip) && RolledBack(v, v')
    ensures Inv(v', l, loose, skip)
  {
    assert AllLinks(v', l) by {
      forall a | a in l.chains ensures LinksOk(v', l, a) {
        assert LinksOk(v, l, a) && ChainOwned(l, a);
        SameLinks(v, v', l, l, a);
      }
    }
    assert AllDirs(v', l, skip) by { SameDirs(v, v', l, l, skip); }
    assert CacheOk(v', l) by { SameCache(v, v', l); }
  }

  lemma SameCache(v: Vol, v': Vol, l: Layout)
    requires CacheOk(v, l) && v'.cache == v.cache
    ensures CacheOk(v', l)
  {
    forall i | 0 <= i < |v'.cache| ensures CacheEntryOk(l, v'.cache[i]) { assert CacheEntryOk(l, v.cache[i]); }
  }

  // ---- Linking the new cluster ----------------------------------------------------------------

  /** The new cluster is behind the chain; the chain's own clusters are linked if they were not. */
  method LinkBehind(disk: Volume, chain: seq<nat>, c: nat, noFatChain: bool)
    requires Shape(disk.V()) && |chain| > 0 && Distinct(chain) && c !in chain && ValidCluster(disk.V(), c)
    requires forall i :: 0 <= i < |chain| ==> ValidCluster(disk.V(), chain[i])
    requires !noFatChain ==> IsFatChain(disk.V(), chain)
    modifies disk
    ensures disk.V() == old(disk.V()).(fat := disk.fat) && |disk.fat| == |old(disk.fat)|
    ensures IsFatChain(disk.V(), chain + [c])
    ensures forall e :: 0 <= e < |disk.fat| && e !in chain && e != c ==> disk.fat[e] == old(disk.fat[e])
  {
    if noFatChain {
      var idx := 0;
      while idx + 1 < |chain|
        invariant 0 <= idx < |chain|
        invariant disk.V() == old(disk.V()).(fat := disk.fat) && |disk.fat| == |old(disk.fat)|
        invariant forall i :: 0 <= i < idx ==> disk.fat[chain[i]] == chain[i + 1]
        invariant forall e :: 0 <= e < |disk.fat| && e !in chain ==> disk.fat[e] == old(disk.fat[e])
      {
        disk.fat := disk.fat[chain[idx] := chain[idx + 1]];
        idx := idx + 1;
      }
    }
    var last := chain[|chain| - 1];
    disk.fat := disk.fat[last := c];
    disk.fat := disk.fat[c := CHAIN_END_MARK];
    Linked(disk.V(), chain, c);
  }

  lemma Linked(v: Vol, chain: seq<nat>, c: nat)
    requires Shape(v) && |chain| > 0 && Distinct(chain) && c !in chain && ValidCluster(v, c)
    requires forall i :: 0 <= i < |chain| ==> ValidCluster(v, chain[i]) && chain[i] < |v.fat|
    requires forall i :: 0 <= i < |chain| - 1 ==> v.fat[chain[i]] == chain[i + 1]
    requires v.fat[chain[|chain| - 1]] == c && v.fat[c] == CHAIN_END_MARK
    ensures IsFatChain(v, chain + [c])
  {
    forall i | 0 <= i < |chain| ensures chain[i] != c { assert chain[i] in chain; }
  }

  // ---- Data is not touched ----------------------------------------------------------------------

  /** The cluster has an owner that is no directory. */
  ghost predicate DataCluster(l: Layout, c: nat) { c in l.owner && l.owner[c] !in l.depth }

  /** Clusters that belong to no directory keep their contents. */
  ghost predicate DataKept(v: Vol, v': Vol, l: Layout) {
    |v'.heap| == |v.heap| && forall c: nat {:trigger DataCluster(l, c)} :: DataCluster(l, c) && c < |v.heap| ==>
          v'.heap[c] == v.heap[c]
  }

  lemma DirectoryWritten(v: Vol, v': Vol, l: Layout, d: nat)
    requires Owned(l) && d in l.chains && d in l.depth && HeapWritten(v, v', l.chains[d])
    ensures DataKept(v, v', l)
  {
    assert ChainOwned(l, d);
  }

  // ---- The state in which the parent is searched for --------------------------------------------

  lemma CachedElsewhere(v: Vol, w: Vol, l: Layout, e: StreamInfo, b: nat)
    requires CacheOk(v, l) && w.cache == Remember(v.cache, e) && e.firstCluster >= 2 && b != e.firstCluster
    requires Cached(w, b)
    ensures CacheEntryOk(l, StreamInfoOf(w, b, ClusterBytes(w)))
  {
    Remembered(v.cache, e);
    var x := StreamInfoOf(w, b, ClusterBytes(w));
    assert x in v.cache;
    var i :| 0 <= i < |v.cache| && v.cache[i] == x;
    assert CacheEntryOk(l, v.cache[i]);
  }

  lemma OthersStillKnown(v: Vol, w: Vol, l: Layout, loose: set<nat>, d: nat, c: nat, e: StreamInfo, b: nat)
    requires Inv(v, l, loose, {}) && d in l.chains && Extended(v, w, l.chains[d], c) && Shape(w)
    requires w == v.(fat := w.fat, bitmap := w.bitmap, hint := w.hint, cache := Remember(v.cache, e))
    requires e.firstCluster == d >= 2 && b in l.depth && b != d
    ensures Knows(w, l, b)
  {
    InvKnows(v, l, loose, {}, b);
    assert ChainOwned(l, d) && ChainOwned(l, b);
    SameLinks(v, w, l, l, b);
    if Cached(w, b) { CachedElsewhere(v, w, l, e, b); }
  }

  lemma SearchableAfter(v: Vol, w: Vol, l: Layout, loose: set<nat>, d: nat, c: nat, e: StreamInfo)
    requires Inv(v, l, loose, {}) && d in l.chains && Extended(v, w, l.chains[d], c) && Shape(w)
    requires w == v.(fat := w.fat, bitmap := w.bitmap, hint := w.hint, cache := Remember(v.cache, e))
    requires e.firstCluster == d >= 2
    ensures Searchable(w, l, loose, d)
  {
    forall b | b in l.depth && b != d ensures Knows(w, l, b) && b in l.live && DirOk(w, l, b) {
      OthersStillKnown(v, w, l, loose, d, c, e, b);
      assert DirOk(v, l, b);
    }
  }

  // ---- When the parent is found -------------------------------------------------------------------

  /** The volume with directory `d` remembered; of a full cache the oldest entry is gone. */
  function WithRemembered(v: Vol, d: nat): (r: Vol) { v.(cache := Remember(v.cache, StreamInfo(d, 0, 0, false, true))) }

  /** The search for the parent of `d`, made after `d` has been remembered, comes to its end. */
  ghost predicate SureToGrow(v: Vol, l: Layout, d: nat) {
    d == v.root || (RefsOk(l) && Findable(WithRemembered(v, d), l, v.root, d))
  }

  /** Whether a stream is remembered depends on which streams are, not on what is known of them. */
  lemma SameKeys(cache: seq<StreamInfo>, e: StreamInfo, e': StreamInfo, b: nat)
    requires e.firstCluster == e'.firstCluster
    ensures CacheIndex(Remember(cache, e), b) < |Remember(cache, e)| ==>
              CacheIndex(Remember(cache, e'), b) < |Remember(cache, e')|
  {
    var r, r' := Remember(cache, e), Remember(cache, e');
    var i := CacheIndex(r, b);
    if i < |r| { assert r'[i].firstCluster == b; }
  }

  ghost predicate SameReading(v: Vol, w: Vol) {
    v.root == w.root && v.entriesPerCluster == w.entriesPerCluster && forall b: nat :: Cached(v, b) <==> Cached(w, b)
  }

  /** The way to a directory is readable or not whatever else differs. */
  lemma {:induction false} PathReadSame(v: Vol, w: Vol, l: Layout, l': Layout, dir: nat, t: nat)
    requires RefsOk(l) && RefsOk(l') && SameReading(v, w) && l'.depth == l.depth && l'.ref == l.ref
    requires forall d :: d in l.depth ==> d in l.chains && d in l'.chains && l'.chains[d] == l.chains[d]
    ensures PathRead(v, l, dir, t) <==> PathRead(w, l', dir, t)
    decreases if t in l.depth then l.depth[t] else 0
  {
    if t in l.depth && t in l.ref {
      assert RefOk(l, t) && RefOk(l', t);
      if l.ref[t].dir != dir { PathReadSame(v, w, l, l', dir, l.ref[t].dir); }
    }
  }

  lemma FindableAfter(v: Vol, w: Vol, l: Layout, loose: set<nat>, d: nat, e: StreamInfo)
    requires Sound(l, loose) && w.cache == Remember(v.cache, e) && e.firstCluster == d
    requires w.root == v.root == l.root && d != v.root && w.entriesPerCluster == v.entriesPerCluster
    ensures Findable(w, l, l.root, d) <==> SureToGrow(v, l, d)
  {
    var u := WithRemembered(v, d);
    forall b: nat ensures Cached(u, b) <==> Cached(w, b) {
      SameKeys(v.cache, e, StreamInfo(d, 0, 0, false, true), b);
      SameKeys(v.cache, StreamInfo(d, 0, 0, false, true), e, b);
    }
    PathReadSame(u, w, l, l, l.root, d);
  }

  // ---- The grown directory ------------------------------------------------------------------------

  /** The state after linking and remembering, before the parent is updated. */
  ghost predicate Linking(v: Vol, w: Vol, l: Layout, d: nat, c: nat, e: StreamInfo) {
    && d in l.chains && d in l.depth && |l.chains[d]| < MAX_DIR_CLUSTERS && Extended(v, w, l.chains[d], c) && Shape(w)
    && w == v.(fat := w.fat, bitmap := w.bitmap, hint := w.hint, cache := Remember(v.cache, e))
    && e.firstCluster == d >= 2 && !e.noFatChain && e.dataLength == (|l.chains[d]| + 1) * l.clusterBytes
  }

  lemma RememberedGrown(v: Vol, w: Vol, l: Layout, d: nat, c: nat, e: StreamInfo)
    requires CacheOk(v, l) && d in l.chains && d >= 2 && w.cache == Remember(v.cache, e) && l.clusterBytes > 0
    requires e.firstCluster == d && !e.noFatChain && e.dataLength == (|l.chains[d]| + 1) * l.clusterBytes
    requires d in l.ref ==> l.ref[d].dir in l.live
    ensures CacheOk(w, Grown(l, d, c)) && CacheEntryOk(Grown(l, d, c), e)
  {
    GrownCount(l.clusterBytes, |l.chains[d]| + 1);
    RememberedOk(v, w, l, Grown(l, d, c), e);
  }

  /** Neither the directory's own clusters nor the new one have been written. */
  ghost predicate Unwritten(v: Vol, v': Vol, l: Layout, d: nat, c: nat) {
    |v'.heap| == |v.heap| && forall e: nat {:trigger v'.heap[e]} ::
          e < |v.heap| && (e == c || (e in l.owner && l.owner[e] == d)) ==> v'.heap[e] == v.heap[e]
  }

  lemma ParentWritten(v: Vol, w: Vol, v': Vol, l: Layout, loose: set<nat>, d: nat, c: nat, length: nat)
    requires Sound(l, loose) && d in l.depth && EntryRefreshed(w, v', l, d, length) && w.heap == v.heap && c !in l.owner
    ensures Unwritten(v, v', l, d, c)
  {
    ParentDiffers(l, loose, d);
    assert ChainOwned(l, l.ref[d].dir);
  }

  lemma RootGrown(v: Vol, w: Vol, l: Layout, loose: set<nat>, d: nat, c: nat, e: StreamInfo)
    requires Inv(v, l, loose, {}) && Linking(v, w, l, d, c, e) && d == l.root
    ensures Inv(w, Grown(l, d, c), loose, {d}) && DataKept(v, w, l) && c !in l.owner
  {
    RefsNotLoose(l, loose);
    RememberedGrown(v, w, l, d, c, e);
    GrownMatches(v, w, l, loose, d, c);
  }

  lemma SubdirectoryGrown(v: Vol, w: Vol, v': Vol, l: Layout, loose: set<nat>, d: nat, c: nat, e: StreamInfo)
    requires Inv(v, l, loose, {}) && Linking(v, w, l, d, c, e) && EntryRefreshed(w, v', l, d, e.dataLength)
    ensures l.ref[d].dir in l.live && Inv(v', Grown(l, d, c), loose, {d}) && DataKept(v, v', l) && c !in l.owner
  {
    ParentDiffers(l, loose, d);
    RememberedGrown(v, w, l, d, c, e);
    RememberedOk(w, v', Grown(l, d, c), Grown(l, d, c), StreamInfo(d, e.dataLength, e.dataLength, false, true));
    assert Shape(v') && Extended(v, v', l.chains[d], c) && ParentRefreshed(v, v', l, d);
    GrownMatches(v, v', l, loose, d, c);
    DirectoryWritten(w, v'.(cache := w.cache), l, l.ref[d].dir);
  }

  lemma AllocatedOne(v: Vol, v': Vol, c: nat)
    requires Shape(v) && Allocated(v, v', [c])
    ensures ValidCluster(v, c) && !v.bitmap[c] && v'.bitmap == v.bitmap[c := true] && Shape(v')
    ensures forall e :: 0 <= e < |v.fat| && e != c ==> v'.fat[e] == v.fat[e]
  {
    assert c in [c];
    assert forall e :: 0 <= e < |v.fat| && e != c ==> e !in [c];
  }

  /** One cluster from the allocator. */
  method TakeOne(disk: Volume) returns (r: Option<nat>)
    requires Shape(disk.V())
    modifies disk
    ensures r.None? <==> FreeClusters(old(disk.V())) == {}
    ensures r.None? ==> RolledBack(old(disk.V()), disk.V())
    ensures r.Some? ==>
              disk.V() == old(disk.V()).(fat := disk.fat, bitmap := disk.bitmap, hint := disk.hint) && Shape(disk.V())
    ensures r.Some? ==>
              ValidCluster(disk.V(), r.value) && !old(disk.bitmap[r.value])
              && disk.bitmap == old(disk.bitmap)[r.value := true]
    ensures r.Some? ==> forall e :: 0 <= e < |disk.fat| && e != r.value ==> disk.fat[e] == old(disk.fat[e])
  {
    var taken := disk.AllocateChain(1);
    if taken.None? { return None; }
    var cluster := taken.value[0];
    assert taken.value == [cluster];
    AllocatedOne(old(disk.V()), disk.V(), cluster);
    return Some(cluster);
  }

  /** A free cluster is linked behind a chain. */
  method TakeBehind(disk: Volume, chain: seq<nat>, noFatChain: bool) returns (r: Option<nat>)
    requires Shape(disk.V()) && |chain| > 0 && Distinct(chain) && InHeap(disk.V(), chain)
    requires forall e :: e in chain ==> ValidCluster(disk.V(), e) && disk.bitmap[e]
    requires !noFatChain ==> IsFatChain(disk.V(), chain)
    modifies disk
    ensures r.None? <==> FreeClusters(old(disk.V())) == {}
    ensures r.None? ==> RolledBack(old(disk.V()), disk.V())
    ensures r.Some? ==>
              && Extended(old(disk.V()), disk.V(), chain, r.value) && Shape(disk.V())
              && disk.V() == old(disk.V()).(fat := disk.fat, bitmap := disk.bitmap, hint := disk.hint)
  {
    ghost var v := disk.V();
    r := TakeOne(disk);
    if r.None? { return; }
    FatChainKept(v, disk.V(), chain, noFatChain, r.value);
    LinkBehind(disk, chain, r.value, noFatChain);
  }

  /** A free cluster is linked behind the directory's chain and the new length is remembered. */
  method TakeAndLink(disk: Volume, d: nat, buffer: DirBuffer, ghost l: Layout, ghost loose: set<nat>)
    returns (r: Option<DirBuffer>, ghost c: nat)
    requires Inv(disk.V(), l, loose, {}) && d in l.depth && |l.chains[d]| < MAX_DIR_CLUSTERS
    requires buffer.chain == l.chains[d] && buffer.info.firstCluster == d
    requires !buffer.info.noFatChain ==> IsFatChain(disk.V(), buffer.chain)
    modifies disk
    ensures r.None? <==> FreeClusters(old(disk.V())) == {}
    ensures r.None? ==> RolledBack(old(disk.V()), disk.V())
    ensures r.Some? ==> Linking(old(disk.V()), disk.V(), l, d, c, r.value.info) && r.value.info.dataLength < U64
    ensures r.Some? ==>
              r.value.chain == l.chains[d] + [c]
              && r.value.entries == buffer.entries + ZeroEntries(disk.entriesPerCluster)
  {
    c := 0;
    assert ChainOwned(l, d);
    ChainInHeap(disk.V(), l, loose, {}, d);
    var taken := TakeBehind(disk, buffer.chain, buffer.info.noFatChain);
    if taken.None? { return None, c; }
    var cluster := taken.value;
    c := cluster;
    var chain := buffer.chain + [cluster];
    var length := |chain| * (32 * disk.entriesPerCluster);
    BoundedLength(|chain|, 32 * disk.entriesPerCluster);
    var info := buffer.info.(noFatChain := false, dataLength := length, validLength := length);
    disk.cache := Remember(disk.cache, info);
    r := Some(DirBuffer(info, chain, buffer.entries + ZeroEntries(disk.entriesPerCluster)));
  }

  lemma BoundedLength(k: nat, bytesPerCluster: nat)
    requires k <= MAX_DIR_CLUSTERS && bytesPerCluster <= 0x2000000
    ensures 0 <= k * bytesPerCluster < U64
  {
    assert k * bytesPerCluster <= 1024 * bytesPerCluster;
  }

  lemma FatChainKept(v: Vol, u: Vol, chain: seq<nat>, noFatChain: bool, c: nat)
    requires Shape(v) && Shape(u) && u.clusterCount == v.clusterCount && (!noFatChain ==> IsFatChain(v, chain))
             && c !in chain
    requires forall i :: 0 <= i < |chain| ==> ValidCluster(v, chain[i])
    requires forall e :: 0 <= e < |v.fat| && e != c ==> u.fat[e] == v.fat[e]
    ensures !noFatChain ==> IsFatChain(u, chain)
  {
    if !noFatChain { LinksKept(v, u, chain); }
  }

  /** Errors after which the directory may have a linked cluster that was never written. */
  predicate Damaging(e: Error) { e == MetadataNotFound || e == DirectoryFull }

  /** The directory has its new cluster, but the cluster holds what it held when it was free. */
  ghost predicate GrownUnwritten(v: Vol, v': Vol, l: Layout, loose: set<nat>, d: nat, c: nat) {
    d in l.chains && c !in l.owner && Inv(v', Grown(l, d, c), loose, {d}) && DataKept(v, v', l)
        && Unwritten(v, v', l, d, c)
  }

  /** What a growth that was not finished leaves behind: a cluster that is linked but was never written. */
  ghost predicate HalfGrown(v: Vol, v': Vol, l: Layout, loose: set<nat>, d: nat, e: Error) {
    match e
    case MetadataNotFound => exists c, info :: Linking(v, v', l, d, c, info)
    case DirectoryFull => exists c :: GrownUnwritten(v, v', l, loose, d, c)
    case _ => Inv(v', l, loose, {}) && v'.heap == v.heap
  }

  /** `exfat_extend_directory`. */
  method ExtendDirectory(disk: Volume, d: nat, buffer: DirBuffer, ghost l: Layout, ghost loose: set<nat>)
    returns (r: Result<DirBuffer>, ghost c: nat)
    requires Inv(disk.V(), l, loose, {}) && d in l.depth && |l.chains[d]| < MAX_DIR_CLUSTERS
    requires buffer.chain == l.chains[d] && buffer.info.firstCluster == d
    requires !buffer.info.noFatChain ==> IsFatChain(disk.V(), buffer.chain)
    modifies disk
    ensures r.Ok? ==> GrownUnwritten(old(disk.V()), disk.V(), l, loose, d, c)
    ensures r.Ok? ==>
              r.value.chain == l.chains[d] + [c]
              && r.value.entries == buffer.entries + ZeroEntries(disk.entriesPerCluster)
    ensures r.Err? ==> r.error in {NoFreeClusters, MetadataNotFound}
    ensures r == Err(NoFreeClusters) <==> FreeClusters(old(disk.V())) == {}
    ensures r == Err(MetadataNotFound) <==> FreeClusters(old(disk.V())) != {} && !SureToGrow(old(disk.V()), l, d)
    ensures r.Err? ==> HalfGrown(old(disk.V()), disk.V(), l, loose, d, r.error)
    ensures Shape(disk.V())
  {
    ghost var v := disk.V();
    var grown;
    grown, c := TakeAndLink(disk, d, buffer, l, loose);
    if grown.None? {
      RolledBackMatches(v, disk.V(), l, loose, {});
      return Err(NoFreeClusters), c;
    }
    ghost var w := disk.V();
    var info := grown.value.info;
    r := Ok(grown.value);
    if d == disk.root {
      RootGrown(v, w, l, loose, d, c, info);
    } else {
      SearchableAfter(v, w, l, loose, d, c, info);
      FindableAfter(v, w, l, loose, d, info);
      var ok := UpdateInTree(disk, disk.root, d, info.dataLength, 0, w, l, loose);
      if !ok { return Err(MetadataNotFound), c; }
      SubdirectoryGrown(v, w, disk.V(), l, loose, d, c, info);
      ParentWritten(v, w, disk.V(), l, loose, d, c, info.dataLength);
    }
  }
}
