/**
  The volume invariant: the bytes of a volume agree with a sound layout. The lemmas carry it
  over every step an operation takes: taking and giving back clusters, writing data, and
  rewriting a directory.
 */
module ExFatInvariant {
  import opened Bytes
  import opened ExFatParse
  import opened ExFatDirectory
  import opened ExFatChains
  import opened ExFatAllocator
  import opened ExFatLayout

  /** A bitmap bit is set exactly when the cluster has an owner. */
  ghost predicate BitmapOk(v: Vol, l: Layout)
    requires |v.bitmap| == v.clusterCount + 2
  {
    && (forall c: nat :: ValidCluster(v, c) ==> (v.bitmap[c] <==> c in l.owner))
    && (forall c :: c in l.owner ==> ValidCluster(v, c))
  }

  ghost predicate LinksOk(v: Vol, l: Layout, a: nat)
    requires |v.fat| == v.clusterCount + 2 && a in l.chains
  {
    if a in l.flat then IsFlatChain(v, l.chains[a]) else IsFatChain(v, l.chains[a])
  }

  ghost predicate InHeap(v: Vol, chain: seq<nat>) {
    forall i :: 0 <= i < |chain| ==> chain[i] < |v.heap|
  }

  /** The entries stored in a directory's clusters are well formed and hold exactly the sets on record. */
  ghost predicate DirHolds(d: Dir, live: set<SetInfo>) {
    WellFormedDir(d) && ChecksumsOk(d) && LiveSets(d) == live
  }

  ghost predicate DirOk(v: Vol, l: Layout, d: nat)
    requires d in l.live
  {
    d in l.chains && InHeap(v, l.chains[d]) && DirHolds(Contents(v.heap, l.chains[d]), l.live[d])
  }

  /** What the engine remembers about a live directory is what its entry says. */
  ghost predicate CacheEntryOk(l: Layout, e: StreamInfo) {
    e.firstCluster in l.depth && e.firstCluster in l.chains ==>
      && e.noFatChain == (e.firstCluster in l.flat)
      && l.clusterBytes > 0 && |l.chains[e.firstCluster]| == ClustersFor(l.clusterBytes, e.dataLength)
  }

  ghost predicate CacheOk(v: Vol, l: Layout) {
    CacheKeys(v.cache) && forall i {:trigger CacheEntryOk(l, v.cache[i])} :: 0 <= i < |v.cache| ==>
          CacheEntryOk(l, v.cache[i])
  }

  /** `skip` names the directories an operation has in hand and has not written back yet. */
  ghost predicate Matches(v: Vol, l: Layout, skip: set<nat>) {
    && Shape(v) && l.clusterBytes == ClusterBytes(v) && l.root == v.root
    && BitmapOk(v, l)
    && AllLinks(v, l) && AllDirs(v, l, skip) && CacheOk(v, l)
  }

  ghost predicate AllLinks(v: Vol, l: Layout)
    requires |v.fat| == v.clusterCount + 2
  {
    forall a {:trigger LinksOk(v, l, a)} :: a in l.chains ==> LinksOk(v, l, a)
  }

  ghost predicate AllDirs(v: Vol, l: Layout, skip: set<nat>) {
    forall d {:trigger DirOk(v, l, d)} :: d in l.live && d !in skip ==> DirOk(v, l, d)
  }

  ghost predicate Inv(v: Vol, l: Layout, loose: set<nat>, skip: set<nat>) { Sound(l, loose) && Matches(v, l, skip) }

  // ---- Consequences ------------------------------------------------------------------------

  lemma ChainInHeap(v: Vol, l: Layout, loose: set<nat>, skip: set<nat>, a: nat)
    requires Inv(v, l, loose, skip) && a in l.chains
    ensures InHeap(v, l.chains[a]) && forall c :: c in l.chains[a] ==> ValidCluster(v, c) && v.bitmap[c]
  {
    assert ChainOwned(l, a) && LinksOk(v, l, a);
  }

  // ---- Pieces ------------------------------------------------------------------------------

  lemma LinksKept(v: Vol, v': Vol, chain: seq<nat>)
    requires |v.fat| == |v'.fat| == v.clusterCount + 2 && v'.clusterCount == v.clusterCount
    requires forall c :: c in chain ==> c < |v.fat| && v'.fat[c] == v.fat[c]
    requires IsFatChain(v, chain)
    ensures IsFatChain(v', chain)
  {
    forall i | 0 <= i < |chain| ensures v'.fat[chain[i]] == v.fat[chain[i]] { assert chain[i] in chain; }
  }

  /** A stream whose FAT entries, clusters and flag are as before is linked as before. */
  lemma SameLinks(v: Vol, v': Vol, l: Layout, l': Layout, a: nat)
    requires |v.fat| == |v'.fat| == v.clusterCount + 2 && v'.clusterCount == v.clusterCount
    requires a in l.chains && a in l'.chains && l'.chains[a] == l.chains[a] && (a in l'.flat <==> a in l.flat)
    requires forall c :: c in l.chains[a] ==> c < |v.fat| && v'.fat[c] == v.fat[c]
    requires LinksOk(v, l, a)
    ensures LinksOk(v', l', a)
  {
    if a !in l.flat { LinksKept(v, v', l.chains[a]); }
  }

  lemma SameDir(v: Vol, v': Vol, l: Layout, l': Layout, d: nat)
    requires d in l.live && DirOk(v, l, d) && d in l'.live && l'.live[d] == l.live[d]
    requires d in l'.chains && l'.chains[d] == l.chains[d] && |v'.heap| == |v.heap|
    requires Contents(v'.heap, l.chains[d]) == Contents(v.heap, l.chains[d])
    ensures DirOk(v', l', d)
  {
  }

  /** All directories are as before when the heap is. */
  lemma SameDirs(v: Vol, v': Vol, l: Layout, l': Layout, skip: set<nat>)
    requires AllDirs(v, l, skip) && v'.heap == v.heap && l'.live == l.live
    requires forall d :: d in l.live ==> d in l'.chains && d in l.chains && l'.chains[d] == l.chains[d]
    ensures AllDirs(v', l', skip)
  {
    forall d | d in l'.live && d !in skip ensures DirOk(v', l', d) {
      assert DirOk(v, l, d);
      SameDir(v, v', l, l', d);
    }
  }

  // ---- Taking clusters ----------------------------------------------------------------------

  lemma TakenMatches(v: Vol, v': Vol, l: Layout, loose: set<nat>, skip: set<nat>, chain: seq<nat>)
    requires Inv(v, l, loose, skip) && Allocated(v, v', chain) && |chain| > 0
    ensures Inv(v', Taken(l, chain), loose + {chain[0]}, skip) && chain[0] !in l.chains
  {
    FreshClusters(v, v', l, chain);
    TakenSound(l, loose, chain);
    TakenVolume(v, v', l, skip, chain);
  }

  lemma TakenVolume(v: Vol, v': Vol, l: Layout, skip: set<nat>, chain: seq<nat>)
    requires Matches(v, l, skip) && Owned(l) && Allocated(v, v', chain) && |chain| > 0
    requires chain[0] !in l.chains && l.flat <= l.chains.Keys && l.live.Keys == l.depth.Keys
             && l.depth.Keys <= l.chains.Keys
    ensures Matches(v', Taken(l, chain), skip)
  {
    assert AllLinks(v', Taken(l, chain)) by { TakenLinks(v, v', l, chain); }
    assert AllDirs(v', Taken(l, chain), skip) by { SameDirs(v, v', l, Taken(l, chain), skip); }
    assert BitmapOk(v', Taken(l, chain)) by { TakenBitmap(v, v', l, chain); }
    assert CacheOk(v', Taken(l, chain)) by { TakenCache(v, v', l, chain); }
  }

  lemma FreshClusters(v: Vol, v': Vol, l: Layout, chain: seq<nat>)
    requires |v.bitmap| == v.clusterCount + 2 && BitmapOk(v, l) && Allocated(v, v', chain)
    ensures Distinct(chain) && forall c :: c in chain ==> c >= 2 && c !in l.owner
  {
  }

  lemma TakenBitmap(v: Vol, v': Vol, l: Layout, chain: seq<nat>)
    requires |v.bitmap| == v.clusterCount + 2 && BitmapOk(v, l) && Allocated(v, v', chain) && |chain| > 0
    ensures BitmapOk(v', Taken(l, chain))
  {
  }

  lemma TakenCache(v: Vol, v': Vol, l: Layout, chain: seq<nat>)
    requires CacheOk(v, l) && v'.cache == v.cache && |chain| > 0 && chain[0] !in l.chains
             && l.depth.Keys <= l.chains.Keys
    ensures CacheOk(v', Taken(l, chain))
  {
    forall i | 0 <= i < |v'.cache| ensures CacheEntryOk(Taken(l, chain), v'.cache[i]) {
      assert CacheEntryOk(l, v.cache[i]);
    }
  }

  lemma TakenLinks(v: Vol, v': Vol, l: Layout, chain: seq<nat>)
    requires Shape(v) && Owned(l) && BitmapOk(v, l) && AllLinks(v, l) && Allocated(v, v', chain) && |chain| > 0
    requires chain[0] !in l.chains && l.flat <= l.chains.Keys
    ensures AllLinks(v', Taken(l, chain))
  {
    var l' := Taken(l, chain);
    forall a | a in l'.chains ensures LinksOk(v', l', a) {
      if a != chain[0] {
        assert LinksOk(v, l, a) && ChainOwned(l, a);
        SameLinks(v, v', l, l', a);
      }
    }
  }

  // ---- Giving clusters back -----------------------------------------------------------------

  lemma ReleasedMatches(v: Vol, v': Vol, l: Layout, loose: set<nat>, skip: set<nat>, a: nat)
    requires Inv(v, l, loose, skip) && a in loose && a in l.chains && Freed(v, v', l.chains[a])
    ensures Inv(v', Released(l, a), loose - {a}, skip)
  {
    var l' := Released(l, a);
    ReleasedSound(l, loose, a);
    assert ChainOwned(l, a);
    assert BitmapOk(v', l') by { ReleasedBitmap(v, v', l, a); }
    assert AllLinks(v', l') by { ReleasedLinks(v, v', l, a); }
    assert AllDirs(v', l', skip) by { SameDirs(v, v', l, l', skip); }
    assert CacheOk(v', l') by { ReleasedCache(v, v', l, a); }
  }

  lemma ReleasedCache(v: Vol, v': Vol, l: Layout, a: nat)
    requires CacheOk(v, l) && v'.cache == v.cache && a in l.chains && a !in l.depth
    ensures CacheOk(v', Released(l, a))
  {
    forall i | 0 <= i < |v'.cache| ensures CacheEntryOk(Released(l, a), v'.cache[i]) {
      assert CacheEntryOk(l, v.cache[i]);
    }
  }

  lemma ReleasedBitmap(v: Vol, v': Vol, l: Layout, a: nat)
    requires |v.bitmap| == v.clusterCount + 2 && BitmapOk(v, l) && a in l.chains && ChainOwned(l, a)
             && Freed(v, v', l.chains[a])
    ensures BitmapOk(v', Released(l, a))
  {
  }

  lemma ReleasedLinks(v: Vol, v': Vol, l: Layout, a: nat)
    requires Shape(v) && Owned(l) && BitmapOk(v, l) && AllLinks(v, l) && a in l.chains && Freed(v, v', l.chains[a])
    ensures AllLinks(v', Released(l, a))
  {
    var l' := Released(l, a);
    forall b | b in l'.chains ensures LinksOk(v', l', b) {
      assert LinksOk(v, l, b) && ChainOwned(l, a) && ChainOwned(l, b);
      SameLinks(v, v', l, l', b);
    }
  }

  // ---- Writing data -------------------------------------------------------------------------

  /** Only the contents of the clusters of `chain` changed. */
  ghost predicate HeapWritten(v: Vol, v': Vol, chain: seq<nat>) {
    && v' == v.(heap := v'.heap) && |v'.heap| == |v.heap|
    && (forall c :: 0 <= c < |v.heap| ==> |v'.heap[c]| == |v.heap[c]|)
    && (forall c :: 0 <= c < |v.heap| && c !in chain ==> v'.heap[c] == v.heap[c])
  }

  lemma OtherContentsKept(v: Vol, v': Vol, l: Layout, a: nat, b: nat)
    requires Owned(l) && a in l.chains && b in l.chains && a != b && HeapWritten(v, v', l.chains[a])
             && InHeap(v, l.chains[b])
    ensures InHeap(v', l.chains[b]) && Contents(v'.heap, l.chains[b]) == Contents(v.heap, l.chains[b])
  {
    assert ChainOwned(l, a) && ChainOwned(l, b);
    forall i | 0 <= i < |l.chains[b]| ensures v.heap[l.chains[b][i]] == v'.heap[l.chains[b][i]] {
      assert l.chains[b][i] in l.chains[b];
    }
    ContentsLocal(v.heap, v'.heap, l.chains[b]);
  }

  lemma HeapLinks(v: Vol, v': Vol, l: Layout)
    requires |v.fat| == v.clusterCount + 2 && AllLinks(v, l) && v'.fat == v.fat && v'.clusterCount == v.clusterCount
    ensures AllLinks(v', l)
  {
    forall a | a in l.chains ensures LinksOk(v', l, a) { assert LinksOk(v, l, a); }
  }

  /** Directories other than the one written to keep their entries. */
  lemma OtherDirKept(v: Vol, v': Vol, l: Layout, l': Layout, a: nat, d: nat)
    requires Owned(l) && a in l.chains && HeapWritten(v, v', l.chains[a])
    requires d in l.live && d != a && DirOk(v, l, d) && d in l'.live && l'.live[d] == l.live[d]
    requires d in l'.chains && l'.chains[d] == l.chains[d]
    ensures DirOk(v', l', d)
  {
    OtherContentsKept(v, v', l, a, d);
    SameDir(v, v', l, l', d);
  }

  /** Data written to a stream that is no directory disturbs nothing. */
  lemma WrittenMatches(v: Vol, v': Vol, l: Layout, loose: set<nat>, skip: set<nat>, a: nat)
    requires Inv(v, l, loose, skip) && a in l.chains && a !in l.live && HeapWritten(v, v', l.chains[a])
    ensures Inv(v', l, loose, skip)
  {
    assert AllLinks(v', l) by { HeapLinks(v, v', l); }
    assert AllDirs(v', l, skip) by {
      forall d | d in l.live && d !in skip ensures DirOk(v', l, d) {
        assert DirOk(v, l, d);
        OtherDirKept(v, v', l, l, a, d);
      }
    }
    assert CacheOk(v', l);
  }

  // ---- Rewriting a directory ----------------------------------------------------------------

  /** The clusters of `chain` were overwritten, and `e` was remembered. */
  ghost predicate DirWritten(v: Vol, v': Vol, chain: seq<nat>, e: StreamInfo) {
    v'.cache == Remember(v.cache, e) && HeapWritten(v, v'.(cache := v.cache), chain)
  }

  lemma RememberedOk(v: Vol, v': Vol, l: Layout, l': Layout, e: StreamInfo)
    requires CacheOk(v, l) && v'.cache == Remember(v.cache, e)
    requires e.firstCluster >= 2 ==> CacheEntryOk(l', e)
    requires forall a :: a in l'.depth && a in l'.chains && (a != e.firstCluster || e.firstCluster < 2) ==>
               && a in l.depth && a in l.chains && l'.chains[a] == l.chains[a] && (a in l'.flat <==> a in l.flat)
    requires l'.clusterBytes == l.clusterBytes
    ensures CacheOk(v', l')
  {
    if e.firstCluster >= 2 { Remembered(v.cache, e); }
    forall i | 0 <= i < |v'.cache| ensures CacheEntryOk(l', v'.cache[i]) {
      var x := v'.cache[i];
      if x != e || e.firstCluster < 2 {
        assert x in v.cache;
        assert CacheEntryOk(l, x);
      }
    }
  }

  /** A directory's clusters now hold an entry set more, and perhaps one less. */
  lemma InstalledMatches(v: Vol, v': Vol, l: Layout, loose: set<nat>, d: nat, x: set<SetInfo>, new_: SetInfo,
                         e: StreamInfo, skip: set<nat>)
    requires Inv(v, l, loose, skip) && skip <= {d} && MayInstall(l, loose, d, x, new_)
    requires DirWritten(v, v', l.chains[d], e) && InHeap(v, l.chains[d])
    requires DirHolds(Contents(v'.heap, l.chains[d]), l.live[d] - x + {new_})
    requires e == StreamInfo(new_.firstCluster, new_.dataLength, new_.validLength, new_.noFatChain, new_.isDirectory)
    requires new_.isDirectory ==>
               InHeap(v, l.chains[new_.firstCluster]) && DirHolds(Contents(v.heap, l.chains[new_.firstCluster]), {})
    ensures Inv(v', Installed(l, d, x, new_), (loose - OneStream(new_)) + Streams(x), {})
  {
    InstalledSound(l, loose, d, x, new_);
    InstalledVolume(v, v', l, loose, d, x, new_, e, skip);
  }

  lemma InstalledVolume(v: Vol, v': Vol, l: Layout, loose: set<nat>, d: nat, x: set<SetInfo>, new_: SetInfo,
                        e: StreamInfo, skip: set<nat>)
    requires Matches(v, l, skip) && Owned(l) && Directories(l, loose) && skip <= {d} && MayInstall(l, loose, d, x, new_)
    requires DirWritten(v, v', l.chains[d], e) && InHeap(v, l.chains[d])
    requires DirHolds(Contents(v'.heap, l.chains[d]), l.live[d] - x + {new_})
    requires e == StreamInfo(new_.firstCluster, new_.dataLength, new_.validLength, new_.noFatChain, new_.isDirectory)
    requires new_.isDirectory ==>
               InHeap(v, l.chains[new_.firstCluster]) && DirHolds(Contents(v.heap, l.chains[new_.firstCluster]), {})
    ensures Matches(v', Installed(l, d, x, new_), {})
  {
    var l' := Installed(l, d, x, new_);
    assert AllLinks(v', l') by { HeapLinks(v, v', l); InstalledLinks(v', l, d, x, new_); }
    assert AllDirs(v', l', {}) by { InstalledDirs(v, v', l, loose, d, x, new_, e, skip); }
    assert CacheOk(v', l') by { InstalledCache(v, v', l, loose, d, x, new_, e); }
  }

  lemma InstalledCache(v: Vol, v': Vol, l: Layout, loose: set<nat>, d: nat, x: set<SetInfo>, new_: SetInfo,
                       e: StreamInfo)
    requires CacheOk(v, l) && MayInstall(l, loose, d, x, new_) && v'.cache == Remember(v.cache, e)
    requires e == StreamInfo(new_.firstCluster, new_.dataLength, new_.validLength, new_.noFatChain, new_.isDirectory)
    ensures CacheOk(v', Installed(l, d, x, new_))
  {
    RememberedOk(v, v', l, Installed(l, d, x, new_), e);
  }

  lemma InstalledLinks(v: Vol, l: Layout, d: nat, x: set<SetInfo>, new_: SetInfo)
    requires |v.fat| == v.clusterCount + 2 && AllLinks(v, l) && d in l.live && d in l.depth
    ensures AllLinks(v, Installed(l, d, x, new_))
  {
    forall a | a in l.chains ensures LinksOk(v, Installed(l, d, x, new_), a) { assert LinksOk(v, l, a); }
  }

  lemma InstalledDirs(v: Vol, v': Vol, l: Layout, loose: set<nat>, d: nat, x: set<SetInfo>, new_: SetInfo,
                      e: StreamInfo, skip: set<nat>)
    requires Owned(l) && Directories(l, loose) && AllDirs(v, l, skip) && skip <= {d} && MayInstall(l, loose, d, x, new_)
    requires DirWritten(v, v', l.chains[d], e) && InHeap(v, l.chains[d])
    requires DirHolds(Contents(v'.heap, l.chains[d]), l.live[d] - x + {new_})
    requires new_.isDirectory ==>
               InHeap(v, l.chains[new_.firstCluster]) && DirHolds(Contents(v.heap, l.chains[new_.firstCluster]), {})
    ensures AllDirs(v', Installed(l, d, x, new_), {})
  {
    var l' := Installed(l, d, x, new_);
    var w := v'.(cache := v.cache);
    forall b | b in l'.live ensures DirOk(v', l', b) {
      if b == d {
      } else if new_.isDirectory && b == new_.firstCluster {
        OtherContentsKept(v, w, l, d, b);
      } else {
        assert DirOk(v, l, b);
        OtherDirKept(v, w, l, l', d, b);
      }
    }
  }

  /** A directory's clusters now hold one entry set less. */
  lemma RemovedMatches(v: Vol, v': Vol, l: Layout, loose: set<nat>, d: nat, x: SetInfo)
    requires Inv(v, l, loose, {}) && MayRemove(l, d, x) && InHeap(v, l.chains[d]) && HeapWritten(v, v', l.chains[d])
    requires DirHolds(Contents(v'.heap, l.chains[d]), l.live[d] - {x})
    ensures Inv(v', Removed(l, d, x), loose + OneStream(x), {})
  {
    RemovedSound(l, loose, d, x);
    RemovedVolume(v, v', l, d, x);
  }

  lemma RemovedVolume(v: Vol, v': Vol, l: Layout, d: nat, x: SetInfo)
    requires Matches(v, l, {}) && Owned(l) && d in l.chains && MayRemove(l, d, x) && InHeap(v, l.chains[d])
             && HeapWritten(v, v', l.chains[d])
    requires DirHolds(Contents(v'.heap, l.chains[d]), l.live[d] - {x})
    ensures Matches(v', Removed(l, d, x), {})
  {
    assert AllLinks(v', Removed(l, d, x)) by { HeapLinks(v, v', l); RemovedLinks(v', l, d, x); }
    assert AllDirs(v', Removed(l, d, x), {}) by { RemovedDirs(v, v', l, d, x); }
    assert CacheOk(v', Removed(l, d, x)) by { RemovedCache(v, v', l, d, x); }
  }

  lemma RemovedLinks(v: Vol, l: Layout, d: nat, x: SetInfo)
    requires |v.fat| == v.clusterCount + 2 && AllLinks(v, l) && d in l.live
    ensures AllLinks(v, Removed(l, d, x))
  {
    forall a | a in l.chains ensures LinksOk(v, Removed(l, d, x), a) { assert LinksOk(v, l, a); }
  }

  lemma RemovedCache(v: Vol, v': Vol, l: Layout, d: nat, x: SetInfo)
    requires CacheOk(v, l) && v'.cache == v.cache && d in l.live
    ensures CacheOk(v', Removed(l, d, x))
  {
    forall i | 0 <= i < |v'.cache| ensures CacheEntryOk(Removed(l, d, x), v'.cache[i]) {
      assert CacheEntryOk(l, v.cache[i]);
    }
  }

  lemma RemovedDirs(v: Vol, v': Vol, l: Layout, d: nat, x: SetInfo)
    requires Owned(l) && AllDirs(v, l, {}) && MayRemove(l, d, x) && d in l.chains && InHeap(v, l.chains[d])
             && HeapWritten(v, v', l.chains[d])
    requires DirHolds(Contents(v'.heap, l.chains[d]), l.live[d] - {x})
    ensures AllDirs(v', Removed(l, d, x), {})
  {
    var l' := Removed(l, d, x);
    forall b | b in l'.live ensures DirOk(v', l', b) {
      if b != d {
        assert DirOk(v, l, b);
        OtherDirKept(v, v', l, l', d, b);
      }
    }
  }

  // ---- Growing a directory ------------------------------------------------------------------

  /** The chain of `d` was extended by the free cluster `c`, all in the FAT and the bitmap. */
  ghost predicate Extended(v: Vol, v': Vol, chain: seq<nat>, c: nat) {
    && |v.fat| == |v'.fat| == |v.bitmap| == |v'.bitmap| == v.clusterCount + 2 && v'.clusterCount == v.clusterCount
    && ValidCluster(v, c) && !v.bitmap[c] && v'.bitmap == v.bitmap[c := true]
    && IsFatChain(v', chain + [c])
    && (forall e :: 0 <= e < |v.fat| && e !in chain && e != c ==> v'.fat[e] == v.fat[e])
  }

  lemma GrownBitmap(v: Vol, v': Vol, l: Layout, d: nat, c: nat)
    requires |v.bitmap| == v.clusterCount + 2 && BitmapOk(v, l) && d in l.chains && Extended(v, v', l.chains[d], c)
    requires d in l.ref ==> l.ref[d].dir in l.live
    ensures BitmapOk(v', Grown(l, d, c)) && c !in l.owner
  {
  }

  lemma GrownLinks(v: Vol, v': Vol, l: Layout, d: nat, c: nat)
    requires Shape(v) && Owned(l) && BitmapOk(v, l) && AllLinks(v, l) && d in l.chains
             && Extended(v, v', l.chains[d], c)
    requires d in l.ref ==> l.ref[d].dir in l.live
    ensures AllLinks(v', Grown(l, d, c))
  {
    var l' := Grown(l, d, c);
    forall a | a in l'.chains ensures LinksOk(v', l', a) {
      if a != d {
        assert LinksOk(v, l, a) && ChainOwned(l, a) && ChainOwned(l, d);
        SameLinks(v, v', l, l', a);
      }
    }
  }

  /** The directory that refers to a directory is another one. */
  lemma ParentDiffers(l: Layout, loose: set<nat>, d: nat)
    requires Sound(l, loose) && d in l.depth && d in l.ref
    ensures l.ref[d].dir in l.depth && l.ref[d].dir in l.live && l.ref[d].dir != d && l.ref[d].dir in l.chains
    ensures l.ref[d].info in l.live[l.ref[d].dir] && l.ref[d].info.firstCluster == d && l.ref[d].info.isDirectory
  {
    assert RefOk(l, d);
  }

  /** What growing changes in the heap: the parent's entry set of `d` is refreshed, if `d` has a parent. */
  ghost predicate ParentRefreshed(v: Vol, v': Vol, l: Layout, d: nat)
    requires d in l.chains
  {
    if d in l.ref then
      var Ref(p, x) := l.ref[d];
      && p in l.chains && p in l.live && InHeap(v, l.chains[p])
      && HeapWritten(v.(fat := v'.fat, bitmap := v'.bitmap, hint := v'.hint, cache := v'.cache), v', l.chains[p])
      && DirHolds(Contents(v'.heap, l.chains[p]), l.live[p] - {x} + {GrownInfo(x, l.clusterBytes, |l.chains[d]| + 1)})
    else
      v' == v.(fat := v'.fat, bitmap := v'.bitmap, hint := v'.hint, cache := v'.cache)
  }

  lemma GrownDirs(v: Vol, v': Vol, l: Layout, d: nat, c: nat)
    requires Owned(l) && AllDirs(v, l, {}) && d in l.live && d in l.chains && ParentRefreshed(v, v', l, d)
    requires d in l.ref ==> l.ref[d].dir in l.live && l.ref[d].dir != d
    ensures AllDirs(v', Grown(l, d, c), {d})
  {
    var l' := Grown(l, d, c);
    var w := v.(fat := v'.fat, bitmap := v'.bitmap, hint := v'.hint, cache := v'.cache);
    forall b | b in l'.live && b != d ensures DirOk(v', l', b) {
      assert DirOk(v, l, b);
      if d in l.ref {
        if b != l.ref[d].dir { OtherDirKept(w, v', l, l', l.ref[d].dir, b); }
      } else {
        SameDir(v, v', l, l', b);
      }
    }
  }

  /** A directory that has grown by one cluster, except that its own entries are still in hand. */
  lemma GrownMatches(v: Vol, v': Vol, l: Layout, loose: set<nat>, d: nat, c: nat)
    requires Inv(v, l, loose, {}) && d in l.depth && |l.chains[d]| < MAX_DIR_CLUSTERS
    requires Extended(v, v', l.chains[d], c) && ParentRefreshed(v, v', l, d) && Shape(v')
    requires d in l.ref ==> l.ref[d].dir in l.live
    requires CacheOk(v', Grown(l, d, c))
    ensures c >= 2 && Inv(v', Grown(l, d, c), loose, {d})
  {
    var l' := Grown(l, d, c);
    assert d in l.ref ==> l.ref[d].dir != d by { if d in l.ref { ParentDiffers(l, loose, d); } }
    assert BitmapOk(v', l') && c !in l.owner by { GrownBitmap(v, v', l, d, c); }
    assert AllLinks(v', l') by { GrownLinks(v, v', l, d, c); }
    assert AllDirs(v', l', {d}) by { GrownDirs(v, v', l, d, c); }
    GrownSound(l, loose, d, c);
  }
}
