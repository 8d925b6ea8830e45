/**
  Clusters taken for a new stream and given back. A sound volume with a tree stays one when a
  chain is taken, filled and given back, also after the directory the stream was meant for has
  been grown without success: then exactly the half-grown directory is left.
 */
module ExFatTaking {
  import opened Bytes
  import opened ExFatEntrySet
  import opened ExFatParse
  import opened ExFatChains
  import opened ExFatAllocator
  import opened ExFatLayout
  import opened ExFatInvariant
  import opened ExFatReading
  import opened ExFatGrowth
  import opened ExFatInstall
  import opened ExFatView
  import opened ExFatData

  /** The volume is sound and stands for the tree `t`; `loose` names clusters in hand or lost. */
  ghost predicate Good(v: Vol, l: Layout, loose: set<nat>, t: Tree) { Inv(v, l, loose, {}) && Represents(v, l, t) }

  // ---- Giving back ----------------------------------------------------------------------------

  /** What freeing the stream of an entry set does to the volume. */
  ghost predicate StreamFreed(v: Vol, v': Vol, x: SetInfo, ok: bool) {
    && Shape(v)
    && if x.firstCluster < 2 then ok && v' == v
       else var c := StreamChain(v, x); ok == c.Some? && if ok then Freed(v, v', c.value) else v' == v
  }

  function FreedLayout(l: Layout, x: SetInfo, ok: bool): (r: Layout) {
    if ok && x.firstCluster >= 2 && x.firstCluster in l.chains then Released(l, x.firstCluster) else l
  }

  /** A stream that is no longer referred to is given back, unless its chain is too long. */
  lemma GivenBack(v: Vol, v': Vol, x: SetInfo, ok: bool, l: Layout, loose: set<nat>, t: Tree)
    requires Good(v, l, loose, t) && (x.firstCluster >= 2 ==> x.firstCluster in loose && Measures(l, x))
             && StreamFreed(v, v', x, ok)
    ensures Good(v', FreedLayout(l, x, ok), if ok then loose - OneStream(x) else loose, t)
    ensures ok <==> !(x.firstCluster >= 2 && TooLong(l, x.firstCluster))
  {
    if x.firstCluster >= 2 {
      StreamChainIs(v, l, loose, {}, x);
      if ok {
        ReleasedMatches(v, v', l, loose, {}, x.firstCluster);
        ReleasedView(v, v', l, loose, x.firstCluster, t);
      }
    }
  }

  function TakenLayout(l: Layout, chain: seq<nat>): (r: Layout) { if chain == [] then l else Taken(l, chain) }

  function TakenLoose(loose: set<nat>, chain: seq<nat>): (r: set<nat>) {
    if chain == [] then loose else loose + {chain[0]}
  }

  /** The clusters were free, and now belong to a stream nobody refers to. */
  ghost predicate FreshChain(l: Layout, loose: set<nat>, chain: seq<nat>) {
    (forall c :: c in chain ==> c !in l.owner)
        && (chain != [] ==> chain[0] !in l.chains && chain[0] !in loose && chain[0] !in l.flat)
  }

  lemma TakenAndReleased(l: Layout, chain: seq<nat>)
    requires |chain| > 0 && (forall c :: c in chain ==> c !in l.owner) && chain[0] !in l.chains && chain[0] !in l.flat
    ensures Released(Taken(l, chain), chain[0]) == l
  {
    var r := Released(Taken(l, chain), chain[0]);
    assert r.owner == l.owner && r.chains == l.chains && r.flat == l.flat;
  }

  /** Clusters that were taken for nothing have been given back. */
  lemma ChainGivenBack(v: Vol, v': Vol, chain: seq<nat>, l: Layout, loose: set<nat>, t: Tree)
    requires Good(v, TakenLayout(l, chain), TakenLoose(loose, chain), t) && FreshChain(l, loose, chain)
             && Freed(v, v', chain)
    ensures Good(v', l, loose, t)
  {
    if chain == [] {
      NothingFreed(v, v');
      RolledBackMatches(v, v', l, loose, {});
      HeapSameView(v, v', l, loose, t);
    } else {
      ReleasedMatches(v, v', Taken(l, chain), loose + {chain[0]}, {}, chain[0]);
      ReleasedView(v, v', Taken(l, chain), loose + {chain[0]}, chain[0], t);
      TakenAndReleased(l, chain);
      assert loose + {chain[0]} - {chain[0]} == loose;
    }
  }

  lemma NothingFreed(v: Vol, v': Vol)
    requires Shape(v) && Freed(v, v', [])
    ensures RolledBack(v, v')
  {
    assert v'.bitmap == v.bitmap;
  }

  // ---- Taking clusters and filling them -----------------------------------------------------------

  /** Directory `d` is as it was, and so is what the engine remembers of it. */
  ghost predicate DirSame(v: Vol, v': Vol, l: Layout, l': Layout, d: nat) {
    && d in l.chains && d in l'.chains && l'.chains[d] == l.chains[d] && InHeap(v, l.chains[d])
      && InHeap(v', l.chains[d])
    && Contents(v'.heap, l.chains[d]) == Contents(v.heap, l.chains[d]) && v'.cache == v.cache && v'.root == v.root
    && v'.entriesPerCluster == v.entriesPerCluster && l'.depth == l.depth && l'.live == l.live
  }

  lemma StillRoomFor(v: Vol, v': Vol, l: Layout, l': Layout, d: nat, name: Name)
    requires DirSame(v, v', l, l', d) && Visible(v, l, d) && RoomFor(v, l, d, name)
    ensures Visible(v', l', d) && RoomFor(v', l', d, name)
  {
  }

  /** A chain of fresh clusters, or the volume as it was. */
  method TakeChain(disk: Volume, count: nat, ghost l: Layout, ghost loose: set<nat>, ghost t: Tree)
    returns (r: Option<seq<nat>>)
    requires Good(disk.V(), l, loose, t)
    modifies disk
    ensures r.None? ==> Good(disk.V(), l, loose, t)
    ensures r.Some? ==>
              |r.value| == count && FreshChain(l, loose, r.value)
              && Good(disk.V(), TakenLayout(l, r.value), TakenLoose(loose, r.value), t)
    ensures r.None? <==> |FreeClusters(old(disk.V()))| < count
    ensures disk.V() == old(disk.V()).(fat := disk.fat, bitmap := disk.bitmap, hint := disk.hint)
    ensures r.Some? ==> FreshOnly(old(disk.V()), disk.V(), r.value)
    ensures r.Some? ==> |FreeClusters(disk.V())| == |FreeClusters(old(disk.V()))| - count
  {
    ghost var v := disk.V();
    r := disk.AllocateChain(count);
    if r.Some? { FewerFree(v, disk.V(), r.value); }
    if r.None? {
      RolledBackMatches(v, disk.V(), l, loose, {});
      HeapSameView(v, disk.V(), l, loose, t);
    } else if r.value == [] {
      NothingTaken(v, disk.V());
      RolledBackMatches(v, disk.V(), l, loose, {});
      HeapSameView(v, disk.V(), l, loose, t);
    } else {
      FreshClusters(v, disk.V(), l, r.value);
      TakenMatches(v, disk.V(), l, loose, {}, r.value);
      TakenView(v, disk.V(), l, loose, r.value, t);
    }
  }

  /** As many clusters fewer are free as were taken. */
  lemma FewerFree(v: Vol, v': Vol, chain: seq<nat>)
    requires Shape(v) && Allocated(v, v', chain)
    ensures |FreeClusters(v')| == |FreeClusters(v)| - |chain|
  {
    var free, free' := FreeClusters(v), FreeClusters(v');
    assert Elements(chain) <= free && free' == free - Elements(chain);
    DistinctSize(chain);
  }

  lemma NothingTaken(v: Vol, v': Vol)
    requires Shape(v) && Allocated(v, v', [])
    ensures RolledBack(v, v')
  {
    assert v'.bitmap == v.bitmap;
  }

  /** Whatever is written to the fresh chain, the rest of the volume stays as it is. */
  lemma FreshWritten(v: Vol, v': Vol, l: Layout, loose: set<nat>, chain: seq<nat>, d: nat, t: Tree)
    requires Good(v, TakenLayout(l, chain), TakenLoose(loose, chain), t) && FreshChain(l, loose, chain)
             && HeapWritten(v, v', chain)
    requires d in l.depth
    ensures Good(v', TakenLayout(l, chain), TakenLoose(loose, chain), t)
    ensures DirSame(v, v', TakenLayout(l, chain), TakenLayout(l, chain), d)
  {
    var l1, loose1 := TakenLayout(l, chain), TakenLoose(loose, chain);
    ChainInHeap(v, l1, loose1, {}, d);
    if chain == [] {
      assert v' == v by { assert v'.heap == v.heap; }
    } else {
      WrittenMatches(v, v', l1, loose1, {}, chain[0]);
      WrittenView(v, v', l1, loose1, chain[0], t);
      OtherContentsKept(v, v', l1, chain[0], d);
    }
  }

  // ---- A growth that was not finished -----------------------------------------------------------

  /** Only the clusters of `chain`, which were free, have been taken and filled. */
  ghost predicate FreshOnly(v: Vol, w: Vol, chain: seq<nat>) {
    && w == v.(fat := w.fat, bitmap := w.bitmap, heap := w.heap, hint := w.hint)
    && |w.fat| == |v.fat| == |w.bitmap| == |v.bitmap| == |w.heap| == |v.heap| == v.clusterCount + 2
    && forall e: nat {:trigger e in chain} :: e < |v.fat| && e !in chain ==>
         w.fat[e] == v.fat[e] && w.bitmap[e] == v.bitmap[e] && w.heap[e] == v.heap[e]
  }

  /**
    Directory `d` has a new cluster `c` behind its chain that nobody knows of: it is marked, the
    FAT links it and the cache counts it, but the parent's entry does not, and it was never
    written. Everything that belongs to a stream is as before.
   */
  ghost predicate HalfLinked(v: Vol, v': Vol, l: Layout, d: nat, c: nat, info: StreamInfo) {
    && d in l.chains && v' == v.(fat := v'.fat, bitmap := v'.bitmap, heap := v'.heap, hint := v'.hint, cache
      := v'.cache)
    && |v'.fat| == |v.fat| == |v.bitmap| == |v.heap| == |v'.heap| == v.clusterCount + 2
    && ValidCluster(v, c) && !v.bitmap[c] && v'.bitmap == v.bitmap[c := true]
    && IsFatChain(v', l.chains[d] + [c])
    && (forall e {:trigger e in l.owner} :: e in l.owner && e < |v.fat| ==>
        v'.heap[e] == v.heap[e] && (e !in l.chains[d] ==> v'.fat[e] == v.fat[e]))
    && v'.heap[c] == v.heap[c]
    && v'.cache == Remember(v.cache, info) && info.firstCluster == d
      && info.dataLength == (|l.chains[d]| + 1) * l.clusterBytes
  }

  /** What is left when an operation failed in the middle of growing directory `d`, and otherwise nothing is. */
  ghost predicate HalfDone(v: Vol, v': Vol, l: Layout, loose: set<nat>, t: Tree, d: nat, e: Error) {
    match e
    case MetadataNotFound => exists c, info :: HalfLinked(v, v', l, d, c, info)
    case DirectoryFull => exists c :: GrownUnwritten(v, v', l, loose, d, c)
    case _ => Good(v', l, loose, t)
  }

  /** The clusters of the chain were free, are marked, and apart from directory `d`. */
  ghost predicate TakenApart(v: Vol, w: Vol, chain: seq<nat>, own: seq<nat>) {
    && FreshOnly(v, w, chain)
    && (forall e {:trigger e in chain} :: e in chain ==> ValidCluster(v, e) && !v.bitmap[e] && w.bitmap[e])
    && (forall e {:trigger e in own} :: e in own ==> ValidCluster(v, e) && e !in chain)
  }

  lemma FreshMarked(w: Vol, l: Layout, loose: set<nat>, chain: seq<nat>, t: Tree)
    requires Good(w, TakenLayout(l, chain), TakenLoose(loose, chain), t)
    ensures forall e :: e in chain ==> ValidCluster(w, e) && w.bitmap[e]
  {
    if chain != [] { ChainInHeap(w, Taken(l, chain), loose + {chain[0]}, {}, chain[0]); }
  }

  lemma FreshApart(v: Vol, w: Vol, l: Layout, loose: set<nat>, t: Tree, d: nat, chain: seq<nat>)
    requires Inv(v, l, loose, {}) && FreshChain(l, loose, chain) && FreshOnly(v, w, chain) && d in l.depth
    requires Good(w, TakenLayout(l, chain), TakenLoose(loose, chain), t)
    ensures TakenApart(v, w, chain, l.chains[d])
  {
    FreshMarked(w, l, loose, chain, t);
    ChainInHeap(v, l, loose, {}, d);
    assert ChainOwned(l, d);
  }

  lemma LeftBitmap(v: Vol, w: Vol, u: Vol, v': Vol, chain: seq<nat>, own: seq<nat>, c: nat)
    requires TakenApart(v, w, chain, own) && Extended(w, u, own, c) && Freed(u, v', chain)
             && w.clusterCount == v.clusterCount
    ensures ValidCluster(v, c) && c !in chain && !v.bitmap[c] && v'.bitmap == v.bitmap[c := true]
  {
    forall e | 0 <= e < |v.bitmap| ensures v'.bitmap[e] == v.bitmap[c := true][e] {
      if e in chain { assert !v.bitmap[e] && ValidCluster(v, e); }
    }
  }

  lemma LeftChain(v: Vol, w: Vol, u: Vol, v': Vol, chain: seq<nat>, own: seq<nat>, c: nat)
    requires TakenApart(v, w, chain, own) && Extended(w, u, own, c) && Freed(u, v', chain) && c !in chain
    ensures IsFatChain(v', own + [c])
  {
    var all := own + [c];
    forall i | 0 <= i < |all| ensures v'.fat[all[i]] == u.fat[all[i]] { assert i < |own| ==> own[i] in own; }
  }

  lemma LeftAlone(v: Vol, w: Vol, u: Vol, v': Vol, chain: seq<nat>, own: seq<nat>, c: nat, e: nat)
    requires TakenApart(v, w, chain, own) && Extended(w, u, own, c) && Freed(u, v', chain) && u.heap == w.heap
             && e < |v.fat| && e !in chain
    ensures v'.heap[e] == v.heap[e] && (e !in own && e != c ==> v'.fat[e] == v.fat[e])
  {
  }

  /** The clusters meant for the new stream are given back; the half-grown directory stays. */
  lemma LinkedIsLeft(v: Vol, w: Vol, u: Vol, v': Vol, l: Layout, loose: set<nat>, d: nat, chain: seq<nat>, c: nat,
                     info: StreamInfo)
    requires Shape(v) && BitmapOk(v, l) && FreshChain(l, loose, chain) && d in l.depth && d in l.chains
             && TakenApart(v, w, chain, l.chains[d])
    requires Linking(w, u, TakenLayout(l, chain), d, c, info) && TakenLayout(l, chain).chains[d] == l.chains[d]
             && Freed(u, v', chain)
    ensures HalfLinked(v, v', l, d, c, info)
  {
    LeftBitmap(v, w, u, v', chain, l.chains[d], c);
    LeftChain(v, w, u, v', chain, l.chains[d], c);
    LeftAlone(v, w, u, v', chain, l.chains[d], c, c);
    forall e {:trigger e in l.owner} | e in l.owner && e < |v.fat|
      ensures v'.heap[e] == v.heap[e] && (e !in l.chains[d] ==> v'.fat[e] == v.fat[e])
    {
      LeftAlone(v, w, u, v', chain, l.chains[d], c, e);
    }
  }

  lemma LongerOverTaken(l: Layout, chain: seq<nat>, d: nat, c: nat)
    requires d in l.chains && |chain| > 0 && chain[0] !in l.chains && c !in chain
    ensures Longer(Taken(l, chain), d, c).chains == Longer(l, d, c).chains[chain[0] := chain]
    ensures Longer(Taken(l, chain), d, c).owner == Longer(l, d, c).owner + OwnedBy(chain, chain[0])
  {
    assert Taken(l, chain).chains[d] == l.chains[d];
    var o: map<nat, nat>, o': map<nat, nat> := l.owner, OwnedBy(chain, chain[0]);
    var both: map<nat, nat> := o + o';
    assert both[c := d] == o[c := d] + o';
  }

  lemma GrownOverTaken(l: Layout, chain: seq<nat>, d: nat, c: nat)
    requires d in l.chains && |chain| > 0 && chain[0] !in l.chains
    ensures Grown(l, d, c).chains == Longer(l, d, c).chains && Grown(l, d, c).owner == Longer(l, d, c).owner
    ensures Grown(Taken(l, chain), d, c).chains == Longer(Taken(l, chain), d, c).chains
    ensures Grown(Taken(l, chain), d, c).owner == Longer(Taken(l, chain), d, c).owner
  {
  }

  lemma GrownTakenReleased(l: Layout, chain: seq<nat>, d: nat, c: nat)
    requires d in l.chains && |chain| > 0 && chain[0] !in l.chains && chain[0] !in l.flat && c !in chain
             && forall e :: e in chain ==> e !in l.owner
    ensures chain[0] in Grown(Taken(l, chain), d, c).chains && Grown(Taken(l, chain), d, c).chains[chain[0]] == chain
    ensures Released(Grown(Taken(l, chain), d, c), chain[0]) == Grown(l, d, c)
  {
    GrownOverTaken(l, chain, d, c);
    LongerOverTaken(l, chain, d, c);
    var r, g := Released(Grown(Taken(l, chain), d, c), chain[0]), Grown(l, d, c);
    assert r.owner == g.owner && r.chains == g.chains && r.flat == g.flat;
    assert r.live == g.live && r.ref == g.ref;
  }

  lemma GrownIsLeft(u: Vol, v': Vol, l: Layout, loose: set<nat>, chain: seq<nat>, d: nat, c: nat)
    requires FreshChain(l, loose, chain) && d in l.chains && c !in chain && Freed(u, v', chain)
    requires d in TakenLayout(l, chain).chains
             && Inv(u, Grown(TakenLayout(l, chain), d, c), TakenLoose(loose, chain), {d})
    ensures Inv(v', Grown(l, d, c), loose, {d})
  {
    if chain == [] {
      NothingFreed(u, v');
      RolledBackMatches(u, v', Grown(l, d, c), loose, {d});
    } else {
      GrownTakenReleased(l, chain, d, c);
      ReleasedMatches(u, v', Grown(Taken(l, chain), d, c), loose + {chain[0]}, {d}, chain[0]);
      assert loose + {chain[0]} - {chain[0]} == loose;
    }
  }

  lemma DataStillKept(v: Vol, w: Vol, v': Vol, l: Layout, loose: set<nat>, chain: seq<nat>)
    requires FreshOnly(v, w, chain) && FreshChain(l, loose, chain) && DataKept(w, v', TakenLayout(l, chain))
    ensures DataKept(v, v', l)
  {
    forall e: nat | DataCluster(l, e) && e < |v.heap| ensures v'.heap[e] == v.heap[e] {
      assert e !in chain;
      assert DataCluster(TakenLayout(l, chain), e);
    }
  }

  lemma StillUnwritten(v: Vol, w: Vol, v': Vol, l: Layout, loose: set<nat>, chain: seq<nat>, d: nat, c: nat)
    requires FreshOnly(v, w, chain) && FreshChain(l, loose, chain) && Unwritten(w, v', TakenLayout(l, chain), d, c)
             && c !in chain
    ensures Unwritten(v, v', l, d, c)
  {
    forall e: nat {:trigger v'.heap[e]} | e < |v.heap| && (e == c || (e in l.owner && l.owner[e] == d))
        ensures v'.heap[e] == v.heap[e] {
      assert e !in chain;
      assert e == c || (e in TakenLayout(l, chain).owner && TakenLayout(l, chain).owner[e] == d);
    }
  }

  lemma FullIsLeft(v: Vol, w: Vol, u: Vol, v': Vol, l: Layout, loose: set<nat>, d: nat, chain: seq<nat>, c: nat)
    requires FreshChain(l, loose, chain) && FreshOnly(v, w, chain) && d in l.chains && d in TakenLayout(l, chain).chains
    requires GrownUnwritten(w, u, TakenLayout(l, chain), TakenLoose(loose, chain), d, c) && Freed(u, v', chain)
    ensures GrownUnwritten(v, v', l, loose, d, c)
  {
    assert forall e :: e in chain ==> e in TakenLayout(l, chain).owner;
    GrownIsLeft(u, v', l, loose, chain, d, c);
    DataStillKept(v, w, u, l, loose, chain);
    StillUnwritten(v, w, u, l, loose, chain, d, c);
  }

  // ---- A chain in hand and a directory to list it in ---------------------------------------------

  lemma TakenDirSame(v: Vol, v': Vol, l: Layout, loose: set<nat>, chain: seq<nat>, d: nat)
    requires Inv(v, l, loose, {}) && d in l.depth && FreshChain(l, loose, chain)
             && v' == v.(fat := v'.fat, bitmap := v'.bitmap, hint := v'.hint)
    ensures DirSame(v, v', l, TakenLayout(l, chain), d)
  {
    ChainInHeap(v, l, loose, {}, d);
  }

  lemma DirSameTwice(v: Vol, v1: Vol, v2: Vol, l: Layout, l1: Layout, d: nat)
    requires DirSame(v, v1, l, l1, d) && DirSame(v1, v2, l1, l1, d)
    ensures DirSame(v, v2, l, l1, d)
  {
  }

  lemma FreshChainInHeap(v: Vol, l: Layout, loose: set<nat>, chain: seq<nat>, t: Tree)
    requires Good(v, TakenLayout(l, chain), TakenLoose(loose, chain), t)
    ensures InHeap(v, chain) && Distinct(chain)
  {
    if chain != [] {
      ChainInHeap(v, Taken(l, chain), loose + {chain[0]}, {}, chain[0]);
      assert ChainOwned(Taken(l, chain), chain[0]);
    }
  }

  /** The chain is fresh and filled, and everything else is as it was. */
  ghost predicate Ready(v: Vol, w: Vol, l: Layout, loose: set<nat>, t: Tree, d: nat, chain: seq<nat>) {
    && FreshChain(l, loose, chain) && FreshOnly(v, w, chain) && InHeap(w, chain)
      && Good(w, TakenLayout(l, chain), TakenLoose(loose, chain), t)
    && DirSame(v, w, l, TakenLayout(l, chain), d) && |v.bitmap| == v.clusterCount + 2
      && |FreeClusters(w)| == |FreeClusters(v)| - |chain|
  }

  /** The chain has been taken (`u`) and then filled (`w`). */
  lemma FilledIsReady(v: Vol, u: Vol, w: Vol, l: Layout, loose: set<nat>, t: Tree, d: nat, chain: seq<nat>)
    requires Inv(v, l, loose, {}) && d in l.depth && FreshChain(l, loose, chain)
             && u == v.(fat := u.fat, bitmap := u.bitmap, hint := u.hint)
    requires Good(u, TakenLayout(l, chain), TakenLoose(loose, chain), t) && FreshOnly(v, u, chain)
    requires |FreeClusters(u)| == |FreeClusters(v)| - |chain| && HeapWritten(u, w, chain) && InHeap(w, chain)
    ensures Ready(v, w, l, loose, t, d, chain)
  {
    TakenDirSame(v, u, l, loose, chain, d);
    FreshWritten(u, w, l, loose, chain, d, t);
    DirSameTwice(v, u, w, l, TakenLayout(l, chain), d);
    assert FreeClusters(w) == FreeClusters(u);
  }

  /** The search for the parent of a directory ends as it would have before the chain was taken. */
  lemma SureAsBefore(v: Vol, w: Vol, l: Layout, loose: set<nat>, chain: seq<nat>, d: nat)
    requires Sound(l, loose) && Sound(TakenLayout(l, chain), TakenLoose(loose, chain)) && FreshChain(l, loose, chain)
    requires w.cache == v.cache && w.root == v.root == l.root && w.entriesPerCluster == v.entriesPerCluster
    ensures SureToGrow(w, TakenLayout(l, chain), d) <==> SureToGrow(v, l, d)
  {
    forall b | b in l.depth
        ensures b in l.chains && b in TakenLayout(l, chain).chains && TakenLayout(l, chain).chains[b] == l.chains[b] {}
    PathReadSame(WithRemembered(v, d), WithRemembered(w, d), l, TakenLayout(l, chain), v.root, d);
  }

  lemma SameInstallError(v: Vol, w: Vol, l: Layout, l': Layout, d: nat, name: Name, isDirectory: bool, replace: bool,
                         spare: nat)
    requires DirSame(v, w, l, l', d) && (SureToGrow(w, l', d) <==> SureToGrow(v, l, d))
             && RequiredEntryCount(|name|).Some?
    ensures InstallError(w, l', d, name, isDirectory, replace, spare)
            == InstallError(v, l, d, name, isDirectory, replace, spare)
  {
  }

  /** And so does the whole installation, with what is left of the free clusters. */
  lemma EndsAsBefore(v: Vol, w: Vol, l: Layout, loose: set<nat>, t: Tree, d: nat, chain: seq<nat>, name: Name,
                     isDirectory: bool, replace: bool, spare: nat)
    requires Inv(v, l, loose, {}) && Ready(v, w, l, loose, t, d, chain) && RequiredEntryCount(|name|).Some?
    ensures InstallError(w, TakenLayout(l, chain), d, name, isDirectory, replace, spare)
            == InstallError(v, l, d, name, isDirectory, replace, spare)
  {
    SureAsBefore(v, w, l, loose, chain, d);
    SameInstallError(v, w, l, TakenLayout(l, chain), d, name, isDirectory, replace, spare);
  }

  /** However the installation failed: the clusters taken for the stream are free again. */
  lemma NotInstalled(v: Vol, w: Vol, u: Vol, v': Vol, l: Layout, loose: set<nat>, t: Tree, d: nat, chain: seq<nat>,
                     e: Error)
    requires Inv(v, l, loose, {}) && d in l.depth && Ready(v, w, l, loose, t, d, chain)
    requires HalfGrown(w, u, TakenLayout(l, chain), TakenLoose(loose, chain), d, e) && Freed(u, v', chain)
    ensures HalfDone(v, v', l, loose, t, d, e)
  {
    if e == MetadataNotFound {
      var c, info :| Linking(w, u, TakenLayout(l, chain), d, c, info);
      FreshApart(v, w, l, loose, t, d, chain);
      LinkedIsLeft(v, w, u, v', l, loose, d, chain, c, info);
    } else if e == DirectoryFull {
      var c :| GrownUnwritten(w, u, TakenLayout(l, chain), TakenLoose(loose, chain), d, c);
      FullIsLeft(v, w, u, v', l, loose, d, chain, c);
    } else {
      HeapSameView(w, u, TakenLayout(l, chain), TakenLoose(loose, chain), t);
      ChainGivenBack(u, v', chain, l, loose, t);
    }
  }
}
