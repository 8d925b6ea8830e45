/**
  Deleting an entry. A directory must pass for empty, which it does when no set ends within the
  length the engine knows of it: then it is deleted, and what lay behind that length is orphaned.
 */
module ExFatDeleting {
  import opened Bytes
  import opened ExFatEntrySet
  import opened ExFatParse
  import opened ExFatScan
  import opened ExFatDirectory
  import opened ExFatChains
  import opened ExFatAllocator
  import opened ExFatLayout
  import opened ExFatInvariant
  import opened ExFatReading
  import opened ExFatStreams
  import opened ExFatInstall
  import opened ExFatNames
  import opened ExFatView
  import opened ExFatData
  import opened ExFatTaking
  import opened ExFatOperations
  import opened ExFatListing

  lemma NotItself(l: Layout, loose: set<nat>, d: nat, x: SetInfo)
    requires Sound(l, loose) && d in l.depth && d in l.live && x in l.live[d]
    ensures x.firstCluster != d
            && (x.isDirectory ==>
              x.firstCluster in l.depth && x.firstCluster in l.live && x.firstCluster != l.root && x.firstCluster >= 2)
    ensures x.firstCluster >= 2 ==> Measures(l, x) && x.firstCluster !in loose
  {
    StreamsOwnFirst(l, loose);
    assert LiveOk(l, d, x);
    if x.firstCluster >= 2 { assert RefOk(l, x.firstCluster); }
  }

  // ---- What deleting does ---------------------------------------------------------------------------

  /** How deleting ends before anything is touched, each reason something the caller can check beforehand. */
  ghost function DeleteError(v: Vol, l: Layout, d: nat, name: Name, wanted: Option<bool>): (e: Option<Error>)
    requires d in l.chains && InHeap(v, l.chains[d])
  {
    var target := Find(Table(Contents(v.heap, l.chains[d])), 0, name);
    if target.None? then Some(NotFound)
    else if wanted.Some? && target.value.isDirectory != wanted.value then Some(WrongType)
    else if target.value.isDirectory && !PassesForEmpty(v, l, target.value.firstCluster) then Some(NotEmpty)
    else None
  }

  ghost predicate PassesForEmpty(v: Vol, l: Layout, a: nat) {
    a in l.chains && a in l.live && ListedSets(v, l, a) == {}
  }

  /** That is so exactly when every set of the directory ends behind the length that is known of it. */
  lemma WhenEmpty(v: Vol, l: Layout, loose: set<nat>, a: nat)
    requires Sound(l, loose) && a in l.depth
    ensures PassesForEmpty(v, l, a) <==> forall x :: x in l.live[a] ==> ListedCount(v, l, a) < x.index + x.count
  {
    if !PassesForEmpty(v, l, a) { var x :| x in ListedSets(v, l, a); }
    forall x | x in l.live[a] && x.index + x.count <= ListedCount(v, l, a) ensures x in ListedSets(v, l, a) {}
  }

  /** What the errors say about the live sets of the directory. */
  lemma DeleteErrors(v: Vol, l: Layout, loose: set<nat>, d: nat, name: Name, wanted: Option<bool>)
    requires Inv(v, l, loose, {}) && d in l.depth
    ensures InHeap(v, l.chains[d])
    ensures var e := DeleteError(v, l, d, name, wanted);
            && (e == Some(NotFound) <==> forall x :: x in l.live[d] ==> !EqIgnoreCase(x.name, name))
            && (e == Some(WrongType) <==>
                  exists x ::
                    x in l.live[d] && EqIgnoreCase(x.name, name) && wanted.Some? && x.isDirectory != wanted.value)
            && (e == Some(NotEmpty) <==>
                  exists x ::
                    && x in l.live[d] && EqIgnoreCase(x.name, name) && (wanted.Some? ==> x.isDirectory == wanted.value)
                    && x.isDirectory && !PassesForEmpty(v, l, x.firstCluster))
  {
    ChainInHeap(v, l, loose, {}, d);
    var entries := Contents(v.heap, l.chains[d]);
    assert DirOk(v, l, d);
    FindIsLookup(Table(entries), 0, name);
    assert NamesOk(l.live[d]);
    var target := Find(Table(entries), 0, name);
    if target.Some? { OnlyOne(l.live[d], target.value, name); }
  }

  /**
    A directory that still held sets is gone: its parent does not list it any more and its clusters
    are free, while every other cluster keeps its mark, its link and its contents, so that what was
    in the directory takes up space and cannot be reached.
   */
  ghost predicate Orphaned(v: Vol, v': Vol, l: Layout, d: nat, x: SetInfo) {
    && d in l.chains && d in l.live && x.firstCluster in l.chains && v'.clusterCount == v.clusterCount
    && |v'.fat| == |v.fat| == |v'.bitmap| == |v.bitmap| == |v'.heap| == |v.heap| == v.clusterCount + 2
    && InHeap(v', l.chains[d]) && DirHolds(Contents(v'.heap, l.chains[d]), l.live[d] - {x})
    && (forall c :: 0 <= c < |v.heap| && c !in l.chains[d] ==> v'.heap[c] == v.heap[c])
    && (forall c :: 0 <= c < |v.bitmap| ==> v'.bitmap[c] == (v.bitmap[c] && c !in l.chains[x.firstCluster]))
    && (forall c :: 0 <= c < |v.fat| && c !in l.chains[x.firstCluster] ==> v'.fat[c] == v.fat[c])
  }

  /** The entry `x` of directory `d` is gone and its stream given back, or lost if its chain is too long. */
  ghost predicate Gone(v: Vol, v': Vol, l: Layout, loose: set<nat>, t: Tree, d: nat, x: SetInfo, l': Layout,
                       loose': set<nat>) {
    if MayRemove(l, d, x) then d in t && Lost(l, loose, loose')
        && Good(v', l', loose', Without(t, d, x)) else Orphaned(v, v', l, d, x)
  }

  /** How deleting under a valid name ends. A chain that is too long is lost, and only after the entry is gone. */
  ghost predicate DeleteOutcome(v: Vol, v': Vol, l: Layout, loose: set<nat>, t: Tree, d: nat, name: Name,
                                wanted: Option<bool>,
                                r: Result<()>, l': Layout, loose': set<nat>, x: Option<SetInfo>) {
    && Addressed(v, l, t, d, name) && d in l.live
    && var e := DeleteError(v, l, d, name, wanted);
    if e.Some? then
      r == Err(e.value) && l' == l && loose' == loose && x.None? && Good(v', l, loose, t) && v' == v.(cache := v'.cache)
    else
      && x == Find(Table(Contents(v.heap, l.chains[d])), 0, name) && x.Some? && x.value in l.live[d]
        && EqIgnoreCase(x.value.name, name)
      && r == (if TooLong(l, x.value.firstCluster) then Err(ChainLoop) else Ok(()))
      && Gone(v, v', l, loose, t, d, x.value, l', loose')
  }

  // ---- The operation ----------------------------------------------------------------------------------

  /** The set is taken out of use and the directory is written back. */
  method RemoveSet(disk: Volume, buffer: DirBuffer, x: SetInfo, ghost l: Layout, ghost loose: set<nat>, ghost d: nat)
    requires Inv(disk.V(), l, loose, {}) && d in l.depth && WholeBuffer(disk.V(), l, d, buffer)
             && DirHolds(buffer.entries, l.live[d]) && x in l.live[d]
    modifies disk
    ensures HeapWritten(old(disk.V()), disk.V(), l.chains[d]) && InHeap(disk.V(), l.chains[d])
    ensures DirHolds(Contents(disk.heap, l.chains[d]), l.live[d] - {x})
  {
    ghost var v := disk.V();
    var entries := MarkEntrySetInactive(buffer.entries, x.index, x.count);
    RemovalEdit(buffer.entries, x, entries);
    assert ChainOwned(l, d);
    WriteDir(disk, buffer.chain, entries);
    WrittenIsRead(v.heap, buffer.chain, entries, disk.entriesPerCluster);
  }

  lemma RemovedMeasures(l: Layout, d: nat, x: SetInfo)
    requires d in l.live && Measures(l, x)
    ensures Measures(Removed(l, d, x), x) && (TooLong(Removed(l, d, x), x.firstCluster) <==> TooLong(l, x.firstCluster))
  {
  }

  lemma OnlyTooLong(l: Layout, loose: set<nat>, d: nat, x: SetInfo, ok: bool, loose': set<nat>)
    requires d in l.live && (x.firstCluster >= 2 ==> x.firstCluster !in loose)
    requires ok <==> !(x.firstCluster >= 2 && TooLong(Removed(l, d, x), x.firstCluster))
    requires loose' == if ok then loose + OneStream(x) - OneStream(x) else loose + OneStream(x)
    ensures Lost(l, loose, loose') && (x.firstCluster >= 2 ==> (ok <==> !TooLong(l, x.firstCluster)))
  {
  }

  lemma RemovedIsGood(v: Vol, u: Vol, l: Layout, loose: set<nat>, t: Tree, d: nat, x: SetInfo)
    requires Good(v, l, loose, t) && MayRemove(l, d, x) && HeapWritten(v, u, l.chains[d]) && InHeap(u, l.chains[d])
    requires DirHolds(Contents(u.heap, l.chains[d]), l.live[d] - {x})
    ensures d in t && Good(u, Removed(l, d, x), loose + OneStream(x), Without(t, d, x))
  {
    NotItself(l, loose, d, x);
    ChainInHeap(v, l, loose, {}, d);
    RemovedMatches(v, u, l, loose, d, x);
    RemovedView(v, u, l, loose, d, x, t);
  }

  lemma StreamChainStays(v: Vol, u: Vol, x: SetInfo)
    requires Shape(v) && Shape(u) && u == v.(heap := u.heap)
    ensures StreamChain(u, x) == StreamChain(v, x)
  {
    if !x.noFatChain {
      WalkStays(v, u, x.firstCluster, CeilDiv(Max(Max(x.dataLength, x.validLength), 1), ClusterBytes(v)) + 1, 0);
    }
  }

  lemma {:induction false} WalkStays(v: Vol, u: Vol, current: nat, max: nat, k: nat)
    requires |v.fat| == v.clusterCount + 2 && u == v.(heap := u.heap)
    ensures Walk(u, current, max, k) == Walk(v, current, max, k)
    decreases WALK_GUARD + 1 - k
  {
    if ValidCluster(v, current) && k + 1 < max && k + 1 <= WALK_GUARD { WalkStays(v, u, v.fat[current], max, k + 1); }
  }

  /** A directory with sets in it: its chain is short, so its clusters are given back. */
  lemma FreedIsOrphaned(v: Vol, u: Vol, v': Vol, l: Layout, loose: set<nat>, d: nat, x: SetInfo)
    requires Inv(v, l, loose, {}) && d in l.depth && x in l.live[d] && x.isDirectory && HeapWritten(v, u, l.chains[d])
             && InHeap(u, l.chains[d])
    requires DirHolds(Contents(u.heap, l.chains[d]), l.live[d] - {x})
    requires StreamChain(u, x).Some? ==> Freed(u, v', StreamChain(u, x).value)
    ensures StreamChain(u, x).Some? && !TooLong(l, x.firstCluster) && Orphaned(v, v', l, d, x)
  {
    NotItself(l, loose, d, x);
    StreamChainIs(v, l, loose, {}, x);
    StreamChainStays(v, u, x);
    ChainInHeap(v, l, loose, {}, x.firstCluster);
  }

  lemma RemovedAndFreed(v: Vol, u: Vol, v': Vol, l: Layout, loose: set<nat>, t: Tree, d: nat, x: SetInfo, ok: bool)
    requires Good(v, l, loose, t) && MayRemove(l, d, x) && HeapWritten(v, u, l.chains[d]) && InHeap(u, l.chains[d])
    requires DirHolds(Contents(u.heap, l.chains[d]), l.live[d] - {x}) && StreamFreed(u, v', x, ok)
    ensures d in t && (ok <==> !TooLong(l, x.firstCluster))
    ensures var loose' := if ok then loose + OneStream(x) - OneStream(x) else loose + OneStream(x);
            Lost(l, loose, loose') && Good(v', FreedLayout(Removed(l, d, x), x, ok), loose', Without(t, d, x))
  {
    NotItself(l, loose, d, x);
    StreamsOwnFirst(l, loose);
    RemovedIsGood(v, u, l, loose, t, d, x);
    if x.firstCluster >= 2 { RemovedMeasures(l, d, x); }
    GivenBack(u, v', x, ok, Removed(l, d, x), loose + OneStream(x), Without(t, d, x));
    OnlyTooLong(l, loose, d, x, ok, if ok then loose + OneStream(x) - OneStream(x) else loose + OneStream(x));
  }

  /** The entry is removed and its stream given back. */
  method RemoveAndFree(disk: Volume, buffer: DirBuffer, x: SetInfo, ghost l: Layout, ghost loose: set<nat>,
                       ghost t: Tree, ghost d: nat)
    returns (ok: bool, ghost l': Layout, ghost loose': set<nat>)
    requires Good(disk.V(), l, loose, t) && d in l.depth && WholeBuffer(disk.V(), l, d, buffer)
             && DirHolds(buffer.entries, l.live[d]) && x in l.live[d]
    modifies disk
    ensures Gone(old(disk.V()), disk.V(), l, loose, t, d, x, l', loose') && (ok <==> !TooLong(l, x.firstCluster))
  {
    ghost var v := disk.V();
    l', loose' := l, loose;
    NotItself(l, loose, d, x);
    RemoveSet(disk, buffer, x, l, loose, d);
    ghost var u := disk.V();
    ok := FreeStream(disk, x);
    if MayRemove(l, d, x) {
      RemovedAndFreed(v, u, disk.V(), l, loose, t, d, x, ok);
      l' := FreedLayout(Removed(l, d, x), x, ok);
      loose' := if ok then loose + OneStream(x) - OneStream(x) else loose + OneStream(x);
    } else {
      FreedIsOrphaned(v, u, disk.V(), l, loose, d, x);
    }
  }

  /** Whether the entry may be deleted: a directory must pass for empty. */
  method CheckTarget(disk: Volume, x: SetInfo, wanted: Option<bool>, ghost l: Layout, ghost loose: set<nat>,
                     ghost t: Tree, ghost d: nat)
    returns (e: Option<Error>)
    requires Good(disk.V(), l, loose, t) && d in l.depth && d in l.live && x in l.live[d]
    modifies disk
    ensures disk.V() == old(disk.V()).(cache := disk.cache) && Good(disk.V(), l, loose, t)
    ensures e == if wanted.Some? && x.isDirectory != wanted.value then Some(WrongType)
                 else if x.isDirectory && !PassesForEmpty(old(disk.V()), l, x.firstCluster) then Some(NotEmpty)
                 else None
  {
    NotItself(l, loose, d, x);
    if wanted.Some? && x.isDirectory != wanted.value { return Some(WrongType); }
    if x.isDirectory {
      var empty := DirectoryIsEmpty(disk, x.firstCluster, l, loose, t);
      if !empty { return Some(NotEmpty); }
    }
    return None;
  }

  lemma BufferStill(v: Vol, v': Vol, l: Layout, d: nat, buffer: DirBuffer)
    requires WholeBuffer(v, l, d, buffer) && v' == v.(cache := v'.cache)
    ensures WholeBuffer(v', l, d, buffer)
  {
  }

  /** That the cache changed before the entry was removed makes no difference. */
  lemma GoneStill(v: Vol, w: Vol, v': Vol, l: Layout, loose: set<nat>, t: Tree, d: nat, x: SetInfo, l': Layout,
                  loose': set<nat>)
    requires Gone(w, v', l, loose, t, d, x, l', loose') && w == v.(cache := w.cache)
    ensures Gone(v, v', l, loose, t, d, x, l', loose')
  {
  }

  /**
    `exfat_delete_entry_in_dir`. That the entry is the root directory (line 4223) cannot happen:
    no entry of a sound volume refers to the root.
   */
  method DeleteNamed(disk: Volume, dirCluster: nat, name: Name, wanted: Option<bool>, ghost l: Layout,
                     ghost loose: set<nat>, ghost t: Tree)
    returns (r: Result<()>, ghost l': Layout, ghost loose': set<nat>, ghost x: Option<SetInfo>)
    requires Good(disk.V(), l, loose, t) && PlainName(name)
             && Usable(disk.V(), l, NormalizedDir(disk.V(), dirCluster), None)
    modifies disk
    ensures DeleteOutcome(old(disk.V()), disk.V(), l, loose, t, NormalizedDir(old(disk.V()), dirCluster), name, wanted,
            r, l', loose', x)
  {
    l', loose', x := l, loose, None;
    ghost var v, d := disk.V(), NormalizedDir(disk.V(), dirCluster);
    WellAddressed(v, l, loose, t, d, name);
    var buffer, target := OpenAndFind(disk, dirCluster, name, l, loose);
    if target.None? { return Err(NotFound), l', loose', x; }
    var refused := CheckTarget(disk, target.value, wanted, l, loose, t, d);
    if refused.Some? { return Err(refused.value), l', loose', x; }
    ghost var w := disk.V();
    BufferStill(v, w, l, d, buffer);
    x := target;
    var ok;
    ok, l', loose' := RemoveAndFree(disk, buffer, target.value, l, loose, t, d);
    GoneStill(v, w, disk.V(), l, loose, t, d, target.value, l', loose');
    if !ok { return Err(ChainLoop), l', loose', x; }
    return Ok(()), l', loose', x;
  }

  method DeleteEntry(disk: Volume, dirCluster: nat, text: seq<nat>, wanted: Option<bool>, ghost l: Layout,
                     ghost loose: set<nat>, ghost t: Tree)
    returns (r: Result<()>, ghost l': Layout, ghost loose': set<nat>, ghost x: Option<SetInfo>)
    requires Good(disk.V(), l, loose, t) && Usable(disk.V(), l, NormalizedDir(disk.V(), dirCluster), None)
    modifies disk
    ensures NameOf(text).None? ==> r.Err? && NameError(r.error) && disk.V() == old(disk.V())
    ensures NameOf(text).Some? ==>
              DeleteOutcome(old(disk.V()), disk.V(), l, loose, t, NormalizedDir(old(disk.V()), dirCluster),
                  NameOf(text).value, wanted, r, l', loose', x)
  {
    var valid := ValidateName(text);
    if valid.Err? { return Err(valid.error), l, loose, None; }
    r, l', loose', x := DeleteNamed(disk, dirCluster, valid.value, wanted, l, loose, t);
  }
}
