/**
  The file system a volume stands for: for every directory a map from names, in upper case, to
  files with their bytes and to directories. `Represents` ties a volume to such a tree; the
  lemmas say what the steps of the operations do to it.
 */
module ExFatView {
  import opened Bytes
  import opened ExFatEntrySet
  import opened ExFatParse
  import opened ExFatScan
  import opened ExFatChains
  import opened ExFatAllocator
  import opened ExFatLayout
  import opened ExFatInvariant
  import opened ExFatGrowth
  import opened ExFatInstall

  datatype Node = File(data: seq<Byte>) | Directory(cluster: nat)

  type Listing = map<Name, Node>

  type Tree = map<nat, Listing>

  /** Names are compared without regard to case. */
  function UpperName(name: Name): (u: Name)
    ensures |u| == |name| && forall i :: 0 <= i < |name| ==> u[i] == Upper(name[i])
  {
    seq(|name|, i requires 0 <= i < |name| => Upper(name[i]))
  }

  lemma SameUpperName(a: Name, b: Name)
    ensures EqIgnoreCase(a, b) <==> UpperName(a) == UpperName(b)
  {
    if UpperName(a) == UpperName(b) {
      forall i | 0 <= i < |a| ensures Upper(a[i]) == Upper(b[i]) { assert UpperName(a)[i] == UpperName(b)[i]; }
    }
  }

  /** The first `length` bytes of a stream's entries. */
  function StreamBytes(entries: seq<Entry>, length: nat): (s: seq<Byte>) {
    seq(Min(length, 32 * |entries|), j requires 0 <= j < 32 * |entries| => entries[j / 32][j % 32])
  }

  ghost function FileData(v: Vol, l: Layout, x: SetInfo): (s: seq<Byte>) {
    if x.firstCluster in l.chains && InHeap(v, l.chains[x.firstCluster])
    then StreamBytes(Contents(v.heap, l.chains[x.firstCluster]), x.dataLength) else []
  }

  ghost function NodeOf(v: Vol, l: Layout, x: SetInfo): (n: Node) {
    if x.isDirectory then Directory(x.firstCluster) else File(FileData(v, l, x))
  }

  ghost predicate HasName(live: set<SetInfo>, name: Name) { exists x :: x in live && UpperName(x.name) == name }

  ghost predicate Listed(v: Vol, l: Layout, x: SetInfo, m: Listing) {
    UpperName(x.name) in m && m[UpperName(x.name)] == NodeOf(v, l, x)
  }

  /** The listing has a node for every live set and no others. */
  ghost predicate Lists(v: Vol, l: Layout, d: nat, m: Listing) {
    && d in l.live
    && (forall x {:trigger Listed(v, l, x, m)} :: x in l.live[d] ==> Listed(v, l, x, m))
    && (forall k {:trigger HasName(l.live[d], k)} :: k in m ==> HasName(l.live[d], k))
  }

  ghost predicate Represents(v: Vol, l: Layout, t: Tree) {
    t.Keys == l.live.Keys && forall d {:trigger Lists(v, l, d, t[d])} :: d in t ==> Lists(v, l, d, t[d])
  }

  // ---- Files that keep their bytes ----------------------------------------------------------------

  ghost predicate FileSame(v: Vol, v': Vol, l: Layout, l': Layout, a: nat) {
    && a in l.chains && a in l'.chains && l'.chains[a] == l.chains[a] && InHeap(v, l.chains[a])
      && InHeap(v', l.chains[a])
    && Contents(v'.heap, l.chains[a]) == Contents(v.heap, l.chains[a])
  }

  lemma DataSame(v: Vol, v': Vol, l: Layout, l': Layout, loose: set<nat>, skip: set<nat>, a: nat)
    requires Inv(v, l, loose, skip) && a in l.chains && a !in l.depth && DataKept(v, v', l)
    requires a in l'.chains && l'.chains[a] == l.chains[a]
    ensures FileSame(v, v', l, l', a)
  {
    ChainInHeap(v, l, loose, skip, a);
    var chain := l.chains[a];
    assert ChainOwned(l, a);
    forall i | 0 <= i < |chain| ensures v.heap[chain[i]] == v'.heap[chain[i]] {
      assert chain[i] in chain && DataCluster(l, chain[i]);
    }
    ContentsLocal(v.heap, v'.heap, chain);
  }

  /** A live set keeps its node when its stream keeps its bytes. */
  lemma NodeSame(v: Vol, v': Vol, l: Layout, l': Layout, loose: set<nat>, d: nat, x: SetInfo)
    requires Sound(l, loose) && d in l.live && x in l.live[d]
    requires x.firstCluster in l.ref && x.firstCluster !in l.depth ==> FileSame(v, v', l, l', x.firstCluster)
    requires x.firstCluster < 2 ==> x.firstCluster !in l'.chains
    ensures NodeOf(v', l', x) == NodeOf(v, l, x)
  {
    StreamsOwnFirst(l, loose);
    assert LiveOk(l, d, x);
    if x.firstCluster >= 2 { assert RefOk(l, x.firstCluster); }
  }

  /** A directory whose sets are as before lists what it listed before. */
  lemma ListsSame(v: Vol, v': Vol, l: Layout, l': Layout, loose: set<nat>, loose': set<nat>, d: nat, m: Listing)
    requires Sound(l, loose) && Sound(l', loose') && Lists(v, l, d, m) && d in l'.live && l'.live[d] == l.live[d]
    requires forall x :: x in l.live[d] && x.firstCluster in l.ref && x.firstCluster !in l.depth ==>
               FileSame(v, v', l, l', x.firstCluster)
    ensures Lists(v', l', d, m)
  {
    StreamsOwnFirst(l', loose');
    forall x | x in l'.live[d] ensures Listed(v', l', x, m) {
      assert Listed(v, l, x, m);
      NodeSame(v, v', l, l', loose, d, x);
    }
  }

  /** Nothing but clusters without an entry has changed. */
  lemma RepresentsSame(v: Vol, v': Vol, l: Layout, l': Layout, loose: set<nat>, loose': set<nat>, t: Tree)
    requires Sound(l, loose) && Sound(l', loose') && Represents(v, l, t) && l'.live == l.live
    requires forall a {:trigger FileSame(v, v', l, l', a)} :: a in l.ref && a !in l.depth ==> FileSame(v, v', l, l', a)
    ensures Represents(v', l', t)
  {
    forall d | d in t ensures Lists(v', l', d, t[d]) {
      assert Lists(v, l, d, t[d]);
      ListsSame(v, v', l, l', loose, loose', d, t[d]);
    }
  }

  lemma TakenView(v: Vol, v': Vol, l: Layout, loose: set<nat>, chain: seq<nat>, t: Tree)
    requires Inv(v, l, loose, {}) && Allocated(v, v', chain) && |chain| > 0 && Represents(v, l, t)
    ensures Represents(v', Taken(l, chain), t)
  {
    TakenMatches(v, v', l, loose, {}, chain);
    RefsNotLoose(l, loose);
    forall a | a in l.ref && a !in l.depth ensures FileSame(v, v', l, Taken(l, chain), a) {
      DataSame(v, v', l, Taken(l, chain), loose, {}, a);
    }
    RepresentsSame(v, v', l, Taken(l, chain), loose, loose + {chain[0]}, t);
  }

  lemma WrittenView(v: Vol, v': Vol, l: Layout, loose: set<nat>, a: nat, t: Tree)
    requires Inv(v, l, loose, {}) && a in loose && a in l.chains && HeapWritten(v, v', l.chains[a])
             && Represents(v, l, t)
    ensures Represents(v', l, t)
  {
    RefsNotLoose(l, loose);
    forall b | b in l.ref && b !in l.depth ensures FileSame(v, v', l, l, b) {
      ChainInHeap(v, l, loose, {}, b);
      OtherContentsKept(v, v', l, a, b);
    }
    RepresentsSame(v, v', l, l, loose, loose, t);
  }

  lemma ReleasedView(v: Vol, v': Vol, l: Layout, loose: set<nat>, a: nat, t: Tree)
    requires Inv(v, l, loose, {}) && a in loose && a in l.chains && v'.heap == v.heap && Represents(v, l, t)
    ensures Represents(v', Released(l, a), t)
  {
    ReleasedSound(l, loose, a);
    RefsNotLoose(l, loose);
    forall b | b in l.ref && b !in l.depth ensures FileSame(v, v', l, Released(l, a), b) {
      ChainInHeap(v, l, loose, {}, b);
    }
    RepresentsSame(v, v', l, Released(l, a), loose, loose - {a}, t);
  }

  lemma HeapSameView(v: Vol, v': Vol, l: Layout, loose: set<nat>, t: Tree)
    requires Inv(v, l, loose, {}) && v'.heap == v.heap && Represents(v, l, t)
    ensures Represents(v', l, t)
  {
    RefsNotLoose(l, loose);
    forall b | b in l.ref && b !in l.depth ensures FileSame(v, v', l, l, b) { ChainInHeap(v, l, loose, {}, b); }
    RepresentsSame(v, v', l, l, loose, loose, t);
  }

  // ---- Installing -----------------------------------------------------------------------------------

  lemma ListsInstalled(v: Vol, v': Vol, l: Layout, l': Layout, loose: set<nat>, loose': set<nat>, d: nat,
                       x: set<SetInfo>, new_: SetInfo, m: Listing)
    requires Sound(l, loose) && Sound(l', loose') && Lists(v, l, d, m) && d in l'.live
             && l'.live[d] == l.live[d] - x + {new_}
    requires (forall y :: y in x ==> EqIgnoreCase(y.name, new_.name))
             && (forall y :: y in l.live[d] - x ==> !EqIgnoreCase(y.name, new_.name))
    requires forall y :: y in l.live[d] - x && y.firstCluster in l.ref && y.firstCluster !in l.depth ==>
               FileSame(v, v', l, l', y.firstCluster)
    ensures Lists(v', l', d, m[UpperName(new_.name) := NodeOf(v', l', new_)])
  {
    var u := UpperName(new_.name);
    var m' := m[u := NodeOf(v', l', new_)];
    StreamsOwnFirst(l', loose');
    forall y | y in l'.live[d] ensures Listed(v', l', y, m') {
      if y != new_ {
        assert Listed(v, l, y, m);
        SameUpperName(y.name, new_.name);
        NodeSame(v, v', l, l', loose, d, y);
      }
    }
    forall k | k in m' ensures HasName(l'.live[d], k) {
      if k == u {
        assert new_ in l'.live[d];
      } else {
        assert HasName(l.live[d], k);
        var y :| y in l.live[d] && UpperName(y.name) == k;
        SameUpperName(y.name, new_.name);
        assert y in l'.live[d];
      }
    }
  }

  /** A directory entry with new lengths is listed as before. */
  lemma ListsRefreshed(v: Vol, v': Vol, l: Layout, l': Layout, loose: set<nat>, loose': set<nat>, p: nat, x: SetInfo,
                       x': SetInfo, m: Listing)
    requires Sound(l, loose) && Sound(l', loose') && Lists(v, l, p, m) && p in l'.live && x in l.live[p]
             && l'.live[p] == l.live[p] - {x} + {x'}
    requires x.isDirectory && x'.isDirectory && x'.name == x.name && x'.firstCluster == x.firstCluster
    requires forall y :: y in l.live[p] && y.firstCluster in l.ref && y.firstCluster !in l.depth ==>
               FileSame(v, v', l, l', y.firstCluster)
    ensures Lists(v', l', p, m)
  {
    StreamsOwnFirst(l', loose');
    forall y | y in l'.live[p] ensures Listed(v', l', y, m) {
      if y == x' {
        assert Listed(v, l, x, m);
      } else {
        assert Listed(v, l, y, m);
        NodeSame(v, v', l, l', loose, p, y);
      }
    }
    forall k | k in m ensures HasName(l'.live[p], k) {
      assert HasName(l.live[p], k);
      var y :| y in l.live[p] && UpperName(y.name) == k;
      var y' := if y == x then x' else y;
      assert y' in l'.live[p] && UpperName(y'.name) == k;
    }
  }

  /** What a tree becomes when a node is put under a name of directory `d`. */
  function Put(t: Tree, d: nat, name: Name, node: Node): (r: Tree)
    requires d in t
  {
    var r := t[d := t[d][UpperName(name) := node]];
    if node.Directory? then r[node.cluster := map[]] else r
  }

  function Placement(l: Layout, d: nat, old_: Option<SetInfo>, new_: SetInfo, grew: Option<nat>): (r: Layout)
    requires d in Base(l, d, grew).live && d in Base(l, d, grew).depth
  {
    Installed(Base(l, d, grew), d, AsSet(old_), new_)
  }

  /** A set spelt `name` that says all of its stream's `length` bytes are in use and its clusters are chained. */
  ghost predicate IsRecord(x: SetInfo, name: Name, isDirectory: bool, length: nat) {
    x.name == name && x.isDirectory == isDirectory && x.dataLength == length && x.validLength == length && !x.noFatChain
  }

  ghost predicate Records(l: Layout, d: nat, name: Name, isDirectory: bool, length: nat) {
    d in l.live && exists x {:trigger IsRecord(x, name, isDirectory, length)} ::
                     x in l.live[d] && IsRecord(x, name, isDirectory, length)
  }

  lemma PlacedRecord(v: Vol, v': Vol, l: Layout, loose: set<nat>, d: nat, name: Name, s: Stream, length: nat,
                     old_: Option<SetInfo>, new_: SetInfo, grew: Option<nat>)
    requires InstalledAs(v, v', l, loose, d, name, s, old_, new_, grew)
    requires s.dataLength == length && s.validLength == length && !s.noFatChain
    requires s.isDirectory ==> s.firstCluster != d
    ensures Records(Placement(l, d, old_, new_, grew), d, name, s.isDirectory, length)
  {
    assert new_ in Placement(l, d, old_, new_, grew).live[d];
    assert IsRecord(new_, name, s.isDirectory, length);
  }

  /** The entry of `d` in directory `e` may have got new lengths. */
  ghost predicate LiveSame(l: Layout, l': Layout, d: nat, e: nat) {
    && e in l.live && e in l'.live && d in l'.chains
    && (l'.live[e] == l.live[e]
        || (&& d in l.ref && l.ref[d].info in l.live[e] && l.ref[d].info.isDirectory
            && var x := l.ref[d].info; l'.live[e] == l.live[e] - {x} + {GrownInfo(x, l.clusterBytes, |l'.chains[d]|)}))
  }

  /** What installing a set in directory `d` does to a layout. */
  ghost predicate PlacedLayout(l: Layout, l': Layout, d: nat, old_: Option<SetInfo>, new_: SetInfo) {
    && d in l.live && d in l'.live && d in l.chains && d in l'.chains
    && (forall a :: a in l.chains && a !in l.depth ==> a in l'.chains && l'.chains[a] == l.chains[a])
    && l'.live.Keys == l.live.Keys + (if new_.isDirectory then {new_.firstCluster} else {})
    && l'.live[d] == l.live[d] - AsSet(old_) + {new_}
    && (new_.isDirectory ==> new_.firstCluster !in l.live && l'.live[new_.firstCluster] == {})
    && (forall e {:trigger LiveSame(l, l', d, e)} :: e in l.live && e != d ==> LiveSame(l, l', d, e))
  }

  lemma PlacementOf(l: Layout, loose: set<nat>, d: nat, old_: Option<SetInfo>, new_: SetInfo, grew: Option<nat>)
    requires Sound(l, loose) && d in l.depth && (old_.Some? ==> grew.None?)
             && (new_.isDirectory ==> new_.firstCluster in loose)
    ensures d in Base(l, d, grew).live && d in Base(l, d, grew).depth
    ensures PlacedLayout(l, Placement(l, d, old_, new_, grew), d, old_, new_)
  {
    if d in l.ref { ParentDiffers(l, loose, d); }
    forall e | e in l.live && e != d ensures LiveSame(l, Placement(l, d, old_, new_, grew), d, e) {
      PlacementElsewhere(l, loose, d, old_, new_, grew, e);
    }
  }

  lemma PlacementElsewhere(l: Layout, loose: set<nat>, d: nat, old_: Option<SetInfo>, new_: SetInfo, grew: Option<nat>,
                           e: nat)
    requires Sound(l, loose) && d in l.depth && e in l.live && e != d
             && (new_.isDirectory ==> new_.firstCluster in loose)
    ensures d in Base(l, d, grew).live && d in Base(l, d, grew).depth
            && LiveSame(l, Placement(l, d, old_, new_, grew), d, e)
  {
    if d in l.ref {
      ParentDiffers(l, loose, d);
      assert RefOk(l, d);
    }
  }

  lemma PlacedFiles(v: Vol, v': Vol, l: Layout, l': Layout, loose: set<nat>, d: nat, old_: Option<SetInfo>,
                    new_: SetInfo)
    requires Inv(v, l, loose, {}) && DataKept(v, v', l) && PlacedLayout(l, l', d, old_, new_)
    ensures FilesSame(v, v', l, l')
  {
    RefsNotLoose(l, loose);
    forall a | a in l.ref && a !in l.depth ensures FileSame(v, v', l, l', a) { DataSame(v, v', l, l', loose, {}, a); }
  }

  ghost predicate FilesSame(v: Vol, v': Vol, l: Layout, l': Layout) {
    forall a {:trigger FileSame(v, v', l, l', a)} :: a in l.ref && a !in l.depth ==> FileSame(v, v', l, l', a)
  }

  /** A directory other than `d` lists what it listed before. */
  lemma PlacedElsewhere(v: Vol, v': Vol, l: Layout, l': Layout, loose: set<nat>, loose': set<nat>, d: nat, e: nat,
                        m: Listing)
    requires Sound(l, loose) && Sound(l', loose') && FilesSame(v, v', l, l') && d in l'.chains && LiveSame(l, l', d, e)
             && Lists(v, l, e, m)
    ensures Lists(v', l', e, m)
  {
    if l'.live[e] == l.live[e] {
      ListsSame(v, v', l, l', loose, loose', e, m);
    } else {
      var x := l.ref[d].info;
      ListsRefreshed(v, v', l, l', loose, loose', e, x, GrownInfo(x, l.clusterBytes, |l'.chains[d]|), m);
    }
  }

  lemma PlacedList(v: Vol, v': Vol, l: Layout, l': Layout, loose: set<nat>, loose': set<nat>, d: nat, name: Name,
                   old_: Option<SetInfo>, new_: SetInfo, t: Tree, e: nat)
    requires Sound(l, loose) && Sound(l', loose') && PlacedLayout(l, l', d, old_, new_) && FilesSame(v, v', l, l')
    requires new_.name == name && (old_.Some? ==> old_.value in l.live[d] && EqIgnoreCase(old_.value.name, name))
    requires old_.None? ==> forall y :: y in l.live[d] ==> !EqIgnoreCase(y.name, name)
    requires d in t && e in Put(t, d, name, NodeOf(v', l', new_)) && e in l'.live && (e in t ==> Lists(v, l, e, t[e]))
    requires Lists(v, l, d, t[d]) && (e in l.live <==> e in t)
    ensures Lists(v', l', e, Put(t, d, name, NodeOf(v', l', new_))[e])
  {
    if e == d {
      InstalledHere(v, v', l, l', loose, loose', d, name, old_, new_, t[d]);
    } else if e in l.live {
      assert LiveSame(l, l', d, e);
      PlacedElsewhere(v, v', l, l', loose, loose', d, e, t[e]);
    }
  }

  lemma PlacedTree(v: Vol, v': Vol, l: Layout, l': Layout, loose: set<nat>, loose': set<nat>, d: nat, name: Name,
                   old_: Option<SetInfo>, new_: SetInfo, t: Tree)
    requires Sound(l, loose) && Sound(l', loose') && PlacedLayout(l, l', d, old_, new_) && FilesSame(v, v', l, l')
    requires new_.name == name && (old_.Some? ==> old_.value in l.live[d] && EqIgnoreCase(old_.value.name, name))
    requires old_.None? ==> forall y :: y in l.live[d] ==> !EqIgnoreCase(y.name, name)
    requires Represents(v, l, t)
    ensures d in t && Represents(v', l', Put(t, d, name, NodeOf(v', l', new_)))
  {
    assert Put(t, d, name, NodeOf(v', l', new_)).Keys == l'.live.Keys;
    forall e | e in l'.live ensures Lists(v', l', e, Put(t, d, name, NodeOf(v', l', new_))[e]) {
      assert Lists(v, l, d, t[d]) && (e in t ==> Lists(v, l, e, t[e]));
      PlacedList(v, v', l, l', loose, loose', d, name, old_, new_, t, e);
    }
  }

  /** Installing a set puts its node under its name, and changes nothing else. */
  lemma InstalledView(v: Vol, v': Vol, l: Layout, loose: set<nat>, d: nat, name: Name, s: Stream,
                      old_: Option<SetInfo>, new_: SetInfo, grew: Option<nat>, t: Tree)
    requires Inv(v, l, loose, {}) && d in l.depth && InstalledAs(v, v', l, loose, d, name, s, old_, new_, grew)
    requires Represents(v, l, t) && (s.isDirectory ==> s.firstCluster in loose)
    ensures d in t && Represents(v', Placement(l, d, old_, new_, grew),
            Put(t, d, name, NodeOf(v', Placement(l, d, old_, new_, grew), new_)))
  {
    PlacementOf(l, loose, d, old_, new_, grew);
    var l' := Placement(l, d, old_, new_, grew);
    PlacedFiles(v, v', l, l', loose, d, old_, new_);
    PlacedTree(v, v', l, l', loose, (loose - OneStream(new_)) + Streams(AsSet(old_)), d, name, old_, new_, t);
  }

  lemma InstalledHere(v: Vol, v': Vol, l: Layout, l': Layout, loose: set<nat>, loose': set<nat>, d: nat, name: Name,
                      old_: Option<SetInfo>, new_: SetInfo, m: Listing)
    requires Sound(l, loose) && Sound(l', loose') && Lists(v, l, d, m) && d in l'.live
             && l'.live[d] == l.live[d] - AsSet(old_) + {new_}
    requires new_.name == name && (old_.Some? ==> old_.value in l.live[d] && EqIgnoreCase(old_.value.name, name))
    requires old_.None? ==> forall y :: y in l.live[d] ==> !EqIgnoreCase(y.name, name)
    requires forall a {:trigger FileSame(v, v', l, l', a)} :: a in l.ref && a !in l.depth ==> FileSame(v, v', l, l', a)
    ensures Lists(v', l', d, m[UpperName(name) := NodeOf(v', l', new_)])
  {
    assert NamesOk(l.live[d]);
    if old_.Some? { OnlyOne(l.live[d], old_.value, name); }
    ListsInstalled(v, v', l, l', loose, loose', d, AsSet(old_), new_, m);
  }

  // ---- Removing ---------------------------------------------------------------------------------------

  function Without(t: Tree, d: nat, x: SetInfo): (r: Tree)
    requires d in t
  {
    var r := t[d := t[d] - {UpperName(x.name)}];
    if x.isDirectory then r - {x.firstCluster} else r
  }

  lemma ListsRemoved(v: Vol, v': Vol, l: Layout, l': Layout, loose: set<nat>, loose': set<nat>, d: nat, x: SetInfo,
                     m: Listing)
    requires Sound(l, loose) && Sound(l', loose') && Lists(v, l, d, m) && x in l.live[d] && d in l'.live
             && l'.live[d] == l.live[d] - {x}
    requires forall y :: y in l.live[d] && y != x && y.firstCluster in l.ref && y.firstCluster !in l.depth ==>
               FileSame(v, v', l, l', y.firstCluster)
    ensures Lists(v', l', d, m - {UpperName(x.name)})
  {
    var m' := m - {UpperName(x.name)};
    StreamsOwnFirst(l', loose');
    assert NamesOk(l.live[d]);
    forall y | y in l'.live[d] ensures Listed(v', l', y, m') {
      assert Listed(v, l, y, m);
      SameUpperName(y.name, x.name);
      NodeSame(v, v', l, l', loose, d, y);
    }
    forall k | k in m' ensures HasName(l'.live[d], k) {
      assert HasName(l.live[d], k);
      var y :| y in l.live[d] && UpperName(y.name) == k;
      assert y in l'.live[d];
    }
  }

  /** Taking a set out of use removes its name, and the directory it stood for. */
  lemma RemovedView(v: Vol, v': Vol, l: Layout, loose: set<nat>, d: nat, x: SetInfo, t: Tree)
    requires Inv(v, l, loose, {}) && MayRemove(l, d, x) && HeapWritten(v, v', l.chains[d]) && Represents(v, l, t)
    requires x.firstCluster != d
    ensures d in t && Represents(v', Removed(l, d, x), Without(t, d, x))
  {
    var l', t' := Removed(l, d, x), Without(t, d, x);
    RemovedSound(l, loose, d, x);
    RefsNotLoose(l, loose);
    DirectoryWritten(v, v', l, d);
    forall a | a in l.ref && a !in l.depth ensures FileSame(v, v', l, l', a) { DataSame(v, v', l, l', loose, {}, a); }
    assert t'.Keys == l'.live.Keys;
    forall e | e in t' ensures Lists(v', l', e, t'[e]) {
      assert Lists(v, l, e, t[e]);
      if e == d {
        ListsRemoved(v, v', l, l', loose, loose + OneStream(x), d, x, t[d]);
      } else {
        ListsSame(v, v', l, l', loose, loose + OneStream(x), e, t[e]);
      }
    }
  }
}
