/**
  Who owns which cluster of an exFAT volume and which directory entry refers to which stream.
  A stream is named by its first cluster. `Sound` is the bookkeeping every operation keeps:
  each allocated cluster has one owner, each stream but the root directory is referred to by
  exactly one live entry set, and `loose` names the streams an operation has in hand that no
  entry refers to.
 */
module ExFatLayout {
  import opened Bytes
  import opened ExFatEntrySet
  import opened ExFatParse
  import opened ExFatChains

  /** The owner recorded for the allocation bitmap, the up-case table and other system clusters. */
  const SYSTEM: nat := 0

  /** Directories longer than this are truncated by the engine when it reads them. */
  const MAX_DIR_CLUSTERS: nat := 1024

  datatype Ref = Ref(dir: nat, info: SetInfo)

  datatype Layout = Layout(
    clusterBytes: nat, root: nat,
    owner: map<nat, nat>, chains: map<nat, seq<nat>>, flat: set<nat>,
    depth: map<nat, nat>, live: map<nat, set<SetInfo>>, ref: map<nat, Ref>)

  // ---- The invariant ---------------------------------------------------------------------

  /** Every stream owns its clusters, and every owned cluster lies in its owner's chain. */
  ghost predicate ChainOwned(l: Layout, a: nat)
    requires a in l.chains
  {
    var chain := l.chains[a];
    a >= 2 && |chain| > 0 && chain[0] == a && Distinct(chain)
        && forall c :: c in chain ==> c in l.owner && l.owner[c] == a
  }

  ghost predicate OwnerOk(l: Layout, c: nat)
    requires c in l.owner
  {
    l.owner[c] == SYSTEM || (l.owner[c] in l.chains && c in l.chains[l.owner[c]])
  }

  ghost predicate Owned(l: Layout) {
    && (forall a {:trigger ChainOwned(l, a)} :: a in l.chains ==> ChainOwned(l, a))
    && (forall c {:trigger OwnerOk(l, c)} :: c in l.owner ==> OwnerOk(l, c))
  }

  /** The entry set agrees with the stream it refers to. */
  ghost predicate Describes(l: Layout, x: SetInfo) {
    && l.clusterBytes > 0
    && x.firstCluster in l.chains && x.firstCluster != l.root
    && x.noFatChain == (x.firstCluster in l.flat)
    && x.isDirectory == (x.firstCluster in l.depth)
    && x.validLength <= x.dataLength && |l.chains[x.firstCluster]| == ClustersFor(l.clusterBytes, x.dataLength)
  }

  ghost predicate RefOk(l: Layout, a: nat)
    requires a in l.ref
  {
    var Ref(d, x) := l.ref[a];
    && d in l.live && x in l.live[d] && x.firstCluster == a && Describes(l, x)
    && (a in l.depth ==> d in l.depth && l.depth[a] == l.depth[d] + 1)
  }

  ghost predicate LiveOk(l: Layout, d: nat, x: SetInfo) {
    && (x.isDirectory ==> x.firstCluster >= 2)
    && (x.firstCluster >= 2 ==> x.firstCluster in l.ref && l.ref[x.firstCluster] == Ref(d, x))
  }

  ghost predicate RefsOk(l: Layout) {
    forall a {:trigger RefOk(l, a)} :: a in l.ref ==> RefOk(l, a)
  }

  ghost predicate LivesOk(l: Layout) {
    forall d, x {:trigger LiveOk(l, d, x)} :: d in l.live && x in l.live[d] ==> LiveOk(l, d, x)
  }

  ghost predicate Referred(l: Layout, loose: set<nat>) {
    && RefsOk(l) && LivesOk(l)
    && KeysOk(l, loose)
  }

  /** The streams under a reference are all but the root directory and the loose ones. */
  ghost predicate KeysOk(l: Layout, loose: set<nat>) {
    forall a :: a in l.chains ==> (a in l.ref <==> a != l.root && a !in loose)
  }

  ghost predicate UniqueNames(live: set<SetInfo>) {
    forall x, y {:trigger EqIgnoreCase(x.name, y.name)} ::
          x in live && y in live && EqIgnoreCase(x.name, y.name) ==> x == y
  }

  lemma EqIgnoreCaseSymmetric(a: Name, b: Name)
    ensures EqIgnoreCase(a, b) <==> EqIgnoreCase(b, a)
  {
  }

  ghost predicate NotDotName(name: Name) {
    name != ['.' as int] && name != ['.' as int, '.' as int]
  }

  ghost predicate NamesOk(live: set<SetInfo>) {
    UniqueNames(live) && forall x {:trigger NotDotName(x.name)} :: x in live ==> NotDotName(x.name)
  }

  ghost predicate Directories(l: Layout, loose: set<nat>) {
    && l.root in l.depth && l.depth[l.root] == 0 && l.root !in l.flat
    && l.live.Keys == l.depth.Keys && l.depth.Keys <= l.chains.Keys && l.flat <= l.chains.Keys
    && loose <= l.chains.Keys && loose !! l.depth.Keys
    && (forall d :: d in l.depth ==> |l.chains[d]| <= MAX_DIR_CLUSTERS)
    && (forall d {:trigger NamesOk(l.live[d])} :: d in l.live ==> NamesOk(l.live[d]))
  }

  ghost predicate Sound(l: Layout, loose: set<nat>) {
    l.clusterBytes > 0 && Owned(l) && Directories(l, loose) && Referred(l, loose)
  }

  // ---- What the invariant means -----------------------------------------------------------

  /** No cluster lies in two streams, or twice in one. */
  lemma StreamsDisjoint(l: Layout, loose: set<nat>, a: nat, b: nat, i: nat, j: nat)
    requires Sound(l, loose) && a in l.chains && b in l.chains && i < |l.chains[a]| && j < |l.chains[b]|
    requires l.chains[a][i] == l.chains[b][j]
    ensures a == b && i == j
  {
    assert ChainOwned(l, a) && ChainOwned(l, b);
    assert l.chains[a][i] in l.chains[a] && l.chains[b][j] in l.chains[b];
  }

  /** No directory entry and no second entry refers to a stream that an entry refers to. */
  lemma OneReference(l: Layout, loose: set<nat>, d: nat, x: SetInfo, d': nat, x': SetInfo)
    requires Sound(l, loose) && d in l.live && x in l.live[d] && d' in l.live && x' in l.live[d']
    requires x.firstCluster == x'.firstCluster >= 2
    ensures d == d' && x == x'
  {
    assert LiveOk(l, d, x) && LiveOk(l, d', x');
  }

  lemma StreamsOwnFirst(l: Layout, loose: set<nat>)
    requires Sound(l, loose)
    ensures forall a :: a in l.chains ==> a >= 2 && a in l.owner && l.owner[a] == a
  {
    forall a | a in l.chains ensures a >= 2 && a in l.owner && l.owner[a] == a {
      assert ChainOwned(l, a);
      assert l.chains[a][0] in l.chains[a];
    }
  }

  lemma LooseStream(l: Layout, loose: set<nat>, a: nat)
    requires Sound(l, loose) && a in loose
    ensures a in l.chains && a >= 2 && a !in l.depth
  {
    assert ChainOwned(l, a);
    assert l.chains[a][0] in l.chains[a];
  }

  // ---- Taking clusters ----------------------------------------------------------------------

  function OwnedBy(chain: seq<nat>, a: nat): (m: map<nat, nat>) {
    map c | c in chain :: a
  }

  function Taken(l: Layout, chain: seq<nat>): (r: Layout)
    requires |chain| > 0
  {
    l.(owner := l.owner + OwnedBy(chain, chain[0]), chains := l.chains[chain[0] := chain])
  }

  /** Free clusters linked into a new chain become a loose stream. */
  lemma TakenSound(l: Layout, loose: set<nat>, chain: seq<nat>)
    requires Sound(l, loose) && |chain| > 0 && Distinct(chain)
    requires forall c :: c in chain ==> c >= 2 && c !in l.owner
    ensures Sound(Taken(l, chain), loose + {chain[0]})
    ensures chain[0] !in l.chains
  {
    var a, l' := chain[0], Taken(l, chain);
    assert a in chain;
    StreamsOwnFirst(l, loose);
    assert Owned(l') by { TakenOwned(l, loose, chain); }
    assert Directories(l', loose + {a});
    assert RefsOk(l') by { forall b | b in l.ref ensures RefOk(l', b) { assert RefOk(l, b); } }
    assert LivesOk(l') by {
      forall d, x | d in l'.live && x in l'.live[d] ensures LiveOk(l', d, x) { assert LiveOk(l, d, x); }
    }
    assert KeysOk(l', loose + {a}) by { RefsNotLoose(l, loose); }
  }

  lemma TakenOwned(l: Layout, loose: set<nat>, chain: seq<nat>)
    requires Sound(l, loose) && |chain| > 0 && Distinct(chain) && chain[0] !in l.chains
    requires forall c :: c in chain ==> c >= 2 && c !in l.owner
    ensures Owned(Taken(l, chain))
  {
    var l' := Taken(l, chain);
    assert chain[0] in chain;
    forall b | b in l'.chains ensures ChainOwned(l', b) {
      if b != chain[0] { assert ChainOwned(l, b); }
    }
    forall c | c in l'.owner ensures OwnerOk(l', c) {
      if c !in chain { assert OwnerOk(l, c); }
    }
  }

  // ---- Giving clusters back -----------------------------------------------------------------

  function Released(l: Layout, a: nat): (r: Layout)
    requires a in l.chains
  {
    l.(owner := l.owner - (set c | c in l.chains[a]), chains := l.chains - {a}, flat := l.flat - {a})
  }

  /** Freeing a loose stream leaves no trace of it. */
  lemma ReleasedSound(l: Layout, loose: set<nat>, a: nat)
    requires Sound(l, loose) && a in loose
    ensures Sound(Released(l, a), loose - {a})
  {
    var l' := Released(l, a);
    assert Owned(l') by { ReleasedOwned(l, loose, a); }
    assert Directories(l', loose - {a});
    assert RefsOk(l') by { forall b | b in l.ref ensures RefOk(l', b) { assert RefOk(l, b); } }
    assert LivesOk(l') by {
      forall d, x | d in l'.live && x in l'.live[d] ensures LiveOk(l', d, x) { assert LiveOk(l, d, x); }
    }
    assert KeysOk(l', loose - {a});
  }

  lemma ReleasedOwned(l: Layout, loose: set<nat>, a: nat)
    requires Sound(l, loose) && a in l.chains
    ensures Owned(Released(l, a))
  {
    var l' := Released(l, a);
    assert ChainOwned(l, a);
    forall b | b in l'.chains ensures ChainOwned(l', b) {
      assert ChainOwned(l, b);
      forall c | c in l'.chains[b] ensures c in l'.owner && l'.owner[c] == b { assert l.owner[c] == b; }
    }
    forall c | c in l'.owner ensures OwnerOk(l', c) { assert OwnerOk(l, c); }
  }

  // ---- Installing an entry ------------------------------------------------------------------

  /** The streams among `x` that have clusters. */
  function Streams(x: set<SetInfo>): (s: set<nat>) {
    set i | i in x && i.firstCluster >= 2 :: i.firstCluster
  }

  function OneStream(x: SetInfo): (s: set<nat>) { if x.firstCluster >= 2 then {x.firstCluster} else {} }

  /** Directory `d` gives up the entries `x` and receives the entry `new_`. */
  function Installed(l: Layout, d: nat, x: set<SetInfo>, new_: SetInfo): (r: Layout)
    requires d in l.live && d in l.depth
  {
    var l1 := l.(live := l.live[d := l.live[d] - x + {new_}],
                 ref := (l.ref - Streams(x))
                     + (if new_.firstCluster >= 2 then map[new_.firstCluster := Ref(d, new_)] else map[]));
    if new_.isDirectory then
      l1.(depth := l1.depth[new_.firstCluster := l.depth[d] + 1], live := l1.live[new_.firstCluster := {}])
    else l1
  }

  /**
    `new_` may replace the file entries `x` of directory `d`: its stream is in hand and its name is
    not in use elsewhere.
   */
  ghost predicate MayInstall(l: Layout, loose: set<nat>, d: nat, x: set<SetInfo>, new_: SetInfo) {
    && d in l.depth && d in l.live && x <= l.live[d] && (forall i :: i in x ==> !i.isDirectory)
    && (forall y :: y in l.live[d] - x ==> !EqIgnoreCase(y.name, new_.name)) && NotDotName(new_.name)
      && new_ !in l.live[d] - x
    && (new_.isDirectory ==> new_.firstCluster >= 2)
    && (new_.firstCluster >= 2 ==>
          && new_.firstCluster in loose && new_.firstCluster in l.chains && new_.firstCluster != l.root
          && new_.noFatChain == (new_.firstCluster in l.flat) && new_.validLength <= new_.dataLength
          && l.clusterBytes > 0 && |l.chains[new_.firstCluster]| == ClustersFor(l.clusterBytes, new_.dataLength)
          && (new_.isDirectory ==> |l.chains[new_.firstCluster]| <= MAX_DIR_CLUSTERS))
  }

  /** Installing an entry puts its stream under a reference and leaves the replaced streams in hand. */
  lemma InstalledSound(l: Layout, loose: set<nat>, d: nat, x: set<SetInfo>, new_: SetInfo)
    requires Sound(l, loose) && MayInstall(l, loose, d, x, new_)
    ensures Sound(Installed(l, d, x, new_), (loose - OneStream(new_)) + Streams(x))
  {
    var l', loose' := Installed(l, d, x, new_), (loose - OneStream(new_)) + Streams(x);
    ReplacedReferred(l, loose, d, x);
    assert Owned(l') by { InstalledOwned(l, loose, d, x, new_); }
    assert Directories(l', loose') by { InstalledDirectories(l, loose, d, x, new_); }
    InstalledReferred(l, loose, d, x, new_);
  }

  /** The replaced entries' streams are under reference, are no directories, and are not the new stream. */
  lemma ReplacedReferred(l: Layout, loose: set<nat>, d: nat, x: set<SetInfo>)
    requires Sound(l, loose) && d in l.live && x <= l.live[d] && (forall i :: i in x ==> !i.isDirectory)
    ensures forall a :: a in Streams(x) ==> a in l.ref && l.ref[a].dir == d && l.ref[a].info in x
    ensures Streams(x) !! l.depth.Keys && Streams(x) !! loose && l.root !in Streams(x) && Streams(x) <= l.chains.Keys
  {
    forall i | i in x && i.firstCluster >= 2
      ensures i.firstCluster in l.ref && l.ref[i.firstCluster] == Ref(d, i)
      ensures i.firstCluster !in l.depth && i.firstCluster !in loose && i.firstCluster != l.root
              && i.firstCluster in l.chains
    {
      assert LiveOk(l, d, i);
      assert RefOk(l, i.firstCluster);
    }
  }

  lemma InstalledOwned(l: Layout, loose: set<nat>, d: nat, x: set<SetInfo>, new_: SetInfo)
    requires Sound(l, loose) && d in l.live && d in l.depth
    ensures Owned(Installed(l, d, x, new_))
  {
    var l' := Installed(l, d, x, new_);
    forall b | b in l'.chains ensures ChainOwned(l', b) { assert ChainOwned(l, b); }
    forall c | c in l'.owner ensures OwnerOk(l', c) { assert OwnerOk(l, c); }
  }

  lemma NamesAfterInstall(live: set<SetInfo>, x: set<SetInfo>, new_: SetInfo)
    requires NamesOk(live) && NotDotName(new_.name) && forall y :: y in live - x ==> !EqIgnoreCase(y.name, new_.name)
    ensures NamesOk(live - x + {new_})
  {
    forall y | y in live - x ensures !EqIgnoreCase(new_.name, y.name) { EqIgnoreCaseSymmetric(new_.name, y.name); }
  }

  lemma InstalledDirectories(l: Layout, loose: set<nat>, d: nat, x: set<SetInfo>, new_: SetInfo)
    requires Directories(l, loose) && MayInstall(l, loose, d, x, new_)
    requires Streams(x) !! l.depth.Keys && Streams(x) <= l.chains.Keys && Streams(x) !! loose
    ensures Directories(Installed(l, d, x, new_), (loose - OneStream(new_)) + Streams(x))
  {
    NamesAfterInstall(l.live[d], x, new_);
  }

  lemma InstalledReferred(l: Layout, loose: set<nat>, d: nat, x: set<SetInfo>, new_: SetInfo)
    requires Sound(l, loose) && MayInstall(l, loose, d, x, new_)
    requires forall a :: a in Streams(x) ==> a in l.ref && l.ref[a].dir == d && l.ref[a].info in x
    requires Streams(x) !! l.depth.Keys && Streams(x) !! loose && l.root !in Streams(x) && Streams(x) <= l.chains.Keys
    ensures Referred(Installed(l, d, x, new_), (loose - OneStream(new_)) + Streams(x))
  {
    RefsNotLoose(l, loose);
    assert RefsOk(Installed(l, d, x, new_)) by { InstalledRefsOk(l, loose, d, x, new_); }
    assert LivesOk(Installed(l, d, x, new_)) by { InstalledLivesOk(l, loose, d, x, new_); }
    InstalledKeysOk(l, loose, d, x, new_);
  }

  lemma InstalledKeysOk(l: Layout, loose: set<nat>, d: nat, x: set<SetInfo>, new_: SetInfo)
    requires KeysOk(l, loose) && MayInstall(l, loose, d, x, new_) && l.root !in Streams(x) && Streams(x) !! loose
    ensures KeysOk(Installed(l, d, x, new_), (loose - OneStream(new_)) + Streams(x))
  {
  }

  lemma RefsNotLoose(l: Layout, loose: set<nat>)
    requires Sound(l, loose)
    ensures forall a :: a in l.ref ==> a in l.chains && a !in loose && a != l.root && a >= 2
  {
    StreamsOwnFirst(l, loose);
    forall a | a in l.ref ensures a in l.chains { assert RefOk(l, a); }
  }

  lemma InstalledRefsOk(l: Layout, loose: set<nat>, d: nat, x: set<SetInfo>, new_: SetInfo)
    requires Directories(l, loose) && RefsOk(l) && MayInstall(l, loose, d, x, new_)
    requires forall a :: a in l.ref ==> a >= 2 && a !in loose
    ensures RefsOk(Installed(l, d, x, new_))
  {
    var l' := Installed(l, d, x, new_);
    forall a | a in l'.ref ensures RefOk(l', a) {
      if a in l.ref && a !in Streams(x) {
        KeptRefOk(l, loose, d, x, new_, a);
      } else {
        NewRefOk(l, loose, d, x, new_);
      }
    }
  }

  lemma InstalledLivesOk(l: Layout, loose: set<nat>, d: nat, x: set<SetInfo>, new_: SetInfo)
    requires Directories(l, loose) && LivesOk(l) && MayInstall(l, loose, d, x, new_)
    requires forall a :: a in l.ref ==> a !in loose
    requires forall a :: a in Streams(x) ==> a in l.ref && l.ref[a].dir == d && l.ref[a].info in x
    ensures LivesOk(Installed(l, d, x, new_))
  {
    var l' := Installed(l, d, x, new_);
    forall e, y | e in l'.live && y in l'.live[e] ensures LiveOk(l', e, y) {
      if !(e == d && y == new_) {
        assert LiveOk(l, e, y);
        if y.firstCluster >= 2 { KeptLiveOk(l, loose, d, x, new_, e, y); }
      }
    }
  }

  lemma NewRefOk(l: Layout, loose: set<nat>, d: nat, x: set<SetInfo>, new_: SetInfo)
    requires Directories(l, loose) && MayInstall(l, loose, d, x, new_) && new_.firstCluster >= 2
    ensures RefOk(Installed(l, d, x, new_), new_.firstCluster)
  {
  }

  lemma KeptRefOk(l: Layout, loose: set<nat>, d: nat, x: set<SetInfo>, new_: SetInfo, a: nat)
    requires Directories(l, loose) && MayInstall(l, loose, d, x, new_)
    requires a in l.ref && RefOk(l, a) && a !in Streams(x) && a >= 2 && a !in loose
    ensures a in Installed(l, d, x, new_).ref && RefOk(Installed(l, d, x, new_), a)
  {
    assert l.ref[a].info !in x;
  }

  lemma KeptLiveOk(l: Layout, loose: set<nat>, d: nat, x: set<SetInfo>, new_: SetInfo, e: nat, y: SetInfo)
    requires MayInstall(l, loose, d, x, new_) && e in l.live && y in l.live[e] && LiveOk(l, e, y)
    requires y.firstCluster !in loose && (e == d ==> y !in x)
    requires forall b :: b in Streams(x) ==> b in l.ref && l.ref[b].dir == d && l.ref[b].info in x
    ensures LiveOk(Installed(l, d, x, new_), e, y)
  {
  }

  // ---- Removing an entry --------------------------------------------------------------------

  /** Directory `d` gives up the entry `x`, a file or an empty directory. */
  function Removed(l: Layout, d: nat, x: SetInfo): (r: Layout)
    requires d in l.live
  {
    var l1 := l.(live := l.live[d := l.live[d] - {x}], ref := l.ref - OneStream(x));
    if x.isDirectory then l1.(depth := l1.depth - OneStream(x), live := l1.live - OneStream(x)) else l1
  }

  ghost predicate MayRemove(l: Layout, d: nat, x: SetInfo) {
    d in l.depth && d in l.live && x in l.live[d]
    && (x.isDirectory ==> x.firstCluster >= 2 && x.firstCluster in l.live && l.live[x.firstCluster] == {})
  }

  lemma RemovedSound(l: Layout, loose: set<nat>, d: nat, x: SetInfo)
    requires Sound(l, loose) && MayRemove(l, d, x)
    ensures Sound(Removed(l, d, x), loose + OneStream(x))
  {
    var l' := Removed(l, d, x);
    RefsNotLoose(l, loose);
    assert LiveOk(l, d, x);
    assert x.firstCluster >= 2 ==> RefOk(l, x.firstCluster);
    assert Owned(l') by { RemovedOwned(l, d, x); }
    assert Directories(l', loose + OneStream(x)) by { RemovedDirectories(l, loose, d, x); }
    assert RefsOk(l') by { RemovedRefsOk(l, d, x); }
    assert LivesOk(l') by { RemovedLivesOk(l, d, x); }
    assert KeysOk(l', loose + OneStream(x));
  }

  lemma RemovedOwned(l: Layout, d: nat, x: SetInfo)
    requires Owned(l) && d in l.live
    ensures Owned(Removed(l, d, x))
  {
    var l' := Removed(l, d, x);
    forall b | b in l'.chains ensures ChainOwned(l', b) { assert ChainOwned(l, b); }
    forall c | c in l'.owner ensures OwnerOk(l', c) { assert OwnerOk(l, c); }
  }

  lemma RemovedDirectories(l: Layout, loose: set<nat>, d: nat, x: SetInfo)
    requires Directories(l, loose) && MayRemove(l, d, x)
    requires x.firstCluster >= 2 ==> Describes(l, x)
    ensures Directories(Removed(l, d, x), loose + OneStream(x))
  {
    assert NamesOk(l.live[d]);
    assert NamesOk(l.live[d] - {x});
  }

  lemma RemovedRefsOk(l: Layout, d: nat, x: SetInfo)
    requires RefsOk(l) && LivesOk(l) && MayRemove(l, d, x)
             && (x.firstCluster >= 2 ==> x.firstCluster in l.ref && RefOk(l, x.firstCluster))
    requires forall a :: a in l.ref ==> a >= 2
    ensures RefsOk(Removed(l, d, x))
  {
    var l' := Removed(l, d, x);
    forall a | a in l'.ref ensures RefOk(l', a) {
      assert RefOk(l, a);
      assert LiveOk(l, d, x);
    }
  }

  lemma RemovedLivesOk(l: Layout, d: nat, x: SetInfo)
    requires RefsOk(l) && LivesOk(l) && MayRemove(l, d, x)
    ensures LivesOk(Removed(l, d, x))
  {
    var l' := Removed(l, d, x);
    assert LiveOk(l, d, x);
    forall e, y | e in l'.live && y in l'.live[e] ensures LiveOk(l', e, y) { assert LiveOk(l, e, y); }
  }

  // ---- Growing a directory ------------------------------------------------------------------

  /** The metadata of a directory that has grown to `k` clusters. */
  function GrownInfo(x: SetInfo, clusterBytes: nat, k: nat): (r: SetInfo) {
    x.(dataLength := k * clusterBytes, validLength := k * clusterBytes, noFatChain := false)
  }

  function Longer(l: Layout, d: nat, c: nat): (r: Layout)
    requires d in l.chains
  {
    l.(owner := l.owner[c := d], chains := l.chains[d := l.chains[d] + [c]], flat := l.flat - {d})
  }

  /** Directory `d` receives the free cluster `c`; its entry, if it has one, is refreshed. */
  function Grown(l: Layout, d: nat, c: nat): (r: Layout)
    requires d in l.chains
  {
    var l1 := Longer(l, d, c);
    if d in l.ref && l.ref[d].dir in l.live then
      var Ref(p, x) := l.ref[d];
      var x' := GrownInfo(x, l.clusterBytes, |l.chains[d]| + 1);
      l1.(live := l1.live[p := l.live[p] - {x} + {x'}], ref := l1.ref[d := Ref(p, x')])
    else l1
  }

  lemma GrownOwned(l: Layout, loose: set<nat>, d: nat, c: nat)
    requires Sound(l, loose) && d in l.depth && c >= 2 && c !in l.owner
    ensures d in l.chains && Owned(Longer(l, d, c))
  {
    var l' := Longer(l, d, c);
    assert ChainOwned(l, d);
    assert c !in l.chains[d];
    forall b | b in l'.chains ensures ChainOwned(l', b) { assert ChainOwned(l, b); }
    forall e | e in l'.owner ensures OwnerOk(l', e) { if e != c { assert OwnerOk(l, e); } }
  }

  lemma GrownCount(clusterBytes: nat, k: nat)
    requires clusterBytes > 0 && k > 0
    ensures ClustersFor(clusterBytes, k * clusterBytes) == k
  {
    assert k * clusterBytes >= clusterBytes;
    WholeDiv(CeilDiv(k * clusterBytes, clusterBytes), k, clusterBytes);
  }

  lemma WholeDiv(q: nat, k: nat, b: nat)
    requires b > 0 && k > 0 && q * b >= k * b && (q > 0 ==> (q - 1) * b < k * b)
    ensures q == k
  {
    assert (q - k) * b == q * b - k * b;
    FactorSign(q - k, b);
    assert (k - (q - 1)) * b == k * b - (q - 1) * b;
    FactorSign(k - (q - 1), b);
  }

  lemma FactorSign(d: int, b: nat)
    requires b > 0
    ensures d * b >= 0 ==> d >= 0
    ensures d * b > 0 ==> d > 0
  {
  }

  lemma GrownSound(l: Layout, loose: set<nat>, d: nat, c: nat)
    requires Sound(l, loose) && d in l.depth && c >= 2 && c !in l.owner && |l.chains[d]| < MAX_DIR_CLUSTERS
    ensures d in l.ref ==> l.ref[d].dir in l.live
    ensures Sound(Grown(l, d, c), loose)
  {
    assert d in l.ref ==> RefOk(l, d);
    RefsNotLoose(l, loose);
    GrownOwned(l, loose, d, c);
    var l' := Grown(l, d, c);
    assert Owned(l') by {
      var l1 := Longer(l, d, c);
      forall b | b in l'.chains ensures ChainOwned(l', b) { assert ChainOwned(l1, b); }
      forall e | e in l'.owner ensures OwnerOk(l', e) { assert OwnerOk(l1, e); }
    }
    assert Directories(l', loose) by { GrownDirectories(l, loose, d, c); }
    assert RefsOk(l') by { GrownRefsOk(l, loose, d, c); }
    assert LivesOk(l') by { StreamsOwnFirst(l, loose); GrownLivesOk(l, loose, d, c); }
  }

  lemma NamesAfterRefresh(live: set<SetInfo>, x: SetInfo, x': SetInfo)
    requires NamesOk(live) && x in live && x'.name == x.name
    ensures NamesOk(live - {x} + {x'})
  {
  }

  lemma GrownDirectories(l: Layout, loose: set<nat>, d: nat, c: nat)
    requires Directories(l, loose) && d in l.depth && |l.chains[d]| < MAX_DIR_CLUSTERS
    requires d in l.ref ==> l.ref[d].dir in l.live && l.ref[d].info in l.live[l.ref[d].dir]
    ensures Directories(Grown(l, d, c), loose)
  {
    if d in l.ref {
      var Ref(p, x) := l.ref[d];
      NamesAfterRefresh(l.live[p], x, GrownInfo(x, l.clusterBytes, |l.chains[d]| + 1));
    }
  }

  lemma GrownRefsOk(l: Layout, loose: set<nat>, d: nat, c: nat)
    requires Directories(l, loose) && RefsOk(l) && d in l.depth && l.clusterBytes > 0
    requires d in l.ref ==> RefOk(l, d)
    ensures RefsOk(Grown(l, d, c))
  {
    var l' := Grown(l, d, c);
    GrownCount(l.clusterBytes, |l.chains[d]| + 1);
    forall a | a in l'.ref ensures RefOk(l', a) {
      assert RefOk(l, a);
    }
  }

  lemma GrownLivesOk(l: Layout, loose: set<nat>, d: nat, c: nat)
    requires LivesOk(l) && d in l.chains && d >= 2 && (d in l.ref ==> RefOk(l, d))
    ensures LivesOk(Grown(l, d, c))
  {
    var l' := Grown(l, d, c);
    forall e, y | e in l'.live && y in l'.live[e] ensures LiveOk(l', e, y) {
      if e in l.live && y in l.live[e] { assert LiveOk(l, e, y); }
    }
  }
}
