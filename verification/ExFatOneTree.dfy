/**
  The tree a volume stands for. Every sound volume stands for a tree, and for one only, however its
  clusters may have been accounted for; a search in the bytes of a directory is a lookup in it.
 */
module ExFatOneTree {
  import opened ExFatEntrySet
  import opened ExFatParse
  import opened ExFatScan
  import opened ExFatDirectory
  import opened ExFatChains
  import opened ExFatLayout
  import opened ExFatInvariant
  import opened ExFatView
  import opened ExFatTaking

  // ---- There is a tree --------------------------------------------------------------------------

  ghost function NamesIn(live: set<SetInfo>): (s: set<Name>) { set x | x in live :: UpperName(x.name) }

  ghost function Pick(live: set<SetInfo>, name: Name): (x: SetInfo)
    requires name in NamesIn(live)
    ensures x in live && UpperName(x.name) == name
  {
    var x :| x in live && UpperName(x.name) == name;
    x
  }

  ghost function ListingOf(v: Vol, l: Layout, live: set<SetInfo>): (m: Listing) {
    map k | k in NamesIn(live) :: NodeOf(v, l, Pick(live, k))
  }

  lemma ListingLists(v: Vol, l: Layout, d: nat)
    requires d in l.live && NamesOk(l.live[d])
    ensures Lists(v, l, d, ListingOf(v, l, l.live[d]))
  {
    var live := l.live[d];
    var m := ListingOf(v, l, live);
    forall x | x in live ensures Listed(v, l, x, m) {
      var y := Pick(live, UpperName(x.name));
      SameUpperName(x.name, y.name);
    }
    forall k | k in m ensures HasName(live, k) { var y := Pick(live, k); }
  }

  /** Every sound volume stands for a tree. */
  lemma TreeExists(v: Vol, l: Layout, loose: set<nat>) returns (t: Tree)
    requires Sound(l, loose)
    ensures Represents(v, l, t)
  {
    t := map d | d in l.live :: ListingOf(v, l, l.live[d]);
    forall d | d in t ensures Lists(v, l, d, t[d]) {
      assert NamesOk(l.live[d]);
      ListingLists(v, l, d);
    }
  }

  // ---- And only one -----------------------------------------------------------------------------

  /** Where a chain starts and what the FAT says determine the chain. */
  lemma {:induction false} FatChainUnique(v: Vol, a: seq<nat>, b: seq<nat>, k: nat)
    requires |v.fat| == v.clusterCount + 2 && v.clusterCount + 1 < END_OF_CHAIN
    requires IsFatChain(v, a) && IsFatChain(v, b) && k < |a| && k < |b| && a[k] == b[k]
    ensures a[k..] == b[k..]
    decreases |a| - k
  {
    assert k + 1 < |a| ==> v.fat[a[k]] == a[k + 1] && ValidCluster(v, a[k + 1]);
    assert k + 1 < |b| ==> v.fat[b[k]] == b[k + 1] && ValidCluster(v, b[k + 1]);
    if k + 1 < |a| {
      FatChainUnique(v, a, b, k + 1);
      assert a[k..] == [a[k]] + a[k + 1..] && b[k..] == [b[k]] + b[k + 1..];
    }
  }

  /** Two accounts of the same volume, both sound. */
  ghost predicate TwoAccounts(v: Vol, l: Layout, loose: set<nat>, l': Layout, loose': set<nat>) {
    Inv(v, l, loose, {}) && Inv(v, l', loose', {})
  }

  lemma SameChain(v: Vol, l: Layout, loose: set<nat>, l': Layout, loose': set<nat>, a: nat)
    requires TwoAccounts(v, l, loose, l', loose') && a in l.chains && a in l'.chains && (a in l.flat <==> a in l'.flat)
    requires a in l.flat ==> |l.chains[a]| == |l'.chains[a]|
    ensures l.chains[a] == l'.chains[a]
  {
    assert ChainOwned(l, a) && ChainOwned(l', a) && LinksOk(v, l, a) && LinksOk(v, l', a);
    if a !in l.flat {
      FatChainUnique(v, l.chains[a], l'.chains[a], 0);
      assert l.chains[a][0..] == l.chains[a] && l'.chains[a][0..] == l'.chains[a];
    }
  }

  /** A set that both accounts have on record refers to the same clusters in both. */
  lemma SameStream(v: Vol, l: Layout, loose: set<nat>, l': Layout, loose': set<nat>, d: nat, x: SetInfo)
    requires TwoAccounts(v, l, loose, l', loose') && d in l.live && d in l'.live && x in l.live[d] && x in l'.live[d]
             && x.firstCluster >= 2
    ensures x.firstCluster in l.chains && x.firstCluster in l'.chains
            && l.chains[x.firstCluster] == l'.chains[x.firstCluster]
    ensures x.isDirectory ==> x.firstCluster in l.depth && x.firstCluster in l'.depth
  {
    assert LiveOk(l, d, x) && LiveOk(l', d, x);
    assert RefOk(l, x.firstCluster) && RefOk(l', x.firstCluster);
    SameChain(v, l, loose, l', loose', x.firstCluster);
  }

  lemma SameLive(v: Vol, l: Layout, loose: set<nat>, l': Layout, loose': set<nat>, d: nat)
    requires TwoAccounts(v, l, loose, l', loose') && d in l.depth && d in l'.depth && l.chains[d] == l'.chains[d]
    ensures l.live[d] == l'.live[d]
  {
    assert DirOk(v, l, d) && DirOk(v, l', d);
  }

  /** From the root down, the two accounts have the same directories with the same sets. */
  lemma {:induction false} SameDirectory(v: Vol, l: Layout, loose: set<nat>, l': Layout, loose': set<nat>, d: nat)
    requires TwoAccounts(v, l, loose, l', loose') && d in l.depth
    ensures d in l'.depth && l.chains[d] == l'.chains[d] && l.live[d] == l'.live[d]
    decreases l.depth[d]
  {
    if d == l.root {
      SameChain(v, l, loose, l', loose', d);
    } else {
      assert RefOk(l, d);
      var Ref(p, x) := l.ref[d];
      SameDirectory(v, l, loose, l', loose', p);
      StreamsOwnFirst(l, loose);
      SameStream(v, l, loose, l', loose', p, x);
    }
    SameLive(v, l, loose, l', loose', d);
  }

  lemma SameNode(v: Vol, l: Layout, loose: set<nat>, l': Layout, loose': set<nat>, d: nat, x: SetInfo)
    requires TwoAccounts(v, l, loose, l', loose') && d in l.live && d in l'.live && x in l.live[d] && x in l'.live[d]
    ensures NodeOf(v, l, x) == NodeOf(v, l', x)
  {
    StreamsOwnFirst(l, loose);
    StreamsOwnFirst(l', loose');
    if x.firstCluster >= 2 { SameStream(v, l, loose, l', loose', d, x); }
  }

  lemma SameListing(v: Vol, l: Layout, loose: set<nat>, l': Layout, loose': set<nat>, d: nat, m: Listing, m': Listing)
    requires TwoAccounts(v, l, loose, l', loose') && Lists(v, l, d, m) && Lists(v, l', d, m') && l.live[d] == l'.live[d]
    ensures forall k :: k in m ==> k in m' && m'[k] == m[k]
  {
    forall k | k in m ensures k in m' && m'[k] == m[k] {
      assert HasName(l.live[d], k);
      var x :| x in l.live[d] && UpperName(x.name) == k;
      assert Listed(v, l, x, m) && Listed(v, l', x, m');
      SameNode(v, l, loose, l', loose', d, x);
    }
  }

  /** The volume alone determines the tree: whatever account of its clusters is given, the tree is the same. */
  lemma TreeUnique(v: Vol, l: Layout, loose: set<nat>, t: Tree, l': Layout, loose': set<nat>, t': Tree)
    requires Good(v, l, loose, t) && Good(v, l', loose', t')
    ensures t == t'
  {
    forall d ensures d in l.depth <==> d in l'.depth {
      if d in l.depth { SameDirectory(v, l, loose, l', loose', d); }
      if d in l'.depth { SameDirectory(v, l', loose', l, loose, d); }
    }
    forall d | d in t ensures t[d] == t'[d] {
      SameDirectory(v, l, loose, l', loose', d);
      assert Lists(v, l, d, t[d]) && Lists(v, l', d, t'[d]);
      SameListing(v, l, loose, l', loose', d, t[d], t'[d]);
      SameListing(v, l', loose', l, loose, d, t'[d], t[d]);
      assert t[d].Keys == t'[d].Keys;
    }
  }

  // ---- Lookup ---------------------------------------------------------------------------------------

  lemma FoundListed(v: Vol, l: Layout, t: Tree, d: nat, name: Name, x: SetInfo)
    requires Represents(v, l, t) && d in l.live && x in l.live[d] && EqIgnoreCase(x.name, name)
    ensures d in t && UpperName(name) in t[d] && t[d][UpperName(name)] == NodeOf(v, l, x)
  {
    assert Lists(v, l, d, t[d]);
    assert Listed(v, l, x, t[d]);
    SameUpperName(x.name, name);
  }

  lemma FreeUnlisted(v: Vol, l: Layout, t: Tree, d: nat, name: Name)
    requires Represents(v, l, t) && d in l.live && forall y :: y in l.live[d] ==> !EqIgnoreCase(y.name, name)
    ensures d in t && UpperName(name) !in t[d]
  {
    assert Lists(v, l, d, t[d]);
    forall y | y in l.live[d] ensures UpperName(y.name) != UpperName(name) { SameUpperName(y.name, name); }
    assert !HasName(l.live[d], UpperName(name));
  }

  /** Searching the bytes of a directory for a name is looking the name up in the tree. */
  lemma LookupInTree(v: Vol, l: Layout, loose: set<nat>, t: Tree, d: nat, name: Name)
    requires Good(v, l, loose, t) && d in l.live
    ensures d in t && d in l.chains && InHeap(v, l.chains[d])
    ensures var r := Find(Table(Contents(v.heap, l.chains[d])), 0, name);
            && (r.Some? <==> UpperName(name) in t[d])
            && (r.Some? ==> t[d][UpperName(name)] == NodeOf(v, l, r.value))
  {
    assert DirOk(v, l, d);
    var cells := Table(Contents(v.heap, l.chains[d]));
    FindIsLookup(cells, 0, name);
    var r := Find(cells, 0, name);
    if r.Some? { FoundListed(v, l, t, d, name, r.value); } else { FreeUnlisted(v, l, t, d, name); }
  }
}
