/**
  After a directory has grown, its entry set in its parent must get the new length. The engine
  does not know the parent: it searches the directory tree from the root for a directory entry
  with the grown directory's first cluster and refreshes the set it finds.
 */
module ExFatTree {
  import opened Bytes
  import opened ExFatEntrySet
  import opened ExFatParse
  import opened ExFatScan
  import opened ExFatDirectory
  import opened ExFatChains
  import opened ExFatAllocator
  import opened ExFatLayout
  import opened ExFatInvariant
  import opened ExFatReading
  import opened ExFatStreams

  const MAX_SEARCH_DEPTH: nat := 8

  // ---- The search relies on -----------------------------------------------------------------

  /** Every directory but `target` is as the layout says. */
  ghost predicate Searchable(v: Vol, l: Layout, loose: set<nat>, target: nat) {
    && Sound(l, loose) && Shape(v) && l.root == v.root
    && forall d {:trigger Knows(v, l, d)} :: d in l.depth && d != target ==>
        Knows(v, l, d) && d in l.live && DirOk(v, l, d)
  }

  /** The subdirectories the search descends into. */
  ghost function Subdirs(live: set<SetInfo>, dir: nat, target: nat): (s: set<nat>) {
    set x | x in live && x.isDirectory && x.firstCluster >= 2 && x.firstCluster != dir
        && x.firstCluster != target :: x.firstCluster
  }

  lemma SubdirsAdd(live: set<SetInfo>, x: SetInfo, dir: nat, target: nat)
    ensures Subdirs(live + {x}, dir, target) == Subdirs(live, dir, target) + Subdirs({x}, dir, target)
  {
  }

  method ScanForDirectory(entries: Dir, dir: nat, target: nat) returns (found: Option<SetInfo>, children: seq<nat>)
    ensures found.Some? ==>
              found.value in LiveSets(entries) && found.value.firstCluster == target && found.value.isDirectory
    ensures found.None? ==> forall x :: x in LiveSets(entries) ==> !(x.firstCluster == target && x.isDirectory)
    ensures found.None? ==> Elements(children) == Subdirs(LiveSets(entries), dir, target)
  {
    found, children := None, [];
    var idx := 0;
    ghost var t := Table(entries);
    ghost var seen: set<SetInfo> := {};
    while idx < |entries| && entries[idx][0] != 0
      invariant 0 <= idx <= |entries| && LiveSets(entries) == seen + Live(t, idx)
      invariant forall x :: x in seen ==> !(x.firstCluster == target && x.isDirectory)
      invariant Elements(children) == Subdirs(seen, dir, target)
    {
      TableAt(entries, idx);
      var parsed := None;
      if entries[idx][0] == FILE_ENTRY { parsed := ParseEntrySetAt(entries, idx); }
      if parsed.Some? {
        var x := parsed.value;
        if x.firstCluster == target && x.isDirectory { return parsed, children; }
        SubdirsAdd(seen, x, dir, target);
        if x.isDirectory && x.firstCluster >= 2 && x.firstCluster != dir && x.firstCluster != target {
          AppendElement(children, x.firstCluster);
          children := children + [x.firstCluster];
        }
        seen := seen + {x};
        idx := idx + x.count;
      } else {
        idx := idx + 1;
      }
    }
    assert Live(t, idx) == {};
    assert LiveSets(entries) == seen;
  }

  lemma AppendElement(s: seq<nat>, c: nat)
    ensures Elements(s + [c]) == Elements(s) + {c}
  {
  }

  // ---- Refreshing the set that was found ------------------------------------------------------

  method RefreshSet(d: Dir, x: SetInfo, length: nat) returns (r: Dir)
    requires x.index + x.count <= |d| && x.index < x.streamIndex < x.index + x.count
    ensures r == Refreshed(d, x, length, length, false)
  {
    var e := WithStreamFields(d[x.streamIndex], FlagsByte(x.firstCluster, false), length, length);
    r := RefreshEntrySetChecksum(d[x.streamIndex := e], x.index, x.count);
  }

  lemma LiveSetPlace(d: Dir, x: SetInfo)
    requires x in LiveSets(d)
    ensures x.count >= 3 && x.index + x.count <= |d| && x.index < x.streamIndex < x.index + x.count
  {
    LiveAbove(Table(d), 0);
    TableAt(d, x.index);
    ParsedMeans(d, x.index, x);
  }

  lemma ChecksumOfPrefix(d: Dir, rest: Dir, i: nat, count: nat)
    requires count >= 3 && i + count <= |d|
    ensures RefreshChecksum(d + rest, i, count) == RefreshChecksum(d, i, count) + rest
  {
    var z, z' := d[i := d[i][2 := 0][3 := 0]], (d + rest)[i := d[i][2 := 0][3 := 0]];
    assert z' == z + rest;
    ChecksumIgnoresItself(z, i, z', i, 32 * count);
  }

  /** Refreshing a set in the first entries of a directory refreshes it in the directory. */
  lemma RefreshOfPrefix(d: Dir, rest: Dir, x: SetInfo, length: nat)
    requires x.count >= 3 && x.index + x.count <= |d| && x.index < x.streamIndex < x.index + x.count
    ensures Refreshed(d + rest, x, length, length, false) == Refreshed(d, x, length, length, false) + rest
  {
    var e := WithStreamFields(d[x.streamIndex], FlagsByte(x.firstCluster, false), length, length);
    assert (d + rest)[x.streamIndex := e] == d[x.streamIndex := e] + rest;
    ChecksumOfPrefix(d[x.streamIndex := e], rest, x.index, x.count);
  }

  lemma {:induction false} ContentsJoin(heap: seq<Cluster>, a: seq<nat>, b: seq<nat>)
    requires (forall i :: 0 <= i < |a| ==> a[i] < |heap|) && (forall i :: 0 <= i < |b| ==> b[i] < |heap|)
    ensures Contents(heap, a + b) == Contents(heap, a) + Contents(heap, b)
    decreases |a|
  {
    if a == [] {
      assert a + b == b;
    } else {
      assert (a + b)[1..] == a[1..] + b;
      ContentsJoin(heap, a[1..], b);
    }
  }

  /** Writing the first clusters of a chain changes the beginning of its contents only. */
  lemma PrefixWritten(heap: seq<Cluster>, chain: seq<nat>, k: nat, d: Dir, m: nat)
    requires (forall i :: 0 <= i < |chain| ==> chain[i] < |heap|) && Distinct(chain) && k <= |chain| && |d| == m * k
    ensures Contents(WithContents(heap, chain[..k], d, m), chain) == d + Contents(heap, chain[k..])
    ensures Contents(heap, chain) == Contents(heap, chain[..k]) + Contents(heap, chain[k..])
  {
    var heap' := WithContents(heap, chain[..k], d, m);
    assert chain == chain[..k] + chain[k..];
    ContentsJoin(heap, chain[..k], chain[k..]);
    ContentsJoin(heap', chain[..k], chain[k..]);
    WrittenIsRead(heap, chain[..k], d, m);
    forall i | 0 <= i < |chain[k..]| ensures heap'[chain[k..][i]] == heap[chain[k..][i]] {
      OthersKept(heap, chain[..k], d, m, chain[k..][i]);
    }
    ContentsLocal(heap, heap', chain[k..]);
  }

  /** A directory of which the first clusters were read, refreshed and written back. */
  lemma RefreshedDir(heap: seq<Cluster>, chain: seq<nat>, k: nat, live: set<SetInfo>, x: SetInfo, length: nat, m: nat)
    requires (forall i :: 0 <= i < |chain| ==> chain[i] < |heap| && |heap[chain[i]]| == m) && Distinct(chain)
             && k <= |chain|
    requires DirHolds(Contents(heap, chain), live) && x in LiveSets(Contents(heap, chain[..k])) && length < U64
    ensures x in live && x.index + x.count <= |Contents(heap, chain[..k])|
            && x.index < x.streamIndex < x.index + x.count
    ensures var heap' := WithContents(heap, chain[..k],
            Refreshed(Contents(heap, chain[..k]), x, length, length, false), m);
            DirHolds(Contents(heap', chain),
                live - {x} + {x.(dataLength := length, validLength := length, noFatChain := false)})
  {
    var d, rest := Contents(heap, chain[..k]), Contents(heap, chain[k..]);
    LiveSetPlace(d, x);
    var d' := Refreshed(d, x, length, length, false);
    ContentsLength(heap, chain[..k], m);
    PrefixWritten(heap, chain, k, d', m);
    PrefixLive(d, d + rest);
    RefreshOfPrefix(d, rest, x, length);
    RefreshEdit(d + rest, x, length, length, false, d' + rest);
  }

  // ---- The tree -------------------------------------------------------------------------------

  /** `t` lies below `dir` in the directory tree. */
  ghost predicate Under(l: Layout, dir: nat, t: nat)
    requires RefsOk(l)
    decreases if t in l.depth then l.depth[t] else 0
  {
    t in l.depth && t in l.ref && (l.ref[t].dir == dir || (assert RefOk(l, t); Under(l, dir, l.ref[t].dir)))
  }

  lemma {:induction false} UnderIsDeeper(l: Layout, dir: nat, t: nat)
    requires RefsOk(l) && Under(l, dir, t)
    ensures dir in l.depth && l.depth[dir] < l.depth[t]
    decreases if t in l.depth then l.depth[t] else 0
  {
    assert RefOk(l, t);
    if l.ref[t].dir != dir { UnderIsDeeper(l, dir, l.ref[t].dir); }
  }

  /** The entry of directory `t` in its parent is among what the engine reads of the parent. */
  ghost predicate EntryRead(v: Vol, l: Layout, t: nat)
    requires t in l.ref
  {
    var Ref(p, x) := l.ref[t];
    p in l.chains && x.index + x.count <= EntriesRead(v, l, p)
  }

  /** So is the entry of every directory on the way from `dir` down to `t`. */
  ghost predicate PathRead(v: Vol, l: Layout, dir: nat, t: nat)
    requires RefsOk(l)
    decreases if t in l.depth then l.depth[t] else 0
  {
    t in l.depth && t in l.ref && EntryRead(v, l, t)
        && (l.ref[t].dir == dir || (assert RefOk(l, t); PathRead(v, l, dir, l.ref[t].dir)))
  }

  lemma {:induction false} PathReadIsUnder(v: Vol, l: Layout, dir: nat, t: nat)
    requires RefsOk(l) && PathRead(v, l, dir, t)
    ensures Under(l, dir, t)
    decreases if t in l.depth then l.depth[t] else 0
  {
    assert RefOk(l, t);
    if l.ref[t].dir != dir { PathReadIsUnder(v, l, dir, l.ref[t].dir); }
  }

  /** A readable way that is longer than one step starts with a readable step. */
  lemma {:induction false} PathSplits(v: Vol, l: Layout, dir: nat, t: nat) returns (c: nat)
    requires RefsOk(l) && PathRead(v, l, dir, t) && l.ref[t].dir != dir
    ensures c in l.depth && c in l.ref && l.ref[c].dir == dir && EntryRead(v, l, c) && PathRead(v, l, c, t)
    decreases if t in l.depth then l.depth[t] else 0
  {
    assert RefOk(l, t);
    var p := l.ref[t].dir;
    if l.ref[p].dir == dir {
      c := p;
    } else {
      c := PathSplits(v, l, dir, p);
    }
  }

  lemma {:induction false} PathJoins(v: Vol, l: Layout, dir: nat, c: nat, t: nat)
    requires RefsOk(l) && c in l.depth && c in l.ref && l.ref[c].dir == dir && EntryRead(v, l, c)
             && PathRead(v, l, c, t)
    ensures PathRead(v, l, dir, t)
    decreases if t in l.depth then l.depth[t] else 0
  {
    assert RefOk(l, t);
    if l.ref[t].dir != dir && l.ref[t].dir != c { PathJoins(v, l, dir, c, l.ref[t].dir); }
  }

  // ---- The search -----------------------------------------------------------------------------

  /** What the search reads of a directory: a beginning of it, with the sets that end there. */
  lemma ReadForSearch(v: Vol, l: Layout, loose: set<nat>, target: nat, dir: nat, r: Result<DirBuffer>)
    requires Searchable(v, l, loose, target) && dir in l.depth && dir != target && DirRead(v, dir, r)
    ensures r.Ok? && dir in l.live && BufferOf(v, l, dir, r.value)
    ensures LiveSets(r.value.entries) == EndingBy(l.live[dir], EntriesRead(v, l, dir))
  {
    assert Knows(v, l, dir) && DirOk(v, l, dir);
    PrefixRead(v, l, dir);
    ReadLength(v, l, dir);
    var chain := l.chains[dir];
    ContentsPrefix(v.heap, chain, |r.value.chain|);
    ContentsLength(v.heap, r.value.chain, v.entriesPerCluster);
    PrefixLive(r.value.entries, Contents(v.heap, chain));
  }

  lemma ContentsPrefix(heap: seq<Cluster>, chain: seq<nat>, k: nat)
    requires (forall i :: 0 <= i < |chain| ==> chain[i] < |heap|) && k <= |chain|
    ensures var d, d0 := Contents(heap, chain), Contents(heap, chain[..k]); |d0| <= |d| && SameEntries(d0, d, 0, |d0|)
  {
    assert chain == chain[..k] + chain[k..];
    ContentsJoin(heap, chain[..k], chain[k..]);
  }

  /** The entry of directory `t` in its parent has been given the new length, and remembered. */
  ghost predicate EntryRefreshed(v: Vol, v': Vol, l: Layout, t: nat, length: nat) {
    && t in l.ref
    && var Ref(p, x) := l.ref[t];
       && p in l.chains && p in l.live && InHeap(v, l.chains[p]) && |v'.heap| == |v.heap|
       && v'.cache == Remember(v.cache, StreamInfo(t, length, length, false, true))
       && HeapWritten(v, v'.(cache := v.cache), l.chains[p])
       && DirHolds(Contents(v'.heap, l.chains[p]),
         l.live[p] - {x} + {x.(dataLength := length, validLength := length, noFatChain := false)})
  }

  lemma FoundIsReferred(l: Layout, loose: set<nat>, dir: nat, x: SetInfo)
    requires Sound(l, loose) && dir in l.live && x in l.live[dir] && x.firstCluster in l.depth
    ensures x.firstCluster in l.ref && l.ref[x.firstCluster] == Ref(dir, x)
  {
    StreamsOwnFirst(l, loose);
    assert LiveOk(l, dir, x);
  }

  /** The buffer holds the first clusters of directory `dir`. */
  ghost predicate BufferOf(v: Vol, l: Layout, dir: nat, buffer: DirBuffer) {
    && dir in l.chains && dir in l.live && InHeap(v, l.chains[dir])
    && 0 < |buffer.chain| <= |l.chains[dir]| && buffer.chain == l.chains[dir][..|buffer.chain|]
    && InHeap(v, buffer.chain) && buffer.entries == Contents(v.heap, buffer.chain)
      && LiveSets(buffer.entries) <= l.live[dir]
  }

  lemma FoundAndRefreshed(v: Vol, v': Vol, l: Layout, loose: set<nat>, dir: nat, buffer: DirBuffer, x: SetInfo,
                          length: nat)
    requires Sound(l, loose) && Shape(v) && BufferOf(v, l, dir, buffer) && DirOk(v, l, dir)
    requires x in LiveSets(buffer.entries) && x.firstCluster in l.depth && length < U64
    requires x.index + x.count <= |buffer.entries| && x.index < x.streamIndex < x.index + x.count
    requires v'.cache == Remember(v.cache, StreamInfo(x.firstCluster, length, length, false, true))
    requires HeapWritten(v, v'.(cache := v.cache), buffer.chain)
    requires v'.heap == WithContents(v.heap, buffer.chain, Refreshed(buffer.entries, x, length, length, false),
             v.entriesPerCluster)
    ensures EntryRefreshed(v, v', l, x.firstCluster, length)
  {
    assert ChainOwned(l, dir);
    FoundIsReferred(l, loose, dir, x);
    RefreshedDir(v.heap, l.chains[dir], |buffer.chain|, l.live[dir], x, length, v.entriesPerCluster);
    WrittenPart(v, v'.(cache := v.cache), buffer.chain, l.chains[dir]);
  }

  lemma WrittenPart(v: Vol, v': Vol, part: seq<nat>, chain: seq<nat>)
    requires HeapWritten(v, v', part) && forall i :: 0 <= i < |part| ==> part[i] in chain
    ensures HeapWritten(v, v', chain)
  {
  }

  method RefreshFound(disk: Volume, buffer: DirBuffer, x: SetInfo, length: nat, ghost l: Layout, ghost loose: set<nat>,
                      ghost dir: nat)
    requires Sound(l, loose) && Shape(disk.V()) && BufferOf(disk.V(), l, dir, buffer) && DirOk(disk.V(), l, dir)
    requires x in LiveSets(buffer.entries) && x.firstCluster in l.depth && length < U64
    modifies disk
    ensures EntryRefreshed(old(disk.V()), disk.V(), l, x.firstCluster, length)
  {
    LiveSetPlace(buffer.entries, x);
    var entries := RefreshSet(buffer.entries, x, length);
    WriteDir(disk, buffer.chain, entries);
    disk.cache := Remember(disk.cache, StreamInfo(x.firstCluster, length, length, false, true));
    FoundAndRefreshed(old(disk.V()), disk.V(), l, loose, dir, buffer, x, length);
  }

  lemma ChildIsDirectory(l: Layout, loose: set<nat>, dir: nat, target: nat, live: set<SetInfo>, c: nat)
    requires Sound(l, loose) && dir in l.live && live <= l.live[dir] && c in Subdirs(live, dir, target)
    ensures c in l.depth && c != target && c in l.ref && l.ref[c].dir == dir && l.ref[c].info in live
    ensures dir in l.depth && l.depth[c] == l.depth[dir] + 1
  {
    var x :| x in live && x.isDirectory && x.firstCluster >= 2 && x.firstCluster == c;
    assert LiveOk(l, dir, x);
    assert RefOk(l, c);
  }

  method ReadForUpdate(disk: Volume, dir: nat, ghost target: nat, ghost l: Layout, ghost loose: set<nat>)
    returns (buffer: DirBuffer)
    requires Searchable(disk.V(), l, loose, target) && dir in l.depth && dir != target
    ensures BufferOf(disk.V(), l, dir, buffer) && DirOk(disk.V(), l, dir)
    ensures LiveSets(buffer.entries) == EndingBy(l.live[dir], EntriesRead(disk.V(), l, dir))
  {
    StreamsOwnFirst(l, loose);
    var read := ReadDir(disk, dir);
    ReadForSearch(disk.V(), l, loose, target, dir, read);
    assert Knows(disk.V(), l, dir);
    buffer := read.value;
  }

  /** The target's entry stands in this directory, among what is read of it. */
  ghost predicate EntryHere(v: Vol, l: Layout, dir: nat, target: nat) {
    target in l.ref && l.ref[target].dir == dir && EntryRead(v, l, target)
  }

  lemma FoundMeansHere(v: Vol, l: Layout, loose: set<nat>, dir: nat, target: nat, x: SetInfo)
    requires Sound(l, loose) && target in l.depth && dir in l.live && dir in l.chains
    requires x in EndingBy(l.live[dir], EntriesRead(v, l, dir)) && x.firstCluster == target
    ensures EntryHere(v, l, dir, target)
  {
    FoundIsReferred(l, loose, dir, x);
  }

  lemma HereIsFound(v: Vol, l: Layout, loose: set<nat>, dir: nat, target: nat)
    requires Sound(l, loose) && target in l.depth && dir in l.live && EntryHere(v, l, dir, target)
    ensures exists x :: x in EndingBy(l.live[dir], EntriesRead(v, l, dir)) && x.firstCluster == target && x.isDirectory
  {
    assert RefOk(l, target);
    assert l.ref[target].info in EndingBy(l.live[dir], EntriesRead(v, l, dir));
  }

  /** One directory of the search: the target's entry is here, or the search has to descend. */
  method UpdateHere(disk: Volume, dir: nat, target: nat, length: nat, ghost l: Layout, ghost loose: set<nat>)
    returns (ok: bool, children: seq<nat>)
    requires Searchable(disk.V(), l, loose, target) && target in l.depth && dir in l.depth && dir != target
             && length < U64
    modifies disk
    ensures ok <==> EntryHere(old(disk.V()), l, dir, target)
    ensures ok ==> EntryRefreshed(old(disk.V()), disk.V(), l, target, length)
    ensures !ok ==> disk.V() == old(disk.V()) && dir in l.live && dir in l.chains
    ensures !ok ==>
              Elements(children) == Subdirs(EndingBy(l.live[dir], EntriesRead(old(disk.V()), l, dir)), dir, target)
  {
    ghost var v := disk.V();
    var buffer := ReadForUpdate(disk, dir, target, l, loose);
    var found;
    found, children := ScanForDirectory(buffer.entries, dir, target);
    ok := found.Some?;
    if ok {
      FoundMeansHere(v, l, loose, dir, target, found.value);
      RefreshFound(disk, buffer, found.value, length, l, loose, dir);
    } else if EntryHere(v, l, dir, target) {
      HereIsFound(v, l, loose, dir, target);
    }
  }

  /** Among the children that were read the search succeeds exactly where it does from here. */
  ghost predicate LeadsOn(v: Vol, l: Layout, children: set<nat>, target: nat)
    requires RefsOk(l)
  {
    exists c: nat :: c in children && PathRead(v, l, c, target)
  }

  lemma SearchDescends(v: Vol, l: Layout, loose: set<nat>, dir: nat, target: nat, children: set<nat>)
    requires Sound(l, loose) && target in l.depth && dir in l.live && dir in l.chains && dir in l.depth && dir != target
    requires !EntryHere(v, l, dir, target)
             && children == Subdirs(EndingBy(l.live[dir], EntriesRead(v, l, dir)), dir, target)
    ensures PathRead(v, l, dir, target) <==> LeadsOn(v, l, children, target)
  {
    StreamsOwnFirst(l, loose);
    if PathRead(v, l, dir, target) {
      var c := PathSplits(v, l, dir, target);
      assert RefOk(l, c);
      PathReadIsUnder(v, l, c, target);
      UnderIsDeeper(l, c, target);
      assert l.ref[c].info in EndingBy(l.live[dir], EntriesRead(v, l, dir));
    }
    if LeadsOn(v, l, children, target) {
      var c: nat :| c in children && PathRead(v, l, c, target);
      ChildIsDirectory(l, loose, dir, target, EndingBy(l.live[dir], EntriesRead(v, l, dir)), c);
      PathJoins(v, l, dir, c, target);
    }
  }

  /** The search from `dir` comes to the target. */
  ghost predicate Findable(v: Vol, l: Layout, dir: nat, target: nat)
    requires RefsOk(l)
  {
    target in l.depth && l.depth[target] <= MAX_SEARCH_DEPTH + 1 && PathRead(v, l, dir, target)
  }

  /**
    `exfat_update_stream_metadata_in_tree` for a directory that has become `length` bytes long.
    It succeeds exactly when every entry on the way to the target lies in the clusters that are
    read, and the target is not too deep.
   */
  method UpdateInTree(disk: Volume, dir: nat, target: nat, length: nat, depth: nat, ghost v: Vol, ghost l: Layout,
                      ghost loose: set<nat>)
    returns (ok: bool)
    requires disk.V() == v && Searchable(v, l, loose, target) && target in l.depth && dir in l.depth && dir != target
             && length < U64
    requires depth == l.depth[dir]
    modifies disk
    ensures !ok ==> disk.V() == v
    ensures ok ==> EntryRefreshed(v, disk.V(), l, target, length)
    ensures ok <==> Findable(v, l, dir, target)
    decreases MAX_SEARCH_DEPTH + 1 - depth
  {
    if depth > MAX_SEARCH_DEPTH {
      TooDeep(v, l, loose, dir, target);
      return false;
    }
    var children;
    ok, children := UpdateHere(disk, dir, target, length, l, loose);
    if ok {
      assert RefOk(l, target);
      return;
    }
    SearchDescends(v, l, loose, dir, target, Elements(children));
    ok := UpdateBelow(disk, dir, children, target, length, depth, v, l, loose);
  }

  /** The recursive calls for the subdirectories. */
  method UpdateBelow(disk: Volume, ghost dir: nat, children: seq<nat>, target: nat, length: nat, depth: nat,
                     ghost v: Vol, ghost l: Layout, ghost loose: set<nat>)
    returns (ok: bool)
    requires disk.V() == v && Searchable(v, l, loose, target) && target in l.depth && length < U64
             && depth <= MAX_SEARCH_DEPTH
    requires dir in l.live && dir in l.chains && dir in l.depth && depth == l.depth[dir]
    requires Elements(children) == Subdirs(EndingBy(l.live[dir], EntriesRead(v, l, dir)), dir, target)
    modifies disk
    ensures !ok ==> disk.V() == v
    ensures ok ==> EntryRefreshed(v, disk.V(), l, target, length)
    ensures ok <==> l.depth[target] <= MAX_SEARCH_DEPTH + 1 && LeadsOn(v, l, Elements(children), target)
    decreases MAX_SEARCH_DEPTH + 1 - depth, 0
  {
    for i := 0 to |children|
      invariant disk.V() == v
      invariant l.depth[target] <= MAX_SEARCH_DEPTH + 1 ==> forall j :: 0 <= j < i ==>
                  !PathRead(v, l, children[j], target)
    {
      assert children[i] in Elements(children);
      ChildIsDirectory(l, loose, dir, target, EndingBy(l.live[dir], EntriesRead(v, l, dir)), children[i]);
      ok := UpdateInTree(disk, children[i], target, length, depth + 1, v, l, loose);
      if ok { return; }
    }
    return false;
  }

  lemma TooDeep(v: Vol, l: Layout, loose: set<nat>, dir: nat, target: nat)
    requires Sound(l, loose) && dir in l.depth && l.depth[dir] > MAX_SEARCH_DEPTH
    ensures !Findable(v, l, dir, target)
  {
    if PathRead(v, l, dir, target) {
      PathReadIsUnder(v, l, dir, target);
      UnderIsDeeper(l, dir, target);
    }
  }
}
