/**
  Volumes on which an operation does less, or more, than its reply says. Each is a chain of
  directories, one in the other, of one 512-byte cluster each, with one free cluster behind them:
  the root is cluster 2, and directory `k` levels down is cluster `k + 2`.
 */
module ExFatExamples {
  import opened Bytes
  import opened Whitespace
  import opened ExFatEntrySet
  import opened ExFatParse
  import opened ExFatScan
  import opened ExFatDirectory
  import opened ExFatChains
  import opened ExFatAllocator
  import opened ExFatLayout
  import opened ExFatInvariant
  import opened ExFatReading
  import opened ExFatGrowth
  import opened ExFatInstall
  import opened ExFatNames
  import opened ExFatView
  import opened ExFatData
  import opened ExFatTaking
  import opened ExFatOneTree
  import opened ExFatOperations
  import opened ExFatDirectories
  import opened ExFatListing
  import opened ExFatDeleting

  // ---- Nested directories -----------------------------------------------------------------------

  const ENTRIES: nat := 16

  predicate Level(n: nat, c: nat) { 2 <= c < n + 3 }

  /** The volume with `n` directories below the root; `heap` has their entries. */
  function NestedVolume(n: nat, heap: seq<Cluster>, cache: seq<StreamInfo>): (v: Vol) {
    Vol(n + 2, ENTRIES, 2, seq(n + 4, c requires 0 <= c => if Level(n, c) then CHAIN_END_MARK else 0),
        seq(n + 4, c requires 0 <= c => Level(n, c)), heap, 2, cache)
  }

  ghost function NestedLayout(x: seq<SetInfo>, last: set<SetInfo>): (l: Layout)
    ensures IsNested(l, x, last)
  {
    var n := |x|;
    Layout(
      32 * ENTRIES, 2,
      map c: nat | 2 <= c < n + 3 && Level(n, c) :: c,
      map c: nat | 2 <= c < n + 3 && Level(n, c) :: [c],
      {},
      map c: nat | 2 <= c < n + 3 && Level(n, c) :: (c - 2) as nat,
      map c: nat | 2 <= c < n + 3 && Level(n, c) :: if c < n + 2 then {x[c - 2]} else last,
      map c: nat | 3 <= c < n + 3 && Level(n, c) :: Ref(c - 1, x[c - 3]))
  }

  ghost predicate IsNested(l: Layout, x: seq<SetInfo>, last: set<SetInfo>) {
    var n := |x|;
    && l.clusterBytes == 32 * ENTRIES && l.root == 2 && l.flat == {}
    && (forall c: nat :: c in l.owner <==> Level(n, c)) && (forall c :: c in l.owner ==> l.owner[c] == c)
    && (forall c: nat :: c in l.chains <==> Level(n, c)) && (forall c :: c in l.chains ==> l.chains[c] == [c])
    && (forall c: nat :: c in l.depth <==> Level(n, c)) && (forall c :: c in l.depth ==> l.depth[c] == c - 2)
    && (forall c: nat :: c in l.live <==> Level(n, c))
      && (forall c :: c in l.live ==> l.live[c] == if c < n + 2 then {x[c - 2]} else last)
    && (forall c: nat :: c in l.ref <==> Level(n, c) && c != 2)
      && (forall c :: c in l.ref ==> l.ref[c] == Ref(c - 1, x[c - 3]))
  }

  /** A set that refers to a directory of one cluster. */
  ghost predicate RefersTo(x: SetInfo, c: nat) {
    && x.firstCluster == c && x.isDirectory && !x.noFatChain && x.validLength <= x.dataLength <= 32 * ENTRIES
      && NotDotName(x.name)
  }

  /** The set in directory `k` refers to directory `k + 1`. */
  ghost predicate Downward(x: seq<SetInfo>) {
    forall k: nat {:trigger RefersTo(x[k], k + 3)} :: k < |x| ==> RefersTo(x[k], k + 3)
  }

  /** The last directory has empty files in it. */
  ghost predicate EmptyFiles(last: set<SetInfo>) {
    NamesOk(last) && forall y :: y in last ==> !y.isDirectory && y.firstCluster == 0
  }

  ghost predicate HoldsLevel(heap: seq<Cluster>, x: seq<SetInfo>, k: nat) {
    k < |x| && k + 2 < |heap| && DirHolds(heap[k + 2], {x[k]})
  }

  /** The clusters of the directories hold these sets. */
  ghost predicate Holding(heap: seq<Cluster>, x: seq<SetInfo>, last: set<SetInfo>) {
    && |heap| == |x| + 4 && |x| < 100 && (forall c :: 0 <= c < |heap| ==> |heap[c]| == ENTRIES)
    && (forall k: nat {:trigger HoldsLevel(heap, x, k)} :: k < |x| ==> HoldsLevel(heap, x, k))
    && DirHolds(heap[|x| + 2], last)
  }

  ghost predicate KnownDirectories(cache: seq<StreamInfo>) {
    CacheKeys(cache) && forall i :: 0 <= i < |cache| ==> !cache[i].noFatChain && cache[i].dataLength <= 32 * ENTRIES
  }

  lemma OneCluster(length: nat)
    requires length <= 32 * ENTRIES
    ensures ClustersFor(32 * ENTRIES, length) == 1
  {
    if length == 32 * ENTRIES { GrownCount(32 * ENTRIES, 1); } else { SmallLength(32 * ENTRIES, length); }
  }

  lemma NestedOwned(l: Layout, x: seq<SetInfo>, last: set<SetInfo>)
    requires IsNested(l, x, last)
    ensures Owned(l)
  {
    forall a | a in l.chains ensures ChainOwned(l, a) { assert l.chains[a] == [a]; }
    forall c | c in l.owner ensures OwnerOk(l, c) { assert l.chains[c] == [c]; }
  }

  lemma NestedRef(l: Layout, x: seq<SetInfo>, last: set<SetInfo>, a: nat)
    requires IsNested(l, x, last) && Downward(x) && a in l.ref
    ensures RefOk(l, a)
  {
    var k: nat := a - 3;
    assert RefersTo(x[k], k + 3);
    OneCluster(x[k].dataLength);
    assert Level(|x|, a - 1) && l.live[a - 1] == {x[k]} && l.chains[a] == [a];
  }

  lemma NestedLive(l: Layout, x: seq<SetInfo>, last: set<SetInfo>, d: nat, y: SetInfo)
    requires IsNested(l, x, last) && Downward(x) && EmptyFiles(last) && d in l.live && y in l.live[d]
    ensures LiveOk(l, d, y) && NotDotName(y.name)
  {
    if d < |x| + 2 {
      var k: nat := d - 2;
      assert y == x[k] && RefersTo(x[k], k + 3);
      assert Level(|x|, d + 1);
    }
  }

  lemma NestedSound(l: Layout, x: seq<SetInfo>, last: set<SetInfo>)
    requires IsNested(l, x, last) && Downward(x) && EmptyFiles(last)
    ensures Sound(l, {})
  {
    NestedOwned(l, x, last);
    forall a | a in l.ref ensures RefOk(l, a) { NestedRef(l, x, last, a); }
    forall d, y | d in l.live && y in l.live[d] ensures LiveOk(l, d, y) { NestedLive(l, x, last, d, y); }
    forall d | d in l.live ensures NamesOk(l.live[d]) {
      forall y | y in l.live[d] ensures NotDotName(y.name) { NestedLive(l, x, last, d, y); }
    }
    assert Directories(l, {}) by { assert Level(|x|, 2); }
  }

  lemma NestedLinks(l: Layout, x: seq<SetInfo>, last: set<SetInfo>, heap: seq<Cluster>, cache: seq<StreamInfo>)
    requires IsNested(l, x, last)
    ensures AllLinks(NestedVolume(|x|, heap, cache), l) && BitmapOk(NestedVolume(|x|, heap, cache), l)
  {
    var v := NestedVolume(|x|, heap, cache);
    forall a | a in l.chains ensures LinksOk(v, l, a) { assert l.chains[a] == [a] && Level(|x|, a); }
  }

  lemma OneClusterContents(heap: seq<Cluster>, c: nat)
    requires c < |heap|
    ensures Contents(heap, [c]) == heap[c]
  {
    assert Contents(heap, [c]) == heap[c] + Contents(heap, []);
  }

  lemma NestedDir(l: Layout, x: seq<SetInfo>, last: set<SetInfo>, v: Vol, d: nat)
    requires IsNested(l, x, last) && Holding(v.heap, x, last) && d in l.live
    ensures DirOk(v, l, d) && Contents(v.heap, l.chains[d]) == v.heap[d]
  {
    assert Level(|x|, d);
    assert l.chains[d] == [d];
    OneClusterContents(v.heap, d);
    NestedHolds(v.heap, x, last, d, l.live[d]);
  }

  lemma NestedHolds(heap: seq<Cluster>, x: seq<SetInfo>, last: set<SetInfo>, d: nat, live: set<SetInfo>)
    requires Holding(heap, x, last) && Level(|x|, d) && live == if d < |x| + 2 then {x[d - 2]} else last
    ensures DirHolds(heap[d], live)
  {
    if d < |x| + 2 {
      var k: nat := d - 2;
      assert HoldsLevel(heap, x, k);
      assert k + 2 == d;
    } else {
      assert d == |x| + 2;
    }
  }

  /** All of it is a sound volume. */
  lemma NestedIsGood(heap: seq<Cluster>, cache: seq<StreamInfo>, x: seq<SetInfo>, last: set<SetInfo>) returns (t: Tree)
    requires Holding(heap, x, last) && Downward(x) && EmptyFiles(last) && KnownDirectories(cache)
    ensures Good(NestedVolume(|x|, heap, cache), NestedLayout(x, last), {}, t)
  {
    var v, l := NestedVolume(|x|, heap, cache), NestedLayout(x, last);
    assert Sound(l, {}) by { NestedSound(l, x, last); }
    assert Matches(v, l, {}) by { NestedMatches(l, x, last, v, cache); }
    t := TreeExists(v, l, {});
  }

  lemma NestedCache(l: Layout, x: seq<SetInfo>, last: set<SetInfo>, e: StreamInfo)
    requires IsNested(l, x, last) && !e.noFatChain && e.dataLength <= 32 * ENTRIES
    ensures CacheEntryOk(l, e)
  {
    OneCluster(e.dataLength);
    if e.firstCluster in l.chains { assert l.chains[e.firstCluster] == [e.firstCluster]; }
  }

  lemma NestedMatches(l: Layout, x: seq<SetInfo>, last: set<SetInfo>, v: Vol, cache: seq<StreamInfo>)
    requires IsNested(l, x, last) && Holding(v.heap, x, last) && KnownDirectories(cache)
             && v == NestedVolume(|x|, v.heap, cache)
    ensures Matches(v, l, {})
  {
    NestedLinks(l, x, last, v.heap, cache);
    assert AllDirs(v, l, {}) by {
      forall d | d in l.live ensures DirOk(v, l, d) { NestedDir(l, x, last, v, d); }
    }
    assert CacheOk(v, l) by {
      forall i | 0 <= i < |cache| ensures CacheEntryOk(l, cache[i]) { NestedCache(l, x, last, cache[i]); }
    }
  }

  // ---- Clusters -----------------------------------------------------------------------------------

  /** A cluster full of volume labels: no entry is free, and none belongs to a set. */
  ghost predicate AllLabels(c: Cluster) { |c| == ENTRIES && forall i :: 0 <= i < |c| ==> c[i][0] == 0x83 }

  function Labels(): (c: Cluster)
    ensures AllLabels(c)
  {
    seq(ENTRIES, _ => ZERO_ENTRY[0 := 0x83])
  }

  lemma {:induction false} NoSetsAt(t: seq<Cell>, i: nat)
    requires Cells(t) && forall j :: 0 <= j < |t| ==> t[j].kind == 0x83
    ensures WellFormed(t, i) && Live(t, i) == {}
    decreases |t| - i
  {
    if i < |t| { NoSetsAt(t, i + 1); }
  }

  lemma LabelsHoldNothing(c: Cluster, n: nat)
    requires AllLabels(c) && n > 0
    ensures DirHolds(c, {}) && TrailingFree(c) == 0 && FirstFit(Table(c), 0, n).None?
  {
    var t := Table(c);
    forall j | 0 <= j < |t| ensures t[j].kind == 0x83 { TableAt(c, j); }
    NoSetsAt(t, 0);
    forall i | 0 <= i ensures !FreeWindow(t, i, n) { if i < |t| { WindowAvoids(t, i, n, i); } }
    FirstFitIsFirst(t, 0, n);
    TrailingIs(c);
  }

  /** Entries of zeros behind which nothing lies. */
  lemma ZerosHoldNothing(n: nat)
    requires 0 < n <= ENTRIES
    ensures DirHolds(ZeroEntries(ENTRIES), {}) && FirstFit(Table(ZeroEntries(ENTRIES)), 0, n) == Some(0)
  {
    EmptyDirectory(ENTRIES);
    var t := Table(ZeroEntries(ENTRIES));
    forall j | 0 <= j < ENTRIES ensures IsFree(t[j].kind) { TableAt(ZeroEntries(ENTRIES), j); }
    assert FreeWindow(t, 0, n);
    FirstFitIsFirst(t, 0, n);
  }

  /** A directory's cluster with one set in it. */
  method OneSet(name: Name, s: Stream) returns (c: Cluster)
    requires PlainName(name) && |name| <= 15 && StreamFits(s)
    ensures |c| == ENTRIES && DirHolds(c, {ParsedForm(0, name, s, 3)})
  {
    var built := BuildEntrySet(name, s);
    ZerosHoldNothing(3);
    c := Splice(ZeroEntries(ENTRIES), 0, built.value);
    InsertEdit(ZeroEntries(ENTRIES), 0, built.value, name, s, c);
    assert {} + {ParsedForm(0, name, s, 3)} == {ParsedForm(0, name, s, 3)};
  }

  // ---- What is needed of them -----------------------------------------------------------------------

  function As(n: nat): (text: seq<nat>)
    ensures |text| == n && forall i :: 0 <= i < n ==> text[i] == 65
  {
    seq(n, _ => 65)
  }

  /** A text of letters is a name as it is. */
  lemma LettersAreAName(text: seq<nat>)
    requires 1 <= |text| <= 255 && forall i :: 0 <= i < |text| ==> 65 <= text[i] <= 90
    ensures NameOf(text) == Some(text)
  {
    assert TrimStart(text) == text && TrimEnd(text) == text;
    assert forall i :: 0 <= i < |text| ==> GoodCharacter(text[i]);
  }

  lemma OneFree(n: nat, heap: seq<Cluster>, cache: seq<StreamInfo>)
    ensures |FreeClusters(NestedVolume(n, heap, cache))| == 1
  {
    var v := NestedVolume(n, heap, cache);
    assert forall c: nat :: c in FreeClusters(v) ==> c == n + 3 by {
      assert forall c: nat :: 2 <= c < n + 3 ==> Level(n, c);
    }
    assert FreeClusters(v) == {n + 3} by { assert !Level(n, n + 3) && n + 3 in FreeClusters(v); }
  }

  /** An empty directory is searched in vain. */
  lemma NothingFound(d: Dir, name: Name)
    requires DirHolds(d, {})
    ensures Find(Table(d), 0, name).None?
  {
    FindIsLookup(Table(d), 0, name);
  }

  /** The directory is read in full and can grow. */
  lemma NestedIsUsable(heap: seq<Cluster>, cache: seq<StreamInfo>, x: seq<SetInfo>, last: set<SetInfo>, d: nat,
                       name: Option<Name>)
    requires Holding(heap, x, last) && Level(|x|, d) && (name.Some? ==> RequiredEntryCount(|name.value|).Some?)
    ensures Usable(NestedVolume(|x|, heap, cache), NestedLayout(x, last), d, name)
  {
    var l := NestedLayout(x, last);
    assert d in l.chains && d in l.depth && d in l.live && l.chains[d] == [d];
  }

  /** Writing an empty file under the name goes as far as `e` says. */
  ghost predicate EndsWith(v: Vol, l: Layout, t: Tree, d: nat, name: seq<nat>, progress: nat -> bool,
                           e: Option<Error>) {
    && Good(v, l, {}, t) && NameOf(name) == Some(name) && Usable(v, l, d, Some(name)) && d >= 2
    && Addressed(v, l, t, d, name) && CommitError(v, l, d, name, 0, progress) == e
  }

  /** What the write came to. */
  ghost predicate Ended(v: Vol, v': Vol, l: Layout, t: Tree, d: nat, name: Name, progress: nat -> bool,
                        e: Option<Error>,
                        r: Result<()>, l': Layout, loose': set<nat>) {
    && d in t && r == (if e.Some? then Err(e.value) else if progress(2) then Ok(()) else Err(Canceled))
    && if e.Some? then HalfDone(v, v', l, {}, t, d, e.value) else Good(v', l', loose', Put(t, d, name, File([])))
  }

  lemma EndsSo(v: Vol, v': Vol, l: Layout, t: Tree, d: nat, name: Name, progress: nat -> bool, e: Option<Error>,
               r: Result<()>, l': Layout, loose': set<nat>, written: bool)
    requires Addressed(v, l, t, d, name) && CommitError(v, l, d, name, 0, progress) == e
    requires WriteOutcome(v, v', l, {}, t, d, name, [], progress, r, l', loose', written)
    ensures Ended(v, v', l, t, d, name, progress, e, r, l', loose')
  {
    assert ClusterCountFor(0, ClusterBytes(v)) == 0;
  }

  /** The write itself. */
  method WriteEmpty(disk: Volume, d: nat, name: seq<nat>, progress: nat -> bool, ghost l: Layout, ghost t: Tree,
                    ghost e: Option<Error>)
    returns (r: Result<()>, ghost l': Layout, ghost loose': set<nat>)
    requires EndsWith(disk.V(), l, t, d, name, progress, e)
    modifies disk
    ensures Ended(old(disk.V()), disk.V(), l, t, d, name, progress, e, r, l', loose')
  {
    ghost var v, written := disk.V(), false;
    r, l', loose', written := WriteFile(disk, d, name, [], progress, l, {}, t);
    EndsSo(v, disk.V(), l, t, d, name, progress, e, r, l', loose', written);
  }

  lemma Addresses(heap: seq<Cluster>, cache: seq<StreamInfo>, x: seq<SetInfo>, last: set<SetInfo>, t: Tree, d: nat,
                  name: seq<nat>)
    requires Holding(heap, x, last) && Level(|x|, d)
             && Good(NestedVolume(|x|, heap, cache), NestedLayout(x, last), {}, t)
    requires 1 <= |name| <= 255 && forall i :: 0 <= i < |name| ==> 65 <= name[i] <= 90
    ensures NameOf(name) == Some(name) && Usable(NestedVolume(|x|, heap, cache), NestedLayout(x, last), d, Some(name))
    ensures Addressed(NestedVolume(|x|, heap, cache), NestedLayout(x, last), t, d, name)
    ensures Contents(heap, NestedLayout(x, last).chains[d]) == heap[d]
  {
    LettersAreAName(name);
    NestedIsUsable(heap, cache, x, last, d, Some(name));
    WellAddressed(NestedVolume(|x|, heap, cache), NestedLayout(x, last), {}, t, d, name);
    NestedDir(NestedLayout(x, last), x, last, NestedVolume(|x|, heap, cache), d);
  }

  // ---- A write that is refused after it has been done ---------------------------------------------------

  lemma OnlyCall(progress: nat -> bool)
    requires progress(1)
    ensures forall k :: 1 <= k <= 1 ==> progress(k)
  {
  }

  lemma EndsWell(v: Vol, l: Layout, d: nat, name: Name, progress: nat -> bool)
    requires d in l.chains && InHeap(v, l.chains[d]) && Contents(v.heap, l.chains[d]) == ZeroEntries(ENTRIES)
             && 1 <= |name| <= 15
    requires |v.bitmap| == v.clusterCount + 2 && progress(0) && progress(1)
    ensures CommitError(v, l, d, name, 0, progress).None?
  {
    ZerosHoldNothing(3);
    NothingFound(ZeroEntries(ENTRIES), name);
    OnlyCall(progress);
  }

  lemma EmptyRoot(heap: seq<Cluster>, progress: nat -> bool) returns (t: Tree)
    requires |heap| == 4 && (forall c :: 0 <= c < 4 ==> heap[c] == ZeroEntries(ENTRIES)) && progress(0) && progress(1)
    ensures EndsWith(NestedVolume(0, heap, []), NestedLayout([], {}), t, 2, [65], progress, None)
  {
    var v, l := NestedVolume(0, heap, []), NestedLayout([], {});
    assert Holding(heap, [], {}) by { ZerosHoldNothing(3); }
    t := NestedIsGood(heap, [], [], {});
    RootAddressed(heap, t);
    EndsWell(v, l, 2, [65], progress);
  }

  lemma RootAddressed(heap: seq<Cluster>, t: Tree)
    requires Holding(heap, [], {}) && Good(NestedVolume(0, heap, []), NestedLayout([], {}), {}, t)
    ensures NameOf([65]) == Some([65]) && Usable(NestedVolume(0, heap, []), NestedLayout([], {}), 2, Some([65]))
    ensures Addressed(NestedVolume(0, heap, []), NestedLayout([], {}), t, 2, [65])
    ensures Contents(heap, NestedLayout([], {}).chains[2]) == heap[2]
  {
    Addresses(heap, [], [], {}, t, 2, [65]);
  }

  lemma InTheTree(t: Tree)
    requires 2 in t
    ensures var t' := Put(t, 2, [65], File([])); 2 in t' && [65] in t'[2] && t'[2][[65]] == File([])
  {
    assert UpperName([65]) == [65];
  }

  /** The callback refuses its third call: the reply is an error, and the file is in the tree. */
  method LateCancel() returns (r: Result<()>, ghost v': Vol, ghost l': Layout, ghost loose': set<nat>, ghost t': Tree)
    ensures r == Err(Canceled) && Good(v', l', loose', t') && 2 in t' && [65] in t'[2] && t'[2][[65]] == File([])
  {
    var zeros := ZeroEntries(ENTRIES);
    var heap, progress := [zeros, zeros, zeros, zeros], k => k < 2;
    ghost var t := EmptyRoot(heap, progress);
    var disk := new Volume(NestedVolume(0, heap, []));
    r, l', loose' := WriteEmpty(disk, 2, [65], progress, NestedLayout([], {}), t, None);
    v', t' := disk.V(), Put(t, 2, [65], File([]));
    InTheTree(t);
  }

  // ---- Directories that are grown in vain -----------------------------------------------------------------

  /** How a write to a directory full of labels ends. */
  lemma FullEnds(v: Vol, l: Layout, d: nat, name: Name, progress: nat -> bool)
    requires d in l.chains && InHeap(v, l.chains[d]) && AllLabels(Contents(v.heap, l.chains[d]))
             && v.entriesPerCluster == ENTRIES
    requires |v.bitmap| == v.clusterCount + 2 && |FreeClusters(v)| == 1 && progress(0) && progress(1)
             && RequiredEntryCount(|name|).Some?
    ensures CommitError(v, l, d, name, 0, progress)
         == if !SureToGrow(v, l, d) then Some(MetadataNotFound) else if |name| > 210 then Some(DirectoryFull) else None
  {
    var entries := Contents(v.heap, l.chains[d]);
    LabelsHoldNothing(entries, RequiredEntryCount(|name|).value);
    NothingFound(entries, name);
    OnlyCall(progress);
  }

  /** The last directory is full of labels; `name` is to go there. */
  lemma FullDirectory(heap: seq<Cluster>, x: seq<SetInfo>, name: seq<nat>, progress: nat -> bool) returns (t: Tree)
    requires Holding(heap, x, {}) && Downward(x) && AllLabels(heap[|x| + 2]) && progress(0) && progress(1)
    requires 1 <= |name| <= 255 && forall i :: 0 <= i < |name| ==> 65 <= name[i] <= 90
    ensures var v, l := NestedVolume(|x|, heap, []), NestedLayout(x, {});
            EndsWith(v, l, t, |x| + 2, name, progress,
                     if !SureToGrow(v, l, |x| + 2) then Some(MetadataNotFound)
                         else if |name| > 210 then Some(DirectoryFull) else None)
  {
    t := NestedIsGood(heap, [], x, {});
    Addresses(heap, [], x, {}, t, |x| + 2, name);
    OneFree(|x|, heap, []);
    FullEnds(NestedVolume(|x|, heap, []), NestedLayout(x, {}), |x| + 2, name, progress);
  }

  /** What is left on the volume when a directory has been grown in vain. */
  lemma LeftInVain(v: Vol, v': Vol, l: Layout, t: Tree, d: nat, name: Name, progress: nat -> bool, e: Error,
                   r: Result<()>, l': Layout, loose': set<nat>)
    requires Ended(v, v', l, t, d, name, progress, Some(e), r, l', loose')
    ensures r == Err(e)
    ensures e == DirectoryFull ==> exists c :: GrownUnwritten(v, v', l, {}, d, c)
    ensures e == MetadataNotFound ==> exists c, info :: HalfLinked(v, v', l, d, c, info)
  {
  }

  /** The root is full, and one more cluster is too small for the set. */
  method RootTooFull() returns (r: Result<()>, ghost v: Vol, ghost v': Vol, ghost l: Layout, ghost t: Tree)
    ensures r == Err(DirectoryFull) && Good(v, l, {}, t) && exists c :: GrownUnwritten(v, v', l, {}, 2, c)
  {
    var heap, x := NestedHeap(0, Labels());
    var progress := _ => true;
    l := NestedLayout(x, {});
    t := FullDirectory(heap, x, As(211), progress);
    var disk := new Volume(NestedVolume(0, heap, []));
    v := disk.V();
    ghost var l', loose';
    r, l', loose' := WriteEmpty(disk, 2, As(211), progress, l, t, Some(DirectoryFull));
    v' := disk.V();
    LeftInVain(v, v', l, t, 2, As(211), progress, DirectoryFull, r, l', loose');
  }

  lemma TenLevels(v: Vol, l: Layout, x: seq<SetInfo>)
    requires IsNested(l, x, {}) && |x| == 10 && v.root == 2
    ensures 12 in l.depth && l.depth[12] == 10 && !SureToGrow(v, l, 12)
  {
    assert Level(10, 12);
  }

  /** A directory ten levels down is full, and its entry is too deep to be found. */
  method TooDeepToGrow() returns (r: Result<()>, ghost v: Vol, ghost v': Vol, ghost l: Layout, ghost t: Tree)
    ensures r == Err(MetadataNotFound) && Good(v, l, {}, t) && 12 in l.depth && l.depth[12] == 10
    ensures exists c, info :: HalfLinked(v, v', l, 12, c, info)
  {
    var heap, x := NestedHeap(10, Labels());
    var progress := _ => true;
    l := NestedLayout(x, {});
    t := FullDirectory(heap, x, [65], progress);
    var disk := new Volume(NestedVolume(10, heap, []));
    v := disk.V();
    TenLevels(v, l, x);
    ghost var l', loose';
    r, l', loose' := WriteEmpty(disk, 12, [65], progress, l, t, Some(MetadataNotFound));
    v' := disk.V();
    LeftInVain(v, v', l, t, 12, [65], progress, MetadataNotFound, r, l', loose');
  }

  /** The clusters of `n` directories, each with the next one in it, and of a last one. */
  method NestedHeap(n: nat, last: Cluster) returns (heap: seq<Cluster>, ghost x: seq<SetInfo>)
    requires n < 100 && AllLabels(last)
    ensures |x| == n && Downward(x) && |heap| == n + 4 && heap[n + 2] == last && Holding(heap, x, {})
  {
    var zeros := ZeroEntries(ENTRIES);
    LabelsHoldNothing(last, 3);
    heap, x := [zeros, zeros], [];
    for k := 0 to n
      invariant |heap| == k + 2 && |x| == k && Downward(x) && forall c :: 0 <= c < |heap| ==> |heap[c]| == ENTRIES
      invariant forall j: nat {:trigger x[j]} :: j < k ==> DirHolds(heap[j + 2], {x[j]})
    {
      var s := Stream(true, k + 3, 32 * ENTRIES, 32 * ENTRIES, false);
      var c := OneSet([65], s);
      ghost var y := ParsedForm(0, [65], s, 3);
      assert RefersTo(y, k + 3);
      heap, x := heap + [c], x + [y];
    }
    heap := heap + [last, zeros];
    forall k: nat | k < |x| ensures HoldsLevel(heap, x, k) { assert x[k] == x[k]; }
  }

  // ---- A directory that only passes for empty ---------------------------------------------------------------

  lemma HiddenBehindTheLength(v: Vol, l: Layout, x: SetInfo, y: SetInfo)
    requires IsNested(l, [x], {y}) && v.root == 2 && v.cache == [StreamInfo(3, 32, 32, false, true)] && y.index == 0
             && y.count == 3
    requires RefersTo(x, 3)
    ensures 3 in l.live && PassesForEmpty(v, l, 3) && !MayRemove(l, 2, x) && 2 in l.live && l.live[2] == {x}
            && l.live[3] == {y}
  {
    assert Level(1, 3) && Level(1, 2) && l.live[3] == {y} && l.live[2] == {x};
    assert CacheIndex(v.cache, 3) == 0;
    assert ListedCount(v, l, 3) == 1;
  }

  /** The root's only directory, 32 bytes long by its entry, with a set of three entries in its cluster. */
  lemma HiddenSet(heap: seq<Cluster>, cache: seq<StreamInfo>, x: SetInfo, y: SetInfo) returns (t: Tree)
    requires Holding(heap, [x], {y}) && RefersTo(x, 3) && x.name == [65]
             && cache == [StreamInfo(3, 32, 32, false, true)]
    requires y.index == 0 && y.count == 3 && !y.isDirectory && y.firstCluster == 0 && NotDotName(y.name)
    ensures var v, l := NestedVolume(1, heap, cache), NestedLayout([x], {y});
            && Good(v, l, {}, t) && Usable(v, l, 2, None) && Addressed(v, l, t, 2, [65])
              && DeleteError(v, l, 2, [65], Some(true)).None?
            && Find(Table(Contents(v.heap, l.chains[2])), 0, [65]) == Some(x) && !MayRemove(l, 2, x)
  {
    var v, l := NestedVolume(1, heap, cache), NestedLayout([x], {y});
    assert Downward([x]);
    assert HoldsLevel(heap, [x], 0);
    t := NestedIsGood(heap, cache, [x], {y});
    Addresses(heap, cache, [x], {y}, t, 2, [65]);
    assert IsNested(l, [x], {y});
    HiddenBehindTheLength(v, l, x, y);
    OnlySetFound(heap[2], x);
  }

  lemma OnlySetFound(c: Cluster, x: SetInfo)
    requires DirHolds(c, {x}) && x.name == [65]
    ensures Find(Table(c), 0, [65]) == Some(x)
  {
    FindIsLookup(Table(c), 0, [65]);
    assert x in LiveSets(c) && EqIgnoreCase(x.name, [65]);
  }

  /** All that deleting the directory needs to know. */
  ghost predicate Deletable(v: Vol, l: Layout, t: Tree, x: SetInfo, y: SetInfo) {
    && Good(v, l, {}, t) && Usable(v, l, 2, None) && Addressed(v, l, t, 2, [65])
      && DeleteError(v, l, 2, [65], Some(true)).None?
    && Find(Table(Contents(v.heap, l.chains[2])), 0, [65]) == Some(x) && !MayRemove(l, 2, x) && IsNested(l, [x], {y})
      && RefersTo(x, 3)
  }

  method HiddenHeap() returns (heap: seq<Cluster>, ghost x: SetInfo, ghost y: SetInfo, ghost t: Tree)
    ensures Deletable(NestedVolume(1, heap, [StreamInfo(3, 32, 32, false, true)]), NestedLayout([x], {y}), t, x, y)
    ensures |heap| == 5 && forall c :: 0 <= c < 5 ==> |heap[c]| == ENTRIES
  {
    var zeros, s, f := ZeroEntries(ENTRIES), Stream(true, 3, 32, 32, false), Stream(false, 0, 0, 0, false);
    var root := OneSet([65], s);
    var dir := OneSet([65], f);
    heap := [zeros, zeros, root, dir, zeros];
    x, y := ParsedForm(0, [65], s, 3), ParsedForm(0, [65], f, 3);
    t := HiddenSet(heap, [StreamInfo(3, 32, 32, false, true)], x, y);
  }

  lemma LetterIsAName()
    ensures NameOf([65]) == Some([65])
  {
    LettersAreAName([65]);
  }

  method DeleteIt(disk: Volume, ghost l: Layout, ghost t: Tree, ghost x: SetInfo, ghost y: SetInfo)
    returns (r: Result<()>)
    requires Deletable(disk.V(), l, t, x, y)
    modifies disk
    ensures r == Ok(()) && 2 in l.live && x in l.live[2] && 3 in l.live && l.live[3] == {y}
            && Orphaned(old(disk.V()), disk.V(), l, 2, x)
  {
    ghost var v, l', loose', gone := disk.V(), l, {}, None;
    LetterIsAName();
    r, l', loose', gone := DeleteEntry(disk, 2, [65], Some(true), l, {}, t);
    GoneWithTheSet(v, disk.V(), l, t, x, y, r, l', loose', gone);
  }

  /** A directory with a file in it is deleted, and the file's entry is gone with it. */
  method DeletesNonEmpty()
    returns (r: Result<()>, ghost v: Vol, ghost v': Vol, ghost l: Layout, ghost t: Tree, ghost x: SetInfo)
    ensures r == Ok(()) && Good(v, l, {}, t) && 2 in l.live && x in l.live[2] && x.firstCluster in l.live
            && l.live[x.firstCluster] != {}
    ensures Orphaned(v, v', l, 2, x)
  {
    var heap; ghost var y;
    heap, x, y, t := HiddenHeap();
    l := NestedLayout([x], {y});
    var disk := new Volume(NestedVolume(1, heap, [StreamInfo(3, 32, 32, false, true)]));
    v := disk.V();
    r := DeleteIt(disk, l, t, x, y);
    v' := disk.V();
  }

  lemma GoneWithTheSet(v: Vol, v': Vol, l: Layout, t: Tree, x: SetInfo, y: SetInfo, r: Result<()>, l': Layout,
                       loose': set<nat>, gone: Option<SetInfo>)
    requires Deletable(v, l, t, x, y)
    requires DeleteOutcome(v, v', l, {}, t, 2, [65], Some(true), r, l', loose', gone)
    ensures r == Ok(()) && 2 in l.live && x in l.live[2] && 3 in l.live && l.live[3] == {y} && Orphaned(v, v', l, 2, x)
  {
    assert Level(1, 3) && Level(1, 2) && l.live[3] == {y} && l.chains[3] == [3];
  }

  // ---- A stream too long to walk --------------------------------------------------------------------------

  /** The `n` clusters behind the root. */
  function Behind(n: nat): (chain: seq<nat>)
    ensures |chain| == n && forall i :: 0 <= i < n ==> chain[i] == i + 3
  {
    seq(n, i requires 0 <= i => i + 3)
  }

  /** An empty root and `n` clusters, linked one to the next. */
  function LongVolume(n: nat): (v: Vol) {
    Vol(n + 1, ENTRIES, 2,
        seq(n + 3, c requires 0 <= c => if c == 2 || c == n + 2 then CHAIN_END_MARK else if c < 2 then 0 else c + 1),
        seq(n + 3, c requires 0 <= c => c >= 2), seq(n + 3, c requires 0 <= c => ZeroEntries(ENTRIES)), 2, [])
  }

  ghost function LongLayout(n: nat): (l: Layout) {
    Layout(32 * ENTRIES, 2, map c: nat | 2 <= c < n + 3 && Level(n, c) :: if c == 2 then 2 else 3,
        map[2 := [2], 3 := Behind(n)], {}, map[2 := 0], map[2 := {}], map[])
  }

  lemma LongIsSound(n: nat, l: Layout)
    requires n > 0 && l == LongLayout(n)
    ensures Sound(l, {3})
  {
    forall a | a in l.chains ensures ChainOwned(l, a) {}
    forall c | c in l.owner ensures OwnerOk(l, c) {
      if c > 2 { assert Behind(n)[c - 3] == c; }
    }
  }

  lemma LongMatches(n: nat, v: Vol, l: Layout)
    requires 0 < n < 0x1000_0000 && v == LongVolume(n) && l == LongLayout(n)
    ensures Matches(v, l, {})
  {
    forall c | 0 <= c < |v.heap| ensures |v.heap[c]| == ENTRIES { assert v.heap[c] == ZeroEntries(ENTRIES); }
    assert BitmapOk(v, l);
    assert AllLinks(v, l) by {
      forall a | a in l.chains ensures LinksOk(v, l, a) {}
    }
    assert AllDirs(v, l, {}) by {
      ZerosHoldNothing(1);
      OneClusterContents(v.heap, 2);
      assert DirOk(v, l, 2);
    }
  }

  /** A sound volume with a stream of 1048578 clusters or more, which the engine cannot walk. */
  lemma LongStream(n: nat) returns (v: Vol, l: Layout, x: SetInfo)
    requires WALK_GUARD + 2 <= n < 0x1000_0000
    ensures Inv(v, l, {3}, {}) && Measures(l, x) && x.firstCluster == 3 && |l.chains[3]| == n
    ensures StreamChain(v, x) == None
  {
    v, l := LongVolume(n), LongLayout(n);
    x := SetInfo(0, 3, 1, 3, n * (32 * ENTRIES), 0, false, false, [65]);
    LongIsSound(n, l);
    LongMatches(n, v, l);
    GrownCount(32 * ENTRIES, n);
    StreamChainIs(v, l, {3}, {}, x);
  }
}
