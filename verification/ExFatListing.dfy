/**
  Listing a directory. The engine lists what lies within the length it knows of the directory, at
  most 1024 clusters: a set that ends behind that length is not listed, and a directory with
  nothing but such sets passes for empty.
 */
module ExFatListing {
  import opened Bytes
  import opened ExFatEntrySet
  import opened ExFatParse
  import opened ExFatScan
  import opened ExFatDirectory
  import opened ExFatChains
  import opened ExFatAllocator
  import opened ExFatLayout
  import opened ExFatInvariant
  import opened ExFatReading
  import opened ExFatStreams
  import opened ExFatView
  import opened ExFatTaking

  // ---- How much is read ---------------------------------------------------------------------------

  const MAX_STREAM_CLUSTERS: nat := 262_144

  /** What a listing takes the directory's stream for. */
  function ListInfo(v: Vol, d: nat): (e: StreamInfo) {
    if d == v.root then StreamInfo(d, MAX_DIR_CLUSTERS * ClusterBytes(v), MAX_DIR_CLUSTERS * ClusterBytes(v),
        false, true)
    else StreamInfoOf(v, d, ClusterBytes(v))
  }

  /** How many entries of directory `d` a listing reads. */
  ghost function ListedCount(v: Vol, l: Layout, d: nat): (n: nat)
    requires d in l.chains
  {
    if d == v.root then v.entriesPerCluster * |l.chains[d]|
    else if Cached(v, d) then StreamInfoOf(v, d, ClusterBytes(v)).dataLength / 32
    else v.entriesPerCluster
  }

  /** The sets of directory `d` that a listing shows. */
  ghost function ListedSets(v: Vol, l: Layout, d: nat): (s: set<SetInfo>)
    requires d in l.chains && d in l.live
  {
    EndingBy(l.live[d], ListedCount(v, l, d))
  }

  /** The whole directory is listed exactly when no set ends behind the length. */
  lemma ListedInFull(v: Vol, l: Layout, d: nat)
    requires d in l.chains && d in l.live
    ensures ListedSets(v, l, d) == l.live[d] <==>
              forall x :: x in l.live[d] ==> x.index + x.count <= ListedCount(v, l, d)
  {
    assert forall x :: x in l.live[d] && x.index + x.count > ListedCount(v, l, d) ==> x !in ListedSets(v, l, d);
  }

  lemma LengthFits(v: Vol, k: nat, length: nat)
    requires v.entriesPerCluster > 0 && k == ClustersFor(ClusterBytes(v), length) <= MAX_DIR_CLUSTERS
    ensures length <= k * ClusterBytes(v) <= MAX_DIR_CLUSTERS * ClusterBytes(v)
    ensures length / 32 <= v.entriesPerCluster * k
    ensures length > 0 ==> CeilDiv(length, ClusterBytes(v)) == k
  {
    var cb := ClusterBytes(v);
    MoreClusters(k, MAX_DIR_CLUSTERS, cb);
    EntryBytes(v.entriesPerCluster, k);
    BytesFit(length, k, cb);
  }

  lemma MoreClusters(k: nat, n: nat, cb: nat)
    requires k <= n
    ensures k * cb <= n * cb
  {
  }

  lemma EntryBytes(m: nat, k: nat)
    ensures k * (32 * m) == 32 * (m * k)
  {
  }

  lemma BytesFit(length: nat, k: nat, cb: nat)
    requires cb > 0 && k == ClustersFor(cb, length)
    ensures length <= k * cb && (length > 0 ==> CeilDiv(length, cb) == k)
  {
  }

  /** A directory whose known length fills its clusters is read to the end. */
  lemma FullLength(v: Vol, l: Layout, d: nat)
    requires Knows(v, l, d)
             && (d == v.root || (Cached(v, d)
             && StreamInfoOf(v, d, ClusterBytes(v)).dataLength == |l.chains[d]| * ClusterBytes(v)))
    ensures ListedCount(v, l, d) == v.entriesPerCluster * |l.chains[d]|
  {
    assert |l.chains[d]| * ClusterBytes(v) == 32 * (v.entriesPerCluster * |l.chains[d]|);
  }

  // ---- Reading --------------------------------------------------------------------------------------

  /** The clusters a listing of `length` bytes walks over. */
  function ListChain(v: Vol, e: StreamInfo, length: nat): (r: Option<seq<nat>>)
    requires Shape(v)
  {
    var limit := Min(CeilDiv(length, ClusterBytes(v)) + 1, MAX_STREAM_CLUSTERS);
    if e.noFatChain then Some(FlatWalk(v, e.firstCluster, length, limit)) else Walk(v, e.firstCluster, limit, 0)
  }

  lemma KnownChainIsListed(v: Vol, l: Layout, d: nat)
    requires Knows(v, l, d) && d != v.root && Cached(v, d)
    ensures var e := ListInfo(v, d);
            && e.dataLength <= MAX_DIR_CLUSTERS * ClusterBytes(v)
              && ListedCount(v, l, d) <= v.entriesPerCluster * |l.chains[d]|
            && (e.dataLength > 0 ==> ListChain(v, e, e.dataLength) == Some(l.chains[d]))
  {
    var chain, e := l.chains[d], ListInfo(v, d);
    LengthFits(v, |chain|, e.dataLength);
    if e.dataLength > 0 {
      if e.noFatChain {
        FlatWalkFollows(v, chain, e.dataLength, |chain| + 1);
      } else {
        WalkFollows(v, chain, |chain| + 1, 0);
        assert chain[0..] == chain;
      }
    }
  }

  lemma LongestLength(m: nat, k: nat)
    requires m > 0 && k <= MAX_DIR_CLUSTERS
    ensures m * k <= MAX_DIR_CLUSTERS * (32 * m) / 32
    ensures CeilDiv(MAX_DIR_CLUSTERS * (32 * m), 32 * m) == MAX_DIR_CLUSTERS
  {
    GrownCount(32 * m, MAX_DIR_CLUSTERS);
    assert MAX_DIR_CLUSTERS * (32 * m) / 32 == m * MAX_DIR_CLUSTERS;
    assert m * (MAX_DIR_CLUSTERS - k) >= 0;
  }

  lemma RootIsListed(v: Vol, l: Layout)
    requires Knows(v, l, v.root)
    ensures ListChain(v, ListInfo(v, v.root), MAX_DIR_CLUSTERS * ClusterBytes(v)) == Some(l.chains[v.root])
    ensures v.entriesPerCluster * |l.chains[v.root]| <= MAX_DIR_CLUSTERS * ClusterBytes(v) / 32
  {
    var chain := l.chains[v.root];
    LongestLength(v.entriesPerCluster, |chain|);
    WalkFollows(v, chain, MAX_DIR_CLUSTERS + 1, 0);
    assert chain[0..] == chain;
  }

  lemma GuessIsListed(v: Vol, d: nat)
    requires Shape(v) && ValidCluster(v, d) && d != v.root && !Cached(v, d)
    ensures ListChain(v, ListInfo(v, d), ClusterBytes(v)) == Some([d]) && ListInfo(v, d).dataLength == ClusterBytes(v)
  {
    var cb := ClusterBytes(v);
    GrownCount(cb, 1);
    assert 1 * cb == cb;
    LengthFits(v, 1, cb);
    FlatWalkFollows(v, [d], cb, 2);
  }

  /** The first `n` entries of directory `d`. */
  ghost predicate Beginning(v: Vol, l: Layout, d: nat, entries: Dir, n: nat) {
    d in l.chains && InHeap(v, l.chains[d]) && n <= |Contents(v.heap, l.chains[d])|
        && entries == Contents(v.heap, l.chains[d])[..n]
  }

  lemma {:induction false} ContentsSplit(heap: seq<Cluster>, chain: seq<nat>, i: nat)
    requires (forall j :: 0 <= j < |chain| ==> chain[j] < |heap|) && i < |chain|
    ensures Contents(heap, chain[..i + 1]) == Contents(heap, chain[..i]) + heap[chain[i]]
  {
    assert chain[..i + 1] == chain[..i] + [chain[i]];
    ContentsAppend(heap, chain[..i], chain[i]);
  }

  lemma CutLonger(d: Dir, c: Cluster, m: nat, n: nat)
    requires |c| == m
    ensures d[..Min(|d|, n)] + c[..Min(m, n - Min(|d|, n))] == (d + c)[..Min(|d + c|, n)]
  {
  }

  /** The first `length` bytes of a chain, cluster by cluster; a broken last entry does not count. */
  method ReadEntries(disk: Volume, chain: seq<nat>, length: nat) returns (entries: Dir)
    requires Shape(disk.V()) && InHeap(disk.V(), chain)
    ensures var all := Contents(disk.heap, chain); entries == all[..Min(|all|, length / 32)]
  {
    var m := disk.entriesPerCluster;
    entries := [];
    for i := 0 to |chain|
      invariant var done := Contents(disk.heap, chain[..i]); entries == done[..Min(|done|, length / 32)]
    {
      ghost var done := Contents(disk.heap, chain[..i]);
      ContentsSplit(disk.heap, chain, i);
      CutLonger(done, disk.heap[chain[i]], m, length / 32);
      var take := Min(length - 32 * |entries|, 32 * m);
      entries := entries + disk.heap[chain[i]][..take / 32];
    }
    assert chain[..|chain|] == chain;
  }

  function ListLength(v: Vol, d: nat): (n: nat) { Min(ListInfo(v, d).dataLength, MAX_DIR_CLUSTERS * ClusterBytes(v)) }

  /** What reading a directory for a listing gives. */
  ghost predicate ListingRead(v: Vol, d: nat, r: Result<Dir>)
    requires Shape(v)
  {
    if d < 2 then r == Err(BadDirectory)
    else if ListLength(v, d) == 0 then r == Ok([])
    else match ListChain(v, ListInfo(v, d), ListLength(v, d))
         case None => r == Err(ChainLoop)
         case Some(chain) =>
           if chain == [] then r == Err(BadDirectory)
           else
             && InHeap(v, chain)
             && var all := Contents(v.heap, chain);
                r == Ok(all[..Min(|all|, ListLength(v, d) / 32)])
  }

  /** `exfat_read_stream_bytes` for the directory at cluster `d`. */
  method ReadListing(disk: Volume, d: nat) returns (r: Result<Dir>)
    requires Shape(disk.V())
    ensures ListingRead(disk.V(), d, r)
  {
    var cb := 32 * disk.entriesPerCluster;
    var info := ListInfo(disk.V(), d);
    if d < 2 { return Err(BadDirectory); }
    var length := Min(info.dataLength, MAX_DIR_CLUSTERS * cb);
    if length == 0 { return Ok([]); }
    var limit := Min(CeilDiv(length, cb) + 1, MAX_STREAM_CLUSTERS);
    var chain: seq<nat>;
    if info.noFatChain {
      chain := ContiguousChain(disk, info.firstCluster, length, limit);
    } else {
      var walked := ReadFatChain(disk, info.firstCluster, limit);
      if walked.None? { return Err(ChainLoop); }
      chain := walked.value;
    }
    if chain == [] { return Err(BadDirectory); }
    var entries := ReadEntries(disk, chain, length);
    return Ok(entries);
  }

  lemma GuessIsBeginning(v: Vol, l: Layout, d: nat, r: Result<Dir>)
    requires Knows(v, l, d) && InHeap(v, l.chains[d]) && d >= 2 && d != v.root && !Cached(v, d) && ListingRead(v, d, r)
    ensures r.Ok? && Beginning(v, l, d, r.value, v.entriesPerCluster)
  {
    var cb, chain := ClusterBytes(v), l.chains[d];
    GuessIsListed(v, d);
    assert (MAX_DIR_CLUSTERS - 1) * cb >= 0;
    assert chain == [d] + chain[1..];
    assert Contents(v.heap, [d]) == v.heap[d] + Contents(v.heap, []);
    assert Contents(v.heap, chain) == v.heap[d] + Contents(v.heap, chain[1..]);
  }

  /** On a sound volume a beginning of the directory is read, never an error. */
  lemma BeginningIsRead(v: Vol, l: Layout, d: nat, r: Result<Dir>)
    requires Knows(v, l, d) && InHeap(v, l.chains[d]) && d >= 2 && ListingRead(v, d, r)
    ensures r.Ok? && Beginning(v, l, d, r.value, ListedCount(v, l, d))
  {
    if d == v.root {
      RootBeginning(v, l, r);
    } else if Cached(v, d) {
      KnownBeginning(v, l, d, r);
    } else {
      GuessIsBeginning(v, l, d, r);
    }
  }

  lemma RootBeginning(v: Vol, l: Layout, r: Result<Dir>)
    requires Knows(v, l, v.root) && InHeap(v, l.chains[v.root]) && v.root >= 2 && ListingRead(v, v.root, r)
    ensures r.Ok? && Beginning(v, l, v.root, r.value, ListedCount(v, l, v.root))
  {
    ContentsLength(v.heap, l.chains[v.root], v.entriesPerCluster);
    RootIsListed(v, l);
  }

  lemma KnownBeginning(v: Vol, l: Layout, d: nat, r: Result<Dir>)
    requires Knows(v, l, d) && InHeap(v, l.chains[d]) && d >= 2 && d != v.root && Cached(v, d) && ListingRead(v, d, r)
    ensures r.Ok? && Beginning(v, l, d, r.value, ListedCount(v, l, d))
  {
    ContentsLength(v.heap, l.chains[d], v.entriesPerCluster);
    KnownChainIsListed(v, l, d);
  }

  /** So exactly the sets that end within the length are in what was read. */
  lemma BeginningHolds(v: Vol, l: Layout, loose: set<nat>, d: nat, r: Result<Dir>)
    requires Inv(v, l, loose, {}) && d in l.depth && ListingRead(v, d, r)
    ensures r.Ok? && LiveSets(r.value) == ListedSets(v, l, d)
  {
    InvKnows(v, l, loose, {}, d);
    ChainInHeap(v, l, loose, {}, d);
    BeginningIsRead(v, l, d, r);
    assert DirOk(v, l, d);
    PrefixLive(r.value, Contents(v.heap, l.chains[d]));
  }

  // ---- Listing ----------------------------------------------------------------------------------

  function AsSetOf(sets: seq<SetInfo>): (r: set<SetInfo>) { set x | x in sets }

  lemma ListedRemembered(v: Vol, v': Vol, l: Layout, loose: set<nat>, d: nat, x: SetInfo)
    requires Sound(l, loose) && CacheOk(v, l) && d in l.live && x in l.live[d] && x.firstCluster >= 2
    requires v'.cache == Remember(v.cache,
             StreamInfo(x.firstCluster, Max(x.dataLength, x.validLength), x.validLength, x.noFatChain, x.isDirectory))
    ensures CacheOk(v', l)
  {
    assert LiveOk(l, d, x);
    assert RefOk(l, x.firstCluster);
    RememberedOk(v, v', l, l,
        StreamInfo(x.firstCluster, Max(x.dataLength, x.validLength), x.validLength, x.noFatChain, x.isDirectory));
  }

  lemma CacheOnly(v: Vol, v': Vol, l: Layout, loose: set<nat>, t: Tree)
    requires Good(v, l, loose, t) && v' == v.(cache := v'.cache) && CacheOk(v', l)
    ensures Good(v', l, loose, t)
  {
    assert AllLinks(v', l) by { HeapLinks(v, v', l); }
    assert AllDirs(v', l, {}) by { SameDirs(v, v', l, l, {}); }
    HeapSameView(v, v', l, loose, t);
  }

  /**
    `exfat_read_dir_entries_with_limit` with the limit of `read_dir_entries`: the live sets that end
    within the directory's known length; their streams are remembered.
   */
  method ListDirectory(disk: Volume, dirCluster: nat, ghost l: Layout, ghost loose: set<nat>, ghost t: Tree)
    returns (sets: seq<SetInfo>)
    requires Good(disk.V(), l, loose, t) && NormalizedDir(disk.V(), dirCluster) in l.depth
    modifies disk
    ensures AsSetOf(sets) == ListedSets(old(disk.V()), l, NormalizedDir(old(disk.V()), dirCluster))
    ensures disk.V() == old(disk.V()).(cache := disk.cache) && Good(disk.V(), l, loose, t)
  {
    var d := if dirCluster >= 2 then dirCluster else disk.root;
    ghost var v := disk.V();
    var read := ReadListing(disk, d);
    BeginningHolds(v, l, loose, d, read);
    sets := ListEntries(disk, read.value, d, l, loose, ListedSets(v, l, d));
    CacheOnly(v, disk.V(), l, loose, t);
  }

  method ListEntries(disk: Volume, entries: Dir, ghost d: nat, ghost l: Layout, ghost loose: set<nat>,
                     ghost live: set<SetInfo>)
    returns (sets: seq<SetInfo>)
    requires Sound(l, loose) && CacheOk(disk.V(), l) && d in l.live && LiveSets(entries) == live <= l.live[d]
    modifies disk
    ensures AsSetOf(sets) == live
    ensures disk.V() == old(disk.V()).(cache := disk.cache) && CacheOk(disk.V(), l)
  {
    sets := [];
    var idx := 0;
    ghost var cells := Table(entries);
    while idx < |entries| && entries[idx][0] != 0
      invariant 0 <= idx <= |entries| && live == AsSetOf(sets) + Live(cells, idx)
      invariant disk.V() == old(disk.V()).(cache := disk.cache) && CacheOk(disk.V(), l)
    {
      TableAt(entries, idx);
      var parsed := None;
      if entries[idx][0] == FILE_ENTRY { parsed := ParseEntrySetAt(entries, idx); }
      if parsed.Some? {
        var x := parsed.value;
        if x.firstCluster >= 2 {
          ghost var u := disk.V();
          disk.cache := Remember(disk.cache,
              StreamInfo(x.firstCluster, Max(x.dataLength, x.validLength), x.validLength, x.noFatChain, x.isDirectory));
          ListedRemembered(u, disk.V(), l, loose, d, x);
        }
        assert AsSetOf(sets + [x]) == AsSetOf(sets) + {x};
        sets := sets + [x];
        idx := idx + x.count;
      } else {
        idx := idx + 1;
      }
    }
    assert Live(cells, idx) == {};
  }

  /** `directory_is_empty`: a directory passes for empty exactly when no set ends within its known length. */
  method DirectoryIsEmpty(disk: Volume, d: nat, ghost l: Layout, ghost loose: set<nat>, ghost t: Tree)
    returns (empty: bool)
    requires Good(disk.V(), l, loose, t) && d in l.depth
    modifies disk
    ensures empty <==> ListedSets(old(disk.V()), l, d) == {}
    ensures disk.V() == old(disk.V()).(cache := disk.cache) && Good(disk.V(), l, loose, t)
  {
    assert d >= 2 by { InvKnows(disk.V(), l, loose, {}, d); ChainInHeap(disk.V(), l, loose, {}, d); }
    ghost var live := ListedSets(disk.V(), l, d);
    var sets := ListDirectory(disk, d, l, loose, t);
    assert NamesOk(l.live[d]);
    forall i | 0 <= i < |sets| ensures sets[i] in live && NotDotName(sets[i].name) { assert sets[i] in AsSetOf(sets); }
    for i := 0 to |sets|
      invariant forall j :: 0 <= j < i ==> !NotDotName(sets[j].name)
    {
      if sets[i].name != ['.' as int] && sets[i].name != ['.' as int, '.' as int] { return false; }
    }
    return true;
  }
}
