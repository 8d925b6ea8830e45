/**
  Reading a directory: which clusters the engine takes for a directory's chain, given what its
  stream cache remembers. With a cache hit the whole directory is read; without one the engine
  guesses a contiguous stream of one cluster and reads the first cluster only.
 */
module ExFatReading {
  import opened Bytes
  import opened ExFatEntrySet
  import opened ExFatParse
  import opened ExFatScan
  import opened ExFatDirectory
  import opened ExFatChains
  import opened ExFatLayout
  import opened ExFatInvariant

  datatype Error =
    | InvalidName | NameTooLong | NameNotAscii | NameCharacter
    | NoFreeClusters | ChainLoop | BadDirectory
    | AlreadyExists | WrongType | IsDirectory | IsFile | NotFound | NotEmpty | IsRoot
    | MetadataNotFound | DirectoryFull | Canceled

  datatype Result<+T> = Ok(value: T) | Err(error: Error)

  /** A directory in memory: what is known of its stream, its clusters and its entries. */
  datatype DirBuffer = DirBuffer(info: StreamInfo, chain: seq<nat>, entries: Dir)

  function NormalizedDir(v: Vol, c: nat): (d: nat) { if c >= 2 then c else v.root }

  predicate Cached(v: Vol, first: nat) { CacheIndex(v.cache, first) < |v.cache| }

  /** `exfat_stream_info`: a miss is taken for a contiguous stream of the given size. */
  function StreamInfoOf(v: Vol, first: nat, fallback: nat): (e: StreamInfo)
    ensures e.firstCluster == first
  {
    var i := CacheIndex(v.cache, first);
    if i < |v.cache| then v.cache[i] else StreamInfo(first, fallback, fallback, true, false)
  }

  function DirInfo(v: Vol, d: nat): (e: StreamInfo) {
    if d == v.root then StreamInfo(v.root, ClusterBytes(v), ClusterBytes(v), false, true)
    else StreamInfoOf(v, d, ClusterBytes(v))
  }

  /** The clusters the engine takes for the directory's chain, at most `limit`. */
  function DirChain(v: Vol, e: StreamInfo, limit: nat): (r: Option<seq<nat>>)
    requires Shape(v)
  {
    if e.noFatChain then Some(FlatWalk(v, e.firstCluster, Max(e.dataLength, ClusterBytes(v)), limit))
    else Walk(v, e.firstCluster, limit, 0)
  }

  // ---- With and without a cache hit ---------------------------------------------------------

  lemma AtLeastOneCluster(clusterBytes: nat, length: nat)
    requires clusterBytes > 0
    ensures ClustersFor(clusterBytes, Max(length, clusterBytes)) == ClustersFor(clusterBytes, length)
  {
    if length < clusterBytes {
      GrownCount(clusterBytes, 1);
      assert clusterBytes == 1 * clusterBytes;
      SmallLength(clusterBytes, length);
    }
  }

  lemma SmallLength(clusterBytes: nat, length: nat)
    requires 0 < clusterBytes && length < clusterBytes
    ensures ClustersFor(clusterBytes, length) == 1
  {
    var q := CeilDiv(Max(length, 1), clusterBytes);
    FactorLess(q - 1, 1, clusterBytes);
  }

  /** What reading a directory relies on: its links, and what the cache says about it if it says anything. */
  ghost predicate Knows(v: Vol, l: Layout, d: nat) {
    && Shape(v) && l.clusterBytes == ClusterBytes(v) && l.root == v.root
    && d in l.chains && d in l.depth && LinksOk(v, l, d)
    && 0 < |l.chains[d]| <= MAX_DIR_CLUSTERS && l.chains[d][0] == d && (d == v.root ==> d !in l.flat)
    && (Cached(v, d) ==> CacheEntryOk(l, StreamInfoOf(v, d, ClusterBytes(v))))
  }

  /** A directory the engine reads in full. */
  ghost predicate Visible(v: Vol, l: Layout, d: nat) {
    d == v.root || Cached(v, d) || (d in l.chains && |l.chains[d]| == 1)
  }

  lemma InvKnows(v: Vol, l: Layout, loose: set<nat>, skip: set<nat>, d: nat)
    requires Inv(v, l, loose, skip) && d in l.depth
    ensures Knows(v, l, d)
  {
    assert ChainOwned(l, d);
  }

  /** With a hit, or for the root, the directory's own chain is read. */
  lemma WholeChain(v: Vol, l: Layout, d: nat)
    requires Knows(v, l, d) && (d == v.root || Cached(v, d))
    ensures DirChain(v, DirInfo(v, d), MAX_DIR_CLUSTERS) == Some(l.chains[d])
    ensures DirInfo(v, d).noFatChain == (d in l.flat)
  {
    var chain, e := l.chains[d], DirInfo(v, d);
    if e.noFatChain {
      AtLeastOneCluster(l.clusterBytes, e.dataLength);
      FlatWalkFollows(v, chain, Max(e.dataLength, ClusterBytes(v)), MAX_DIR_CLUSTERS);
    } else {
      WalkFollows(v, chain, MAX_DIR_CLUSTERS, 0);
      assert chain[0..] == chain;
    }
  }

  /** Without a hit only the first cluster is read. */
  lemma FirstClusterOnly(v: Vol, d: nat)
    requires Shape(v) && ValidCluster(v, d) && d != v.root && !Cached(v, d)
    ensures DirChain(v, DirInfo(v, d), MAX_DIR_CLUSTERS) == Some([d])
  {
    var cb := ClusterBytes(v);
    GrownCount(cb, 1);
    assert 1 * cb == cb;
    FlatWalkFollows(v, [d], cb, MAX_DIR_CLUSTERS);
  }

  /** How many entries of directory `d` the engine reads. */
  ghost function EntriesRead(v: Vol, l: Layout, d: nat): (n: nat)
    requires d in l.chains
  {
    v.entriesPerCluster * (if d == v.root || Cached(v, d) then |l.chains[d]| else 1)
  }

  lemma ReadLength(v: Vol, l: Layout, d: nat)
    requires Knows(v, l, d)
    ensures var r := DirChain(v, DirInfo(v, d), MAX_DIR_CLUSTERS);
            r.Some? && v.entriesPerCluster * |r.value| == EntriesRead(v, l, d)
  {
    if d == v.root || Cached(v, d) { WholeChain(v, l, d); } else { FirstClusterOnly(v, d); }
  }

  /** Either way the clusters read are a non-empty beginning of the directory's chain. */
  lemma PrefixRead(v: Vol, l: Layout, d: nat)
    requires Knows(v, l, d)
    ensures var r := DirChain(v, DirInfo(v, d), MAX_DIR_CLUSTERS);
            r.Some? && 0 < |r.value| <= |l.chains[d]| && r.value == l.chains[d][..|r.value|]
  {
    if d == v.root || Cached(v, d) {
      WholeChain(v, l, d);
      assert l.chains[d][..|l.chains[d]|] == l.chains[d];
    } else {
      FirstClusterOnly(v, d);
      assert l.chains[d][..1] == [d];
    }
  }

  /** A directory is read in full exactly when it is the root, is remembered, or has one cluster. */
  lemma ReadInFull(v: Vol, l: Layout, d: nat)
    requires Knows(v, l, d)
    ensures DirChain(v, DirInfo(v, d), MAX_DIR_CLUSTERS) == Some(l.chains[d]) <==> Visible(v, l, d)
    ensures Visible(v, l, d) && !DirInfo(v, d).noFatChain ==> IsFatChain(v, l.chains[d])
  {
    if d == v.root || Cached(v, d) {
      WholeChain(v, l, d);
    } else {
      FirstClusterOnly(v, d);
      assert |l.chains[d]| == 1 ==> l.chains[d] == [d];
    }
  }

  /**
    What lies behind the first 1024 clusters of a directory is never read, so sets put there are
    lost: of a longer root directory or a longer remembered one exactly that beginning is read.
   */
  lemma BeyondTheLimit(v: Vol, d: nat, chain: seq<nat>)
    requires Shape(v) && |chain| > MAX_DIR_CLUSTERS && chain[0] == d && (d == v.root || Cached(v, d))
    requires if DirInfo(v, d).noFatChain then IsFlatChain(v, chain)
             && |chain| == ClustersFor(ClusterBytes(v), DirInfo(v, d).dataLength)
             else IsFatChain(v, chain)
    ensures DirChain(v, DirInfo(v, d), MAX_DIR_CLUSTERS) == Some(chain[..MAX_DIR_CLUSTERS])
  {
    var e := DirInfo(v, d);
    if e.noFatChain {
      AtLeastOneCluster(ClusterBytes(v), e.dataLength);
      FlatWalkStops(v, chain, Max(e.dataLength, ClusterBytes(v)), MAX_DIR_CLUSTERS);
    } else {
      WalkStops(v, chain, MAX_DIR_CLUSTERS, 0);
      assert chain[0..MAX_DIR_CLUSTERS] == chain[..MAX_DIR_CLUSTERS];
    }
  }

  // ---- The walk over a beginning of a directory -----------------------------------------------

  lemma {:induction false} NothingToFind(t: seq<Cell>, i: nat)
    requires Cells(t) && forall j :: i <= j < |t| ==> t[j].kind != FILE_ENTRY
    ensures Live(t, i) == {}
    decreases |t| - i
  {
    if i < |t| && t[i].kind != 0 { NothingToFind(t, i + 1); }
  }

  /** The sets that end within the first `n` entries. */
  ghost function EndingBy(live: set<SetInfo>, n: nat): (s: set<SetInfo>) { set x | x in live && x.index + x.count <= n }

  /** A walk over the first entries finds exactly the sets that end there. */
  lemma {:induction false} PrefixWalk(t0: seq<Cell>, t: seq<Cell>, i: nat)
    requires Cells(t0) && Cells(t) && |t0| <= |t| && i <= |t0| && WellFormed(t, i)
    requires forall j :: 0 <= j < |t0| ==> t0[j].kind == t[j].kind
    requires forall j :: 0 <= j < |t0| && t0[j].parsed.Some? ==> t[j].parsed == t0[j].parsed
    requires forall j :: 0 <= j < |t0| && t[j].parsed.Some? && j + t[j].parsed.value.count <= |t0| ==>
               t0[j].parsed == t[j].parsed
    ensures Live(t0, i) == EndingBy(Live(t, i), |t0|)
    decreases |t0| - i
  {
    if i < |t0| && t0[i].kind != 0 {
      if t[i].parsed.Some? {
        var next := i + t[i].parsed.value.count;
        LiveAbove(t, next);
        if next <= |t0| {
          PrefixWalk(t0, t, next);
        } else {
          NothingToFind(t0, i + 1);
        }
      } else {
        PrefixWalk(t0, t, i + 1);
      }
    } else if i == |t0| {
      LiveAbove(t, i);
    }
  }

  lemma PrefixLive(d0: Dir, d: Dir)
    requires WellFormedDir(d) && |d0| <= |d| && SameEntries(d0, d, 0, |d0|)
    ensures LiveSets(d0) == EndingBy(LiveSets(d), |d0|)
  {
    var t0, t := Table(d0), Table(d);
    forall j | 0 <= j < |t0|
      ensures t0[j].parsed.Some? ==> t[j].parsed == t0[j].parsed
      ensures t[j].parsed.Some? && j + t[j].parsed.value.count <= |t0| ==> t0[j].parsed == t[j].parsed
    {
      TableAt(d0, j);
      TableAt(d, j);
      if t0[j].parsed.Some? { ParseLocal(d0, d, j, t0[j].parsed.value); }
      if t[j].parsed.Some? && j + t[j].parsed.value.count <= |t0| { ParseLocal(d, d0, j, t[j].parsed.value); }
    }
    PrefixWalk(t0, t, 0);
  }
}
