/**
  File data: writing the bytes of a file to a chain of clusters with a callback that may cancel,
  giving the clusters of a stream back, and what a written chain holds.
 */
module ExFatData {
  import opened Bytes
  import opened ExFatEntrySet
  import opened ExFatParse
  import opened ExFatChains
  import opened ExFatAllocator
  import opened ExFatLayout
  import opened ExFatInvariant
  import opened ExFatStreams
  import opened ExFatView

  // ---- Bytes as entries -----------------------------------------------------------------------

  function ContentEntry(content: seq<Byte>, k: nat): (e: Entry) {
    seq(32, j requires 0 <= j < 32 => if 32 * k + j < |content| then content[32 * k + j] else 0)
  }

  /** The bytes, filled up with zeros, in portions of 32. */
  function ContentEntries(content: seq<Byte>, n: nat): (d: seq<Entry>)
    ensures |d| == n
  {
    seq(n, k requires 0 <= k < n => ContentEntry(content, k))
  }

  /** Reading the portions back gives the bytes. */
  lemma ContentIsRead(content: seq<Byte>, n: nat)
    requires |content| <= 32 * n
    ensures StreamBytes(ContentEntries(content, n), |content|) == content
  {
    var d := ContentEntries(content, n);
    forall j | 0 <= j < |content| ensures d[j / 32][j % 32] == content[j] {
      assert d[j / 32] == ContentEntry(content, j / 32);
      assert 32 * (j / 32) + j % 32 == j;
    }
  }

  /** Every byte of the portions is that of the content, or zero behind its end. */
  lemma PaddedWithZeros(content: seq<Byte>, n: nat, i: nat)
    requires i < 32 * n
    ensures ContentEntries(content, n)[i / 32][i % 32] == if i < |content| then content[i] else 0
  {
    assert ContentEntries(content, n)[i / 32] == ContentEntry(content, i / 32);
    assert 32 * (i / 32) + i % 32 == i;
  }

  // ---- Writing ----------------------------------------------------------------------------------

  /**
    `exfat_write_content_to_chain`. `progress(k)` is the answer to the callback's call number `k`;
    the first call here has number `calls`.
   */
  method WriteContent(disk: Volume, chain: seq<nat>, content: seq<Byte>, progress: nat -> bool, calls: nat)
    returns (ok: bool)
    requires Shape(disk.V()) && InHeap(disk.V(), chain) && Distinct(chain)
    modifies disk
    ensures HeapWritten(old(disk.V()), disk.V(), chain) && InHeap(disk.V(), chain)
    ensures ok <==> forall k :: calls <= k <= calls + |chain| ==> progress(k)
    ensures ok ==> Contents(disk.heap, chain) == ContentEntries(content, disk.entriesPerCluster * |chain|)
  {
    var m := disk.entriesPerCluster;
    if !progress(calls) { return false; }
    var todo, rest := chain, ContentEntries(content, m * |chain|);
    ghost var entries := rest;
    while todo != []
      invariant HeapWritten(old(disk.V()), disk.V(), chain) && InHeap(disk.V(), todo) && |todo| <= |chain|
      invariant forall i :: 0 <= i < |todo| ==> todo[i] in chain
      invariant WithContents(old(disk.heap), chain, entries, m) == WithContents(disk.heap, todo, rest, m)
      invariant forall k :: calls <= k <= calls + |chain| - |todo| ==> progress(k)
      decreases |todo|
    {
      disk.heap := disk.heap[todo[0] := Filled(rest, m)];
      todo, rest := todo[1..], Dropped(rest, m);
      if !progress(calls + |chain| - |todo|) { return false; }
    }
    WrittenIsRead(old(disk.heap), chain, entries, m);
    return true;
  }

  // ---- Giving a stream back -----------------------------------------------------------------------

  /** The clusters the engine takes for the stream of an entry set. */
  function StreamChain(v: Vol, x: SetInfo): (r: Option<seq<nat>>)
    requires Shape(v)
  {
    var bytes := Max(Max(x.dataLength, x.validLength), 1);
    var count := CeilDiv(bytes, ClusterBytes(v));
    if x.noFatChain then Some(FlatWalk(v, x.firstCluster, bytes, count + 1)) else Walk(v, x.firstCluster, count + 1, 0)
  }

  /** The entry set's lengths and flag fit the stream. */
  ghost predicate Measures(l: Layout, x: SetInfo) {
    && l.clusterBytes > 0 && x.firstCluster in l.chains && x.noFatChain == (x.firstCluster in l.flat)
    && x.validLength <= x.dataLength && |l.chains[x.firstCluster]| == ClustersFor(l.clusterBytes, x.dataLength)
  }

  /** The chain is too long for the engine to walk: its clusters are not given back. */
  ghost predicate TooLong(l: Layout, a: nat) { a in l.chains && a !in l.flat && |l.chains[a]| > WALK_GUARD + 1 }

  /** The engine finds exactly the stream's clusters, unless the chain is too long. */
  lemma StreamChainIs(v: Vol, l: Layout, loose: set<nat>, skip: set<nat>, x: SetInfo)
    requires Inv(v, l, loose, skip) && Measures(l, x)
    ensures StreamChain(v, x) == if TooLong(l, x.firstCluster) then None else Some(l.chains[x.firstCluster])
  {
    assert ChainOwned(l, x.firstCluster) && LinksOk(v, l, x.firstCluster);
    if x.noFatChain {
      FlatStream(v, l.chains[x.firstCluster], x);
    } else {
      FatStream(v, l.chains[x.firstCluster], x);
    }
  }

  lemma FlatStream(v: Vol, chain: seq<nat>, x: SetInfo)
    requires Shape(v) && |chain| > 0 && chain[0] == x.firstCluster && IsFlatChain(v, chain) && x.noFatChain
    requires x.validLength <= x.dataLength && |chain| == ClustersFor(ClusterBytes(v), x.dataLength)
    ensures StreamChain(v, x) == Some(chain)
  {
    FlatWalkFollows(v, chain, Max(x.dataLength, 1), |chain| + 1);
  }

  lemma FatStream(v: Vol, chain: seq<nat>, x: SetInfo)
    requires Shape(v) && |chain| > 0 && chain[0] == x.firstCluster && IsFatChain(v, chain) && !x.noFatChain
    requires x.validLength <= x.dataLength && |chain| == ClustersFor(ClusterBytes(v), x.dataLength)
    ensures StreamChain(v, x) == if |chain| > WALK_GUARD + 1 then None else Some(chain)
  {
    if |chain| > WALK_GUARD + 1 {
      WalkGivesUp(v, chain, |chain| + 1, 0);
    } else {
      WalkFollows(v, chain, |chain| + 1, 0);
      assert chain[0..] == chain;
    }
  }

  /** `exfat_free_stream`. */
  method FreeStream(disk: Volume, x: SetInfo) returns (ok: bool)
    requires Shape(disk.V())
    modifies disk
    ensures x.firstCluster < 2 ==> ok && disk.V() == old(disk.V())
    ensures x.firstCluster >= 2 ==>
              var c := StreamChain(old(disk.V()), x);
              ok == c.Some? && if ok then Freed(old(disk.V()), disk.V(), c.value) else disk.V() == old(disk.V())
  {
    if x.firstCluster < 2 { return true; }
    var bytes := Max(Max(x.dataLength, x.validLength), 1);
    var count := CeilDiv(bytes, 32 * disk.entriesPerCluster);
    var chain: seq<nat>;
    if x.noFatChain {
      chain := ContiguousChain(disk, x.firstCluster, bytes, count + 1);
    } else {
      var walked := ReadFatChain(disk, x.firstCluster, count + 1);
      if walked.None? { return false; }
      chain := walked.value;
    }
    disk.FreeClusterList(chain);
    return true;
  }
}
