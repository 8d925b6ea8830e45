/**
  The cluster heap of an exFAT volume as values: FAT links, the allocation bitmap and the
  contents of clusters (Microsoft exFAT specification, sections 4.1 and 7.1). Clusters are
  numbered from 2; a cluster holds a fixed number of 32-byte entries.
 */
module ExFatChains {
  import opened Bytes
  import opened ExFatEntrySet

  /** What the engine remembers about a stream it has seen in a directory. */
  datatype StreamInfo = StreamInfo(firstCluster: nat, dataLength: nat, validLength: nat, noFatChain: bool,
      isDirectory: bool)

  type Cluster = seq<Entry>

  datatype Vol = Vol(
    clusterCount: nat, entriesPerCluster: nat, root: nat,
    fat: seq<nat>, bitmap: seq<bool>, heap: seq<Cluster>, hint: nat, cache: seq<StreamInfo>)

  const END_OF_CHAIN: nat := 0xFFFF_FFF8
  const CHAIN_END_MARK: nat := 0xFFFF_FFFF
  const WALK_GUARD: nat := 0x100000

  /**
    The volume fits its own geometry: cluster numbers stay below the reserved FAT values, and a
    cluster has at most 32 MiB (Microsoft exFAT specification, section 3.1.15).
   */
  ghost predicate Shape(v: Vol) {
    && v.clusterCount + 1 < END_OF_CHAIN && 0 < v.entriesPerCluster <= 0x100000
    && |v.fat| == |v.bitmap| == |v.heap| == v.clusterCount + 2
    && forall c :: 0 <= c < |v.heap| ==> |v.heap[c]| == v.entriesPerCluster
  }

  predicate ValidCluster(v: Vol, c: nat) { 2 <= c <= v.clusterCount + 1 }

  function ClusterBytes(v: Vol): (b: nat) { 32 * v.entriesPerCluster }

  // ---- FAT chains ------------------------------------------------------------------------

  /** `chain` is a finished chain of valid, distinct clusters linked through the FAT. */
  ghost predicate IsFatChain(v: Vol, chain: seq<nat>)
    requires |v.fat| == v.clusterCount + 2
  {
    && Distinct(chain) && (forall i :: 0 <= i < |chain| ==> ValidCluster(v, chain[i]))
    && (forall i :: 0 <= i < |chain| - 1 ==> v.fat[chain[i]] == chain[i + 1])
    && (|chain| > 0 ==> v.fat[chain[|chain| - 1]] >= END_OF_CHAIN)
  }

  /** The clusters of a stream stored without FAT links. */
  ghost predicate IsFlatChain(v: Vol, chain: seq<nat>) {
    forall i :: 0 <= i < |chain| ==> chain[i] == chain[0] + i && ValidCluster(v, chain[i])
  }

  /**
    What the walk collects from `current` on, when `k` clusters have been collected before; `None` is
    the loop error.
   */
  function Walk(v: Vol, current: nat, max: nat, k: nat): (r: Option<seq<nat>>)
    requires |v.fat| == v.clusterCount + 2
    decreases WALK_GUARD + 1 - k
  {
    if !ValidCluster(v, current) then Some([])
    else if k + 1 >= max then Some([current])
    else
      var next := v.fat[current];
      if next == current || next < 2 || next >= END_OF_CHAIN then Some([current])
      else if k + 1 > WALK_GUARD then None
      else
        var rest := Walk(v, next, max, k + 1);
        if rest.None? then None else Some([current] + rest.value)
  }

  /** Walking a finished chain that the guard allows gives exactly the chain. */
  lemma {:induction false} WalkFollows(v: Vol, chain: seq<nat>, max: nat, k: nat)
    requires |v.fat| == v.clusterCount + 2 && v.clusterCount + 1 < END_OF_CHAIN && IsFatChain(v, chain)
    requires k < |chain| <= max && |chain| <= WALK_GUARD + 1
    ensures Walk(v, chain[k], max, k) == Some(chain[k..])
    decreases |chain| - k
  {
    if k + 1 < |chain| {
      assert v.fat[chain[k]] == chain[k + 1] != chain[k];
      WalkFollows(v, chain, max, k + 1);
      assert chain[k..] == [chain[k]] + chain[k + 1..];
    } else {
      assert chain[k..] == [chain[k]];
    }
  }

  /** Walking with a limit gives the beginning of a longer chain. */
  lemma {:induction false} WalkStops(v: Vol, chain: seq<nat>, max: nat, k: nat)
    requires |v.fat| == v.clusterCount + 2 && v.clusterCount + 1 < END_OF_CHAIN && IsFatChain(v, chain)
    requires k < max <= |chain| && max <= WALK_GUARD + 1
    ensures Walk(v, chain[k], max, k) == Some(chain[k..max])
    decreases max - k
  {
    if k + 1 < max {
      assert v.fat[chain[k]] == chain[k + 1] != chain[k];
      WalkStops(v, chain, max, k + 1);
      assert chain[k..max] == [chain[k]] + chain[k + 1..max];
    } else {
      assert chain[k..max] == [chain[k]];
    }
  }

  /** A longer chain trips the guard, whatever limit the caller gives beyond it. */
  lemma {:induction false} WalkGivesUp(v: Vol, chain: seq<nat>, max: nat, k: nat)
    requires |v.fat| == v.clusterCount + 2 && v.clusterCount + 1 < END_OF_CHAIN && IsFatChain(v, chain)
    requires k <= WALK_GUARD && WALK_GUARD + 1 < |chain| && WALK_GUARD + 1 < max
    ensures Walk(v, chain[k], max, k) == None
    decreases WALK_GUARD - k
  {
    assert v.fat[chain[k]] == chain[k + 1] != chain[k];
    if k < WALK_GUARD { WalkGivesUp(v, chain, max, k + 1); }
  }

  function Consecutive(start: nat, k: nat): (s: seq<nat>)
    ensures |s| == k && forall i :: 0 <= i < k ==> s[i] == start + i
  {
    seq(k, i requires 0 <= i => start + i)
  }

  /** How many clusters `exfat_contiguous_chain` lists. */
  function FlatCount(v: Vol, start: nat, bytes: nat, max: nat): (k: nat)
    requires v.entriesPerCluster > 0 && ValidCluster(v, start)
  {
    Min(Min(Max(CeilDiv(Max(bytes, 1), ClusterBytes(v)), 1), max), v.clusterCount + 2 - start)
  }

  function FlatWalk(v: Vol, start: nat, bytes: nat, max: nat): (chain: seq<nat>)
    requires v.entriesPerCluster > 0
  {
    if !ValidCluster(v, start) then [] else Consecutive(start, FlatCount(v, start, bytes, max))
  }

  /** The number of clusters a stream of this length occupies. */
  function ClustersFor(clusterBytes: nat, length: nat): (k: nat)
    requires clusterBytes > 0
    ensures k >= 1
  {
    var k := CeilDiv(Max(length, 1), clusterBytes);
    assert k * clusterBytes >= 1;
    k
  }

  /** Listing a flat stream of the right length gives exactly its clusters. */
  lemma FlatWalkFollows(v: Vol, chain: seq<nat>, length: nat, max: nat)
    requires v.entriesPerCluster > 0 && |chain| > 0 && IsFlatChain(v, chain)
             && |chain| == ClustersFor(ClusterBytes(v), length) <= max
    ensures FlatWalk(v, chain[0], length, max) == chain
  {
    assert chain[|chain| - 1] == chain[0] + (|chain| - 1);
    assert FlatCount(v, chain[0], length, max) == |chain|;
    assert Consecutive(chain[0], |chain|) == chain;
  }

  /** Listing a longer flat stream with a limit gives its beginning. */
  lemma FlatWalkStops(v: Vol, chain: seq<nat>, length: nat, max: nat)
    requires Shape(v) && IsFlatChain(v, chain) && 0 < max <= |chain| == ClustersFor(ClusterBytes(v), length)
             && length > 0
    ensures FlatWalk(v, chain[0], length, max) == chain[..max]
  {
    assert ValidCluster(v, chain[max - 1]) && chain[max - 1] == chain[0] + (max - 1);
  }

  // ---- Contents of a chain ----------------------------------------------------------------

  /** The entries of the clusters of `chain`, one after the other. */
  function Contents(heap: seq<Cluster>, chain: seq<nat>): (d: seq<Entry>)
    requires forall i :: 0 <= i < |chain| ==> chain[i] < |heap|
    decreases |chain|
  {
    if chain == [] then [] else heap[chain[0]] + Contents(heap, chain[1..])
  }

  function ZeroEntries(k: nat): (d: seq<Entry>)
    ensures |d| == k && forall i :: 0 <= i < k ==> d[i] == ZERO_ENTRY
  {
    seq(k, i requires 0 <= i < k => ZERO_ENTRY)
  }

  /** A cluster buffer: the first `m` of the entries, filled up with zeros. */
  function Filled(d: seq<Entry>, m: nat): (c: Cluster)
    ensures |c| == m
  {
    if |d| >= m then d[..m] else d + ZeroEntries(m - |d|)
  }

  function Dropped(d: seq<Entry>, m: nat): (r: seq<Entry>) { d[Min(m, |d|)..] }

  /** The heap after the clusters of `chain` have been overwritten with the entries `d`, `m` at a time. */
  function WithContents(heap: seq<Cluster>, chain: seq<nat>, d: seq<Entry>, m: nat): (h: seq<Cluster>)
    requires forall i :: 0 <= i < |chain| ==> chain[i] < |heap|
    ensures |h| == |heap|
    decreases |chain|
  {
    if chain == [] then heap else WithContents(heap[chain[0] := Filled(d, m)], chain[1..], Dropped(d, m), m)
  }

  lemma {:induction false} ContentsLength(heap: seq<Cluster>, chain: seq<nat>, m: nat)
    requires forall i :: 0 <= i < |chain| ==> chain[i] < |heap| && |heap[chain[i]]| == m
    ensures |Contents(heap, chain)| == m * |chain|
    decreases |chain|
  {
    if chain != [] {
      ContentsLength(heap, chain[1..], m);
      assert m * |chain| == m + m * |chain[1..]|;
    }
  }

  /** Clusters outside the chain keep their contents, and every cluster keeps its size. */
  lemma {:induction false} OthersKept(heap: seq<Cluster>, chain: seq<nat>, d: seq<Entry>, m: nat, c: nat)
    requires (forall i :: 0 <= i < |chain| ==> chain[i] < |heap|) && c < |heap|
    ensures c !in chain ==> WithContents(heap, chain, d, m)[c] == heap[c]
    ensures |heap[c]| == m ==> |WithContents(heap, chain, d, m)[c]| == m
    decreases |chain|
  {
    if chain != [] { OthersKept(heap[chain[0] := Filled(d, m)], chain[1..], Dropped(d, m), m, c); }
  }

  lemma FullCluster(d: seq<Entry>, m: nat, k: nat)
    requires k > 0 && |d| == m * k
    ensures |Dropped(d, m)| == m * (k - 1) && Filled(d, m) + Dropped(d, m) == d
  {
    assert m * k == m + m * (k - 1) && m * (k - 1) >= 0;
  }

  /** What is written to a chain is what the chain then holds. */
  lemma {:induction false} WrittenIsRead(heap: seq<Cluster>, chain: seq<nat>, d: seq<Entry>, m: nat)
    requires (forall i :: 0 <= i < |chain| ==> chain[i] < |heap|) && Distinct(chain) && |d| == m * |chain|
    ensures Contents(WithContents(heap, chain, d, m), chain) == d
    decreases |chain|
  {
    if chain == [] {
      assert d == [];
    } else {
      var heap1, rest := heap[chain[0] := Filled(d, m)], Dropped(d, m);
      FullCluster(d, m, |chain|);
      assert chain[0] !in chain[1..] by { assert forall j :: 1 <= j < |chain| ==> chain[0] != chain[j]; }
      WrittenIsRead(heap1, chain[1..], rest, m);
      OthersKept(heap1, chain[1..], rest, m, chain[0]);
    }
  }

  /** Contents depend on the chain's own clusters only. */
  lemma {:induction false} ContentsLocal(heap: seq<Cluster>, heap': seq<Cluster>, chain: seq<nat>)
    requires forall i :: 0 <= i < |chain| ==>
               chain[i] < |heap| && chain[i] < |heap'| && heap[chain[i]] == heap'[chain[i]]
    ensures Contents(heap, chain) == Contents(heap', chain)
    decreases |chain|
  {
    if chain != [] { ContentsLocal(heap, heap', chain[1..]); }
  }

  lemma {:induction false} ContentsAppend(heap: seq<Cluster>, chain: seq<nat>, c: nat)
    requires (forall i :: 0 <= i < |chain| ==> chain[i] < |heap|) && c < |heap|
    ensures Contents(heap, chain + [c]) == Contents(heap, chain) + heap[c]
    decreases |chain|
  {
    if chain == [] {
      assert Contents(heap, [c]) == heap[c] + Contents(heap, []);
    } else {
      assert (chain + [c])[1..] == chain[1..] + [c];
      ContentsAppend(heap, chain[1..], c);
    }
  }

  // ---- The stream cache ---------------------------------------------------------------------

  const CACHE_LIMIT: nat := 512

  ghost predicate CacheKeys(cache: seq<StreamInfo>) {
    forall i, j :: 0 <= i < j < |cache| ==> cache[i].firstCluster != cache[j].firstCluster
  }

  /** The position from `i` on of the first remembered stream that starts at `first`, or the length of the cache. */
  function CacheIndexFrom(cache: seq<StreamInfo>, i: nat, first: nat): (r: nat)
    requires i <= |cache|
    ensures i <= r <= |cache|
    ensures r < |cache| ==> cache[r].firstCluster == first
    ensures forall j :: i <= j < r ==> cache[j].firstCluster != first
    decreases |cache| - i
  {
    if i == |cache| || cache[i].firstCluster == first then i else CacheIndexFrom(cache, i + 1, first)
  }

  function CacheIndex(cache: seq<StreamInfo>, first: nat): (i: nat) { CacheIndexFrom(cache, 0, first) }

  /** `exfat_remember_stream`: replace the entry of the same stream, or append, dropping the oldest when full. */
  function Remember(cache: seq<StreamInfo>, e: StreamInfo): (r: seq<StreamInfo>) {
    if e.firstCluster < 2 then cache
    else
      var i := CacheIndex(cache, e.firstCluster);
      if i < |cache| then cache[i := e]
      else (if |cache| >= CACHE_LIMIT then cache[1..] else cache) + [e]
  }

  /** What remembering a stream leaves in the cache: the stream itself, and entries of other streams. */
  lemma Remembered(cache: seq<StreamInfo>, e: StreamInfo)
    requires CacheKeys(cache) && e.firstCluster >= 2
    ensures CacheKeys(Remember(cache, e))
    ensures forall i :: 0 <= i < |Remember(cache, e)| ==>
              Remember(cache, e)[i] == e
                  || (Remember(cache, e)[i].firstCluster != e.firstCluster && Remember(cache, e)[i] in cache)
    ensures e in Remember(cache, e)
  {
    var i, r := CacheIndex(cache, e.firstCluster), Remember(cache, e);
    if i < |cache| {
      assert r[i] == e;
    } else {
      assert r[|r| - 1] == e;
      var kept := if |cache| >= CACHE_LIMIT then cache[1..] else cache;
      forall j | 0 <= j < |kept| ensures kept[j] in cache {
        if |cache| >= CACHE_LIMIT { assert kept[j] == cache[j + 1]; }
      }
    }
  }

  /** Remembering a stream forgets no other, but the oldest of 512 when the stream is new. */
  lemma ForgetsOnlyOldest(cache: seq<StreamInfo>, e: StreamInfo, i: nat)
    requires CacheKeys(cache) && e.firstCluster >= 2 && i < |cache| && cache[i].firstCluster != e.firstCluster
    ensures cache[i] in Remember(cache, e) <==>
              i > 0 || |cache| < 512 || exists j :: 0 <= j < |cache| && cache[j].firstCluster == e.firstCluster
  {
    var k, r := CacheIndex(cache, e.firstCluster), Remember(cache, e);
    if k < |cache| {
      assert r[i] == cache[i];
    } else if |cache| < 512 {
      assert r[i] == cache[i];
    } else if i > 0 {
      assert r[i - 1] == cache[i];
    } else {
      forall j | 0 <= j < |r| ensures r[j] != cache[0] { if j < |r| - 1 { assert r[j] == cache[j + 1]; } }
    }
  }
}
