/**
  Reading chains, directories and streams from a volume, and writing them back.
 */
module ExFatStreams {
  import opened Bytes
  import opened ExFatDirectory
  import opened ExFatChains
  import opened ExFatAllocator
  import opened ExFatLayout
  import opened ExFatInvariant
  import opened ExFatReading

  // ---- Chains ---------------------------------------------------------------------------------

  function After(chain: seq<nat>, rest: Option<seq<nat>>): (r: Option<seq<nat>>) {
    if rest.None? then None else Some(chain + rest.value)
  }

  lemma AfterNothing(rest: Option<seq<nat>>)
    ensures After([], rest) == rest
  {
    if rest.Some? { assert [] + rest.value == rest.value; }
  }

  lemma AfterMore(chain: seq<nat>, c: nat, rest: Option<seq<nat>>)
    ensures After(chain, After([c], rest)) == After(chain + [c], rest)
  {
    if rest.Some? { assert chain + ([c] + rest.value) == chain + [c] + rest.value; }
  }

  /** `exfat_read_fat_chain`. */
  method ReadFatChain(disk: Volume, start: nat, max: nat) returns (r: Option<seq<nat>>)
    requires Shape(disk.V())
    ensures r == Walk(disk.V(), start, max, 0)
    ensures r.Some? ==> forall i :: 0 <= i < |r.value| ==> ValidCluster(disk.V(), r.value[i])
  {
    ghost var v := disk.V();
    var chain: seq<nat> := [];
    var current: nat, guard := start, 0;
    AfterNothing(Walk(v, start, max, 0));
    while 2 <= current <= disk.clusterCount + 1
      invariant guard == |chain| <= WALK_GUARD
      invariant Walk(v, start, max, 0) == After(chain, Walk(v, current, max, |chain|))
      invariant forall i :: 0 <= i < |chain| ==> ValidCluster(v, chain[i])
      decreases WALK_GUARD - guard
    {
      var next := disk.fat[current];
      AfterMore(chain, current, Walk(v, next, max, |chain| + 1));
      chain := chain + [current];
      if |chain| >= max { return Some(chain); }
      if next == current || next < 2 || next >= END_OF_CHAIN { return Some(chain); }
      current := next;
      guard := guard + 1;
      if guard > WALK_GUARD { return None; }
    }
    assert chain + [] == chain;
    return Some(chain);
  }

  /** `exfat_contiguous_chain`. */
  method ContiguousChain(disk: Volume, start: nat, bytes: nat, max: nat) returns (chain: seq<nat>)
    requires Shape(disk.V())
    ensures chain == FlatWalk(disk.V(), start, bytes, max)
    ensures forall i :: 0 <= i < |chain| ==> ValidCluster(disk.V(), chain[i])
  {
    chain := [];
    if !(2 <= start <= disk.clusterCount + 1) { return; }
    var count := Min(Max(CeilDiv(Max(bytes, 1), 32 * disk.entriesPerCluster), 1), max);
    var cluster := start;
    while |chain| < count && 2 <= cluster <= disk.clusterCount + 1
      invariant |chain| <= count && cluster == start + |chain| && |chain| <= disk.clusterCount + 2 - start
      invariant forall i :: 0 <= i < |chain| ==> chain[i] == start + i
      decreases count - |chain|
    {
      chain := chain + [cluster];
      cluster := cluster + 1;
    }
    assert |chain| == FlatCount(disk.V(), start, bytes, max);
  }

  // ---- Directories ------------------------------------------------------------------------------

  /** What reading directory `d` gives. */
  ghost predicate DirRead(v: Vol, d: nat, r: Result<DirBuffer>)
    requires Shape(v)
  {
    var info, c := DirInfo(v, d), DirChain(v, DirInfo(v, d), MAX_DIR_CLUSTERS);
    if c.None? then r == Err(ChainLoop)
    else if c.value == [] then r == Err(BadDirectory)
    else
      && r.Ok? && r.value.chain == c.value && InHeap(v, c.value) && r.value.entries == Contents(v.heap, c.value)
      && r.value.info.firstCluster == info.firstCluster && r.value.info.noFatChain == info.noFatChain
  }

  /** The clusters of a chain, read one after the other. */
  method ReadChain(disk: Volume, chain: seq<nat>) returns (entries: Dir)
    requires Shape(disk.V()) && InHeap(disk.V(), chain)
    ensures entries == Contents(disk.heap, chain)
  {
    entries := [];
    for i := 0 to |chain|
      invariant entries == Contents(disk.heap, chain[..i])
    {
      assert chain[..i + 1] == chain[..i] + [chain[i]];
      ContentsAppend(disk.heap, chain[..i], chain[i]);
      entries := entries + disk.heap[chain[i]];
    }
    assert chain[..|chain|] == chain;
  }

  /** `exfat_dir_raw`. */
  method ReadDir(disk: Volume, dirCluster: nat) returns (r: Result<DirBuffer>)
    requires Shape(disk.V())
    ensures DirRead(disk.V(), NormalizedDir(disk.V(), dirCluster), r)
  {
    var start := if dirCluster >= 2 then dirCluster else disk.root;
    var bytesPerCluster := 32 * disk.entriesPerCluster;
    var info := DirInfo(disk.V(), start);
    var chain: seq<nat>;
    if info.noFatChain {
      chain := ContiguousChain(disk, info.firstCluster, Max(info.dataLength, bytesPerCluster), MAX_DIR_CLUSTERS);
    } else {
      var walked := ReadFatChain(disk, info.firstCluster, MAX_DIR_CLUSTERS);
      if walked.None? { return Err(ChainLoop); }
      chain := walked.value;
    }
    if chain == [] { return Err(BadDirectory); }
    var length := Max(info.dataLength, |chain| * bytesPerCluster);
    var entries := ReadChain(disk, chain);
    r := Ok(DirBuffer(info.(dataLength := length, validLength := Max(info.validLength, length)), chain, entries));
  }

  /** `exfat_write_dir_raw`. */
  method WriteDir(disk: Volume, chain: seq<nat>, entries: Dir)
    requires Shape(disk.V()) && InHeap(disk.V(), chain)
    modifies disk
    ensures HeapWritten(old(disk.V()), disk.V(), chain)
    ensures disk.heap == WithContents(old(disk.heap), chain, entries, disk.entriesPerCluster)
  {
    var todo, rest := chain, entries;
    while todo != []
      invariant HeapWritten(old(disk.V()), disk.V(), chain) && InHeap(disk.V(), todo)
      invariant forall i :: 0 <= i < |todo| ==> todo[i] in chain
      invariant WithContents(old(disk.heap), chain, entries, disk.entriesPerCluster)
             == WithContents(disk.heap, todo, rest, disk.entriesPerCluster)
      decreases |todo|
    {
      disk.heap := disk.heap[todo[0] := Filled(rest, disk.entriesPerCluster)];
      todo, rest := todo[1..], Dropped(rest, disk.entriesPerCluster);
    }
  }
}
