/**
  Copying a stream sector by sector between two fragmented chains: the search for the longest
  contiguous run at a position of a chain, and the copy loop that pairs the runs of the source
  with the runs of the destination in chunks of any size.
 */
module SectorCopy {
  import opened Bytes

  const SECTOR_SIZE: nat := 512

  type Sector = s: seq<Byte> | |s| == 512 witness Zeros(512)

  const ZERO_SECTOR: Sector := Zeros(512)

  /** Where a volume keeps its clusters: cluster 2 starts at sector `dataStart`. */
  datatype Geometry = Geometry(dataStart: nat, sectorsPerCluster: nat)

  function ClusterToLba(g: Geometry, c: nat): (lba: nat)
    ensures lba >= g.dataStart
  {
    g.dataStart + (if c >= 2 then (c - 2) * g.sectorsPerCluster else 0)
  }

  /** The sectors of a chain in order: the chain's own sector numbers, cluster after cluster. */
  function SectorList(g: Geometry, chain: seq<nat>): (lbas: seq<nat>)
    ensures |lbas| == SectorsOf(g, |chain|)
  {
    if chain == [] then [] else SectorList(g, chain[..|chain| - 1]) + ClusterSectors(g, chain[|chain| - 1])
  }

  /** The number of sectors in `k` clusters. */
  function SectorsOf(g: Geometry, k: nat): (n: nat) {
    if k == 0 then 0 else SectorsOf(g, k - 1) + g.sectorsPerCluster
  }

  lemma {:induction false} SectorsOfProduct(g: Geometry, k: nat)
    ensures SectorsOf(g, k) == k * g.sectorsPerCluster
  {
    if k > 0 {
      SectorsOfProduct(g, k - 1);
      assert k * g.sectorsPerCluster == (k - 1) * g.sectorsPerCluster + g.sectorsPerCluster;
    }
  }

  lemma {:induction false} SectorsOfGrows(g: Geometry, j: nat, k: nat)
    requires j <= k
    ensures SectorsOf(g, j) <= SectorsOf(g, k)
    decreases k
  {
    if j < k { SectorsOfGrows(g, j, k - 1); }
  }

  function ClusterSectors(g: Geometry, c: nat): (s: seq<nat>)
    ensures |s| == g.sectorsPerCluster && forall k :: 0 <= k < |s| ==> s[k] == ClusterToLba(g, c) + k
  {
    Consecutive(ClusterToLba(g, c), g.sectorsPerCluster)
  }

  function Consecutive(start: nat, n: nat): (s: seq<nat>)
    ensures |s| == n && forall k :: 0 <= k < n ==> s[k] == start + k
  {
    seq(n, k requires 0 <= k => start + k)
  }

  function Position(g: Geometry, ci: nat, si: nat): (p: nat) { SectorsOf(g, ci) + si }

  /** Sector `si` of cluster number `ci` of the chain, found in the list. */
  lemma {:induction false} SectorAt(g: Geometry, chain: seq<nat>, ci: nat, si: nat)
    requires ci < |chain| && si < g.sectorsPerCluster
    ensures Position(g, ci, si) < |SectorList(g, chain)|
    ensures SectorList(g, chain)[Position(g, ci, si)] == ClusterToLba(g, chain[ci]) + si
    decreases |chain|
  {
    if ci < |chain| - 1 { SectorAt(g, chain[..|chain| - 1], ci, si); }
  }

  /** Stepping to the next sector of the chain is stepping to the next position. */
  lemma NextPosition(g: Geometry, ci: nat, si: nat)
    requires si < g.sectorsPerCluster
    ensures si + 1 < g.sectorsPerCluster ==> Position(g, ci, si + 1) == Position(g, ci, si) + 1
    ensures si + 1 == g.sectorsPerCluster ==> Position(g, ci + 1, 0) == Position(g, ci, si) + 1
  {
  }

  lemma EndPosition(g: Geometry, chain: seq<nat>, ci: nat, si: nat)
    requires si < g.sectorsPerCluster && ci <= |chain| && (ci == |chain| ==> si == 0)
    ensures Position(g, ci, si) <= SectorsOf(g, |chain|)
    ensures Position(g, ci, si) == SectorsOf(g, |chain|) <==> ci == |chain|
  {
    if ci < |chain| { SectorsOfGrows(g, ci + 1, |chain|); }
  }

  // ---- Contiguous runs ----------------------------------------------------------------------

  /** The list holds `n` consecutive sector numbers from `lba` on at position `p`. */
  ghost predicate IsRun(lbas: seq<nat>, p: nat, lba: nat, n: nat) {
    p + n <= |lbas| && forall k :: p <= k < p + n ==> lbas[k] == lba + (k - p)
  }

  /** No longer run starts there within the limit. */
  ghost predicate IsLongest(lbas: seq<nat>, p: nat, lba: nat, n: nat, max: nat) {
    n == max || p + n >= |lbas| || lbas[p + n] != lba + n
  }

  /** `next_contiguous_lba_run`. */
  method NextContiguousRun(g: Geometry, chain: seq<nat>, clusterIdx: nat, sectorIdx: nat, max: nat)
    returns (r: Option<(nat, nat)>, ci: nat, si: nat)
    ensures r.None? <==>
              max == 0 || g.sectorsPerCluster == 0 || clusterIdx >= |chain| || sectorIdx >= g.sectorsPerCluster
    ensures r.None? ==> ci == clusterIdx && si == sectorIdx
    ensures r.Some? ==>
              var (lba, n) := r.value; var p := Position(g, clusterIdx, sectorIdx);
              && 0 < n <= max && IsRun(SectorList(g, chain), p, lba, n)
                && IsLongest(SectorList(g, chain), p, lba, n, max)
              && ci <= |chain| && si < g.sectorsPerCluster && (ci == |chain| ==> si == 0)
                && Position(g, ci, si) == p + n
  {
    ci, si := clusterIdx, sectorIdx;
    if max == 0 || g.sectorsPerCluster == 0 || clusterIdx >= |chain| { return None, ci, si; }
    if sectorIdx >= g.sectorsPerCluster { return None, ci, si; }
    var startLba := ClusterToLba(g, chain[clusterIdx]) + sectorIdx;
    var runLen := 0;
    var expectedNext := startLba;
    ghost var lbas, p := SectorList(g, chain), Position(g, clusterIdx, sectorIdx);
    SectorAt(g, chain, ci, si);
    while runLen < max && ci < |chain|
      invariant runLen <= max && ci <= |chain| && si < g.sectorsPerCluster && (ci == |chain| ==> si == 0)
      invariant Position(g, ci, si) == p + runLen && IsRun(lbas, p, startLba, runLen)
                && expectedNext == startLba + runLen
      invariant runLen == 0 ==> ci == clusterIdx && si == sectorIdx
      decreases max - runLen
    {
      SectorAt(g, chain, ci, si);
      var thisLba := ClusterToLba(g, chain[ci]) + si;
      if runLen > 0 && thisLba != expectedNext { break; }
      NextPosition(g, ci, si);
      runLen := runLen + 1;
      expectedNext := thisLba + 1;
      si := si + 1;
      if si >= g.sectorsPerCluster {
        si := 0;
        ci := ci + 1;
      }
    }
    EndPosition(g, chain, ci, si);
    return Some((startLba, runLen)), ci, si;
  }

  /** The sector numbers of a sequence of runs, one run after the other. */
  function Expand(runs: seq<(nat, nat)>): (s: seq<nat>) {
    if runs == [] then [] else Expand(runs[..|runs| - 1]) + Consecutive(runs[|runs| - 1].0, runs[|runs| - 1].1)
  }

  lemma AnotherRun(lbas: seq<nat>, p: nat, runs: seq<(nat, nat)>, lba: nat, n: nat)
    requires p <= |lbas| && Expand(runs) == lbas[..p] && IsRun(lbas, p, lba, n)
    ensures Expand(runs + [(lba, n)]) == lbas[..p + n]
  {
    assert (runs + [(lba, n)])[..|runs|] == runs;
    assert lbas[..p + n] == lbas[..p] + Consecutive(lba, n);
  }

  /** Asking for run after run until the chain is used up gives the chain's sectors, in order. */
  method AllRuns(g: Geometry, chain: seq<nat>, max: nat) returns (runs: seq<(nat, nat)>)
    requires max > 0 && g.sectorsPerCluster > 0
    ensures Expand(runs) == SectorList(g, chain)
  {
    runs := [];
    var ci: nat, si: nat := 0, 0;
    ghost var lbas := SectorList(g, chain);
    ghost var p: nat := 0;
    while ci < |chain|
      invariant ci <= |chain| && si < g.sectorsPerCluster && (ci == |chain| ==> si == 0)
      invariant Position(g, ci, si) == p <= |lbas| && Expand(runs) == lbas[..p]
      decreases |lbas| - p
    {
      var r;
      r, ci, si := NextContiguousRun(g, chain, ci, si, max);
      AnotherRun(lbas, p, runs, r.value.0, r.value.1);
      runs := runs + [r.value];
      p := p + r.value.1;
    }
    EndPosition(g, chain, ci, si);
    assert lbas[..|lbas|] == lbas;
  }

  // ---- Sectors of distinct clusters are distinct ----------------------------------------------

  lemma ClustersApart(g: Geometry, c: nat, c': nat, k: nat, k': nat)
    requires 2 <= c && 2 <= c' && c != c' && k < g.sectorsPerCluster && k' < g.sectorsPerCluster
    ensures ClusterToLba(g, c) + k != ClusterToLba(g, c') + k'
  {
    if c < c' {
      assert (c' - 2) * g.sectorsPerCluster >= (c - 1) * g.sectorsPerCluster
          == (c - 2) * g.sectorsPerCluster + g.sectorsPerCluster;
    } else {
      assert (c - 2) * g.sectorsPerCluster >= (c' - 1) * g.sectorsPerCluster
          == (c' - 2) * g.sectorsPerCluster + g.sectorsPerCluster;
    }
  }

  /** A sector of another cluster is not among the chain's sectors. */
  lemma {:induction false} NotAmong(g: Geometry, chain: seq<nat>, c: nat, k: nat)
    requires 2 <= c && c !in chain && k < g.sectorsPerCluster && forall i :: 0 <= i < |chain| ==> chain[i] >= 2
    ensures ClusterToLba(g, c) + k !in SectorList(g, chain)
    decreases |chain|
  {
    if chain != [] {
      var init, last := chain[..|chain| - 1], chain[|chain| - 1];
      NotAmong(g, init, c, k);
      forall k' | 0 <= k' < g.sectorsPerCluster ensures ClusterSectors(g, last)[k'] != ClusterToLba(g, c) + k {
        ClustersApart(g, c, last, k, k');
      }
    }
  }

  lemma {:induction false} SectorsDistinct(g: Geometry, chain: seq<nat>)
    requires Distinct(chain) && forall i :: 0 <= i < |chain| ==> chain[i] >= 2
    ensures Distinct(SectorList(g, chain))
    decreases |chain|
  {
    if chain != [] {
      var init, last := chain[..|chain| - 1], chain[|chain| - 1];
      assert last !in init;
      SectorsDistinct(g, init);
      forall k | 0 <= k < g.sectorsPerCluster ensures ClusterSectors(g, last)[k] !in SectorList(g, init) {
        NotAmong(g, init, last, k);
      }
      JoinDistinct(SectorList(g, init), ClusterSectors(g, last));
    }
  }

  lemma JoinDistinct(a: seq<nat>, b: seq<nat>)
    requires Distinct(a) && Distinct(b) && forall k :: 0 <= k < |b| ==> b[k] !in a
    ensures Distinct(a + b)
  {
  }

  // ---- Devices ----------------------------------------------------------------------------------

  class Device {
    var sectors: seq<Sector>

    constructor (sectors: seq<Sector>)
      ensures this.sectors == sectors
    {
      this.sectors := sectors;
    }

    method ReadSpan(lba: nat, n: nat) returns (chunk: seq<Sector>)
      requires lba + n <= |sectors|
      ensures |chunk| == n && forall k :: 0 <= k < n ==> chunk[k] == sectors[lba + k]
    {
      chunk := sectors[lba..lba + n];
    }

    method WriteSpan(lba: nat, chunk: seq<Sector>)
      requires lba + |chunk| <= |sectors|
      modifies this
      ensures sectors == Splice(old(sectors), lba, chunk)
    {
      sectors := Splice(sectors, lba, chunk);
    }
  }

  // ---- What a copy leaves behind ------------------------------------------------------------------

  /** The first `keep` bytes of a sector, then zeros. */
  function Padded(s: Sector, keep: int): (r: Sector) {
    seq(512, j requires 0 <= j < 512 => if j < keep then s[j] else 0)
  }

  /** What sector number `p` of the destination stream should hold. */
  function Wanted(src: seq<Sector>, srcLbas: seq<nat>, total: nat, p: nat): (r: Sector) {
    if 512 * p < total && p < |srcLbas|
        && srcLbas[p] < |src| then Padded(src[srcLbas[p]], total - 512 * p) else ZERO_SECTOR
  }

  /** The first `done` sectors of the destination are as wanted, and sectors outside it are untouched. */
  ghost predicate CopiedUpTo(src: seq<Sector>, srcLbas: seq<nat>, total: nat, dst: seq<Sector>, dst': seq<Sector>,
                             dstLbas: seq<nat>, done: nat) {
    && done <= |dstLbas| && |dst'| == |dst|
    && (forall p :: 0 <= p < done ==> dstLbas[p] < |dst| && dst'[dstLbas[p]] == Wanted(src, srcLbas, total, p))
    && (forall s :: 0 <= s < |dst| && s !in dstLbas ==> dst'[s] == dst[s])
  }

  lemma RunHit(lbas: seq<nat>, p: nat, lba: nat, n: nat, s: nat)
    requires IsRun(lbas, p, lba, n) && lba <= s < lba + n
    ensures lbas[p + (s - lba)] == s
  {
  }

  lemma OutsideRun(lbas: seq<nat>, done: nat, lba: nat, n: nat, p: nat)
    requires Distinct(lbas) && IsRun(lbas, done, lba, n) && p < done
    ensures !(lba <= lbas[p] < lba + n)
  {
    if lba <= lbas[p] < lba + n { RunHit(lbas, done, lba, n, lbas[p]); }
  }

  lemma StepCopied(src: seq<Sector>, srcLbas: seq<nat>, total: nat, dst: seq<Sector>, dst': seq<Sector>,
                   dstLbas: seq<nat>, done: nat,
                   lba: nat, chunk: seq<Sector>, dst'': seq<Sector>)
    requires CopiedUpTo(src, srcLbas, total, dst, dst', dstLbas, done) && Distinct(dstLbas)
    requires IsRun(dstLbas, done, lba, |chunk|) && lba + |chunk| <= |dst'| && dst'' == Splice(dst', lba, chunk)
    requires forall k :: 0 <= k < |chunk| ==> chunk[k] == Wanted(src, srcLbas, total, done + k)
    ensures CopiedUpTo(src, srcLbas, total, dst, dst'', dstLbas, done + |chunk|)
  {
    forall p | 0 <= p < done + |chunk|
        ensures dstLbas[p] < |dst| && dst''[dstLbas[p]] == Wanted(src, srcLbas, total, p) {
      if p < done {
        OutsideRun(dstLbas, done, lba, |chunk|, p);
      } else {
        assert dstLbas[p] == lba + (p - done);
        assert chunk[p - done] == Wanted(src, srcLbas, total, done + (p - done));
      }
    }
    forall s | 0 <= s < |dst| && s !in dstLbas ensures dst''[s] == dst[s] {
      if lba <= s < lba + |chunk| { RunHit(dstLbas, done, lba, |chunk|, s); }
    }
  }

  // ---- The copy loop ------------------------------------------------------------------------------

  datatype CopyResult = Copied | SourceFailed | Canceled

  /** The callback let the writing go on at its first `n` calls. */
  ghost predicate LetWrite(ask: nat -> bool, n: nat) { forall k :: 0 <= k < n ==> ask(k) }

  ghost predicate OnDevice(d: Device, lbas: seq<nat>)
    reads d
  {
    forall p :: 0 <= p < |lbas| ==> lbas[p] < |d.sectors|
  }

  /** One chunk: read from the source and cut off at the end of the stream, or zeros. */
  method MoveChunk(src: Device, srcLba: nat, useSource: bool, dst: Device, dstLba: nat, n: nat, remaining: nat)
    requires dstLba + n <= |dst.sectors| && (useSource ==> srcLba + n <= |src.sectors|)
    modifies dst
    ensures exists chunk: seq<Sector> ::
              MovedChunk(old(src.sectors), srcLba, useSource, n, remaining, chunk)
              && dst.sectors == Splice(old(dst.sectors), dstLba, chunk)
  {
    var chunk: seq<Sector>;
    if useSource {
      chunk := src.ReadSpan(srcLba, n);
      if remaining < n * SECTOR_SIZE {
        var full := chunk;
        chunk := seq(n, k requires 0 <= k < n => Padded(full[k], remaining - 512 * k));
      } else {
        FullSectors(src.sectors, srcLba, n, remaining, chunk);
      }
    } else {
      chunk := seq(n, k requires 0 <= k < n => ZERO_SECTOR);
    }
    assert MovedChunk(src.sectors, srcLba, useSource, n, remaining, chunk);
    dst.WriteSpan(dstLba, chunk);
  }

  ghost predicate MovedChunk(src: seq<Sector>, srcLba: nat, useSource: bool, n: nat, remaining: nat,
                             chunk: seq<Sector>) {
    && |chunk| == n && (useSource ==> srcLba + n <= |src|)
    && forall k :: 0 <= k < n ==>
        chunk[k] == if useSource then Padded(src[srcLba + k], remaining - 512 * k) else ZERO_SECTOR
  }

  lemma FullSectors(src: seq<Sector>, srcLba: nat, n: nat, remaining: nat, chunk: seq<Sector>)
    requires |chunk| == n && srcLba + n <= |src| && n * 512 <= remaining
             && forall k :: 0 <= k < n ==> chunk[k] == src[srcLba + k]
    ensures MovedChunk(src, srcLba, true, n, remaining, chunk)
  {
    forall k | 0 <= k < n ensures chunk[k] == Padded(src[srcLba + k], remaining - 512 * k) {
      assert chunk[k] == src[srcLba + k];
    }
  }

  /** A cursor over a chain: `done` sectors are behind it, and a run of `left` sectors at `lba` is before it. */
  ghost predicate CursorAt(g: Geometry, chain: seq<nat>, ci: nat, si: nat, done: nat, lba: nat, left: nat) {
    && ci <= |chain| && si < g.sectorsPerCluster && (ci == |chain| ==> si == 0)
    && Position(g, ci, si) == done + left && IsRun(SectorList(g, chain), done, lba, left)
  }

  lemma CursorMoves(g: Geometry, chain: seq<nat>, ci: nat, si: nat, done: nat, lba: nat, left: nat, n: nat)
    requires CursorAt(g, chain, ci, si, done, lba, left) && n <= left
    ensures CursorAt(g, chain, ci, si, done + n, lba + n, left - n)
  {
  }

  function SectorCount(total: nat): (n: nat)
    ensures 512 * n >= total && (n > 0 ==> 512 * (n - 1) < total)
  {
    (total + 511) / 512
  }

  /** A moved chunk holds what the destination should hold there. */
  lemma ChunkIsWanted(src0: seq<Sector>, src: seq<Sector>, srcLbas: seq<nat>, total: nat, done: nat, srcLeft: nat,
                      srcLba: nat, n: nat, chunk: seq<Sector>)
    requires srcLeft <= SectorCount(total) && SectorCount(total) - srcLeft == Min(done, SectorCount(total))
             && |src| == |src0|
    requires forall p :: 0 <= p < |srcLbas| ==> srcLbas[p] < |src0| && src[srcLbas[p]] == src0[srcLbas[p]]
    requires srcLeft > 0 ==> n <= srcLeft && IsRun(srcLbas, done, srcLba, n)
    requires MovedChunk(src, srcLba, srcLeft > 0, n, total - Min(total, 512 * Min(done, SectorCount(total))), chunk)
    ensures forall k :: 0 <= k < n ==> chunk[k] == Wanted(src0, srcLbas, total, done + k)
  {
    forall k | 0 <= k < n ensures chunk[k] == Wanted(src0, srcLbas, total, done + k) {
      if srcLeft > 0 { assert srcLbas[done + k] == srcLba + (done + k - done); }
    }
  }

  /** Everything the copy needs of its arguments. */
  ghost predicate MayCopy(src: Device, sg: Geometry, srcChain: seq<nat>, dst: Device, dg: Geometry, dstChain: seq<nat>)
    reads src, dst
  {
    && sg.sectorsPerCluster > 0 && dg.sectorsPerCluster > 0
    && OnDevice(src, SectorList(sg, srcChain)) && OnDevice(dst, SectorList(dg, dstChain))
      && Distinct(SectorList(dg, dstChain))
    && (src == dst ==> forall p :: 0 <= p < |SectorList(sg, srcChain)| ==>
        SectorList(sg, srcChain)[p] !in SectorList(dg, dstChain))
  }

  /** The source sectors are still what they were when the copy began. */
  ghost predicate SourceIntact(src0: seq<Sector>, src: seq<Sector>, srcLbas: seq<nat>) {
    |src| == |src0| && forall p :: 0 <= p < |srcLbas| ==> srcLbas[p] < |src0| && src[srcLbas[p]] == src0[srcLbas[p]]
  }

  lemma StillIntact(src0: seq<Sector>, srcLbas: seq<nat>, total: nat, dst0: seq<Sector>, dst': seq<Sector>,
                    dstLbas: seq<nat>, done: nat)
    requires CopiedUpTo(src0, srcLbas, total, dst0, dst', dstLbas, done) && src0 == dst0
    requires forall p :: 0 <= p < |srcLbas| ==> srcLbas[p] < |src0| && srcLbas[p] !in dstLbas
    ensures SourceIntact(src0, dst', srcLbas)
  {
  }

  lemma RunOnDevice(lbas: seq<nat>, done: nat, lba: nat, n: nat, size: nat)
    requires IsRun(lbas, done, lba, n) && n > 0 && forall p :: 0 <= p < |lbas| ==> lbas[p] < size
    ensures lba + n <= size
  {
    assert lbas[done + n - 1] == lba + (done + n - 1 - done);
  }

  /** One step of the copy loop. */
  method CopyChunk(src: Device, srcLba: nat, srcLeft: nat, dst: Device, dstLba: nat, n: nat, total: nat, copied: nat,
                   ghost src0: seq<Sector>, ghost srcLbas: seq<nat>, ghost dst0: seq<Sector>, ghost dstLbas: seq<nat>,
                       ghost done: nat)
    requires CopiedUpTo(src0, srcLbas, total, dst0, dst.sectors, dstLbas, done)
             && SourceIntact(src0, src.sectors, srcLbas)
    requires Distinct(dstLbas) && IsRun(dstLbas, done, dstLba, n) && n > 0
             && forall p :: 0 <= p < |dstLbas| ==> dstLbas[p] < |dst0|
    requires srcLeft <= SectorCount(total) && SectorCount(total) - srcLeft == Min(done, SectorCount(total))
    requires copied == Min(total, 512 * Min(done, SectorCount(total)))
    requires srcLeft > 0 ==> n <= srcLeft && IsRun(srcLbas, done, srcLba, n)
    modifies dst
    ensures CopiedUpTo(src0, srcLbas, total, dst0, dst.sectors, dstLbas, done + n)
  {
    RunOnDevice(dstLbas, done, dstLba, n, |dst.sectors|);
    if srcLeft > 0 { RunOnDevice(srcLbas, done, srcLba, n, |src.sectors|); }
    ghost var before, source := dst.sectors, src.sectors;
    MoveChunk(src, srcLba, srcLeft > 0, dst, dstLba, n, total - copied);
    ghost var chunk: seq<Sector> :| MovedChunk(source, srcLba, srcLeft > 0, n, total - copied, chunk)
        && dst.sectors == Splice(before, dstLba, chunk);
    ChunkIsWanted(src0, source, srcLbas, total, done, srcLeft, srcLba, n, chunk);
    StepCopied(src0, srcLbas, total, dst0, before, dstLbas, done, dstLba, chunk, dst.sectors);
  }

  /** The reading side of the copy: a cursor, the run before it, the sectors and bytes to come. */
  datatype Reading = Reading(ci: nat, si: nat, lba: nat, run: nat, left: nat, copied: nat)

  ghost predicate ReadingAt(sg: Geometry, srcChain: seq<nat>, total: nat, c: Reading, done: nat) {
    && c.left <= SectorCount(total) && SectorCount(total) - c.left == Min(done, SectorCount(total)) && c.run <= c.left
    && c.copied == Min(total, 512 * Min(done, SectorCount(total)))
    && CursorAt(sg, srcChain, c.ci, c.si, SectorCount(total) - c.left, c.lba, c.run)
  }

  /** The reading side after `n` more sectors of the destination. */
  function Advanced(c: Reading, total: nat, n: nat): (r: Reading)
    requires c.copied <= total && (c.left > 0 ==> n <= c.run <= c.left)
  {
    if c.left > 0 then Reading(c.ci, c.si, c.lba + n, c.run - n, c.left - n,
        c.copied + Min(total - c.copied, n * 512)) else c
  }

  lemma ReadingAdvances(sg: Geometry, srcChain: seq<nat>, total: nat, c: Reading, done: nat, n: nat)
    requires ReadingAt(sg, srcChain, total, c, done) && (c.left > 0 ==> n <= c.run)
    ensures c.copied <= total && ReadingAt(sg, srcChain, total, Advanced(c, total, n), done + n)
  {
    if c.left > 0 { CursorMoves(sg, srcChain, c.ci, c.si, SectorCount(total) - c.left, c.lba, c.run, n); }
  }

  /** The next run of the source, if the last one is used up and there is something left to read. */
  method NextSourceRun(sg: Geometry, srcChain: seq<nat>, total: nat, c: Reading, ghost done: nat)
    returns (r: Option<Reading>)
    requires ReadingAt(sg, srcChain, total, c, done) && sg.sectorsPerCluster > 0
    ensures r.None? ==> |SectorList(sg, srcChain)| == done < SectorCount(total)
    ensures r.Some? ==>
              ReadingAt(sg, srcChain, total, r.value, done) && r.value.left == c.left
              && (c.left > 0 ==> r.value.run > 0)
  {
    if c.left == 0 || c.run > 0 { return Some(c); }
    EndPosition(sg, srcChain, c.ci, c.si);
    var next, ci, si := NextContiguousRun(sg, srcChain, c.ci, c.si, c.left);
    if next.None? { return None; }
    return Some(Reading(ci, si, next.value.0, next.value.1, c.left, c.copied));
  }

  /** The lists of sectors of a copy: the destination's are distinct, and apart from the source's on the same device. */
  ghost predicate Lists(same: bool, src0: seq<Sector>, dst0: seq<Sector>, srcLbas: seq<nat>, dstLbas: seq<nat>) {
    && Distinct(dstLbas) && (forall p :: 0 <= p < |dstLbas| ==> dstLbas[p] < |dst0|)
    && (same ==> src0 == dst0 && forall p :: 0 <= p < |srcLbas| ==> srcLbas[p] !in dstLbas)
  }

  /** As many sectors as the chunk, the source run and the destination run allow. */
  method CopyStep(src: Device, sg: Geometry, srcChain: seq<nat>, total: nat, dst: Device, lba: nat, room: nat,
                  c: Reading, chunkSectors: nat,
                  ghost src0: seq<Sector>, ghost dst0: seq<Sector>, ghost dstLbas: seq<nat>, ghost done: nat)
    returns (n: nat, c': Reading)
    requires room > 0 && chunkSectors > 0 && ReadingAt(sg, srcChain, total, c, done) && (c.left > 0 ==> c.run > 0)
    requires Lists(src == dst, src0, dst0, SectorList(sg, srcChain), dstLbas) && IsRun(dstLbas, done, lba, room)
    requires CopiedUpTo(src0, SectorList(sg, srcChain), total, dst0, dst.sectors, dstLbas, done)
    requires SourceIntact(src0, src.sectors, SectorList(sg, srcChain))
    modifies dst
    ensures 0 < n <= room && ReadingAt(sg, srcChain, total, c', done + n)
    ensures CopiedUpTo(src0, SectorList(sg, srcChain), total, dst0, dst.sectors, dstLbas, done + n)
    ensures SourceIntact(src0, src.sectors, SectorList(sg, srcChain))
  {
    n := Min(chunkSectors, room);
    if c.left > 0 { n := Min(Min(n, c.run), c.left); }
    PartOfRun(dstLbas, done, lba, room, 0, n);
    if c.left > 0 { PartOfRun(SectorList(sg, srcChain), done, c.lba, c.run, 0, n); }
    CopyChunk(src, c.lba, c.left, dst, lba, n, total, c.copied, src0, SectorList(sg, srcChain), dst0, dstLbas, done);
    if src == dst { StillIntact(src0, SectorList(sg, srcChain), total, dst0, dst.sectors, dstLbas, done + n); }
    ReadingAdvances(sg, srcChain, total, c, done, n);
    c' := Advanced(c, total, n);
  }

  /** Fills one contiguous run of the destination. */
  method FillRun(src: Device, sg: Geometry, srcChain: seq<nat>, total: nat, dst: Device, lba: nat, run: nat,
                 reading: Reading,
                 chunkSectors: nat, progress: nat -> bool, call: nat,
                 ghost src0: seq<Sector>, ghost dst0: seq<Sector>, ghost dstLbas: seq<nat>, ghost done: nat)
    returns (r: CopyResult, c: Reading, calls: nat, ghost end: nat)
    requires sg.sectorsPerCluster > 0 && chunkSectors > 0 && ReadingAt(sg, srcChain, total, reading, done)
    requires Lists(src == dst, src0, dst0, SectorList(sg, srcChain), dstLbas) && IsRun(dstLbas, done, lba, run)
    requires CopiedUpTo(src0, SectorList(sg, srcChain), total, dst0, dst.sectors, dstLbas, done)
    requires SourceIntact(src0, src.sectors, SectorList(sg, srcChain)) && LetWrite(progress, call)
    modifies dst
    ensures SourceIntact(src0, src.sectors, SectorList(sg, srcChain)) && (r == Copied ==> end == done + run)
    ensures LetWrite(progress, calls) && calls - call <= end - done
    ensures end <= done + run && CopiedUpTo(src0, SectorList(sg, srcChain), total, dst0, dst.sectors, dstLbas, end)
    ensures r == Copied ==> ReadingAt(sg, srcChain, total, c, end)
    ensures r == SourceFailed ==> |SectorList(sg, srcChain)| == end < Min(SectorCount(total), done + run)
    ensures r == Canceled ==> !progress(calls) && calls - call < end - done
  {
    c, calls, end := reading, call, done;
    var filled: nat := 0;
    while filled < run
      invariant filled <= run && end == done + filled && ReadingAt(sg, srcChain, total, c, end)
      invariant CopiedUpTo(src0, SectorList(sg, srcChain), total, dst0, dst.sectors, dstLbas, end)
      invariant SourceIntact(src0, src.sectors, SectorList(sg, srcChain))
      invariant LetWrite(progress, calls) && calls - call <= filled
    {
      var next := NextSourceRun(sg, srcChain, total, c, end);
      if next.None? { return SourceFailed, c, calls, end; }
      PartOfRun(dstLbas, done, lba, run, filled, run - filled);
      var n;
      n, c := CopyStep(src, sg, srcChain, total, dst, lba + filled, run - filled, next.value, chunkSectors, src0, dst0,
          dstLbas, end);
      filled, end := filled + n, end + n;
      if !progress(calls) { return Canceled, c, calls, end; }
      calls := calls + 1;
    }
    return Copied, c, calls, end;
  }

  lemma PartOfRun(lbas: seq<nat>, done: nat, lba: nat, run: nat, filled: nat, n: nat)
    requires IsRun(lbas, done, lba, run) && filled + n <= run
    ensures IsRun(lbas, done + filled, lba + filled, n)
  {
  }

  /**
    `copy_stream_to_exfat_chain`, and the same loop in the FAT32 copy. The chunk size is any
    positive number of sectors; `progress(k)` is the answer to the callback's call number `k`.
   */
  method CopyStream(src: Device, sg: Geometry, srcChain: seq<nat>, total: nat, dst: Device, dg: Geometry,
                    dstChain: seq<nat>,
                    chunkSectors: nat, progress: nat -> bool) returns (r: CopyResult, ghost granted: nat)
    requires MayCopy(src, sg, srcChain, dst, dg, dstChain) && chunkSectors > 0
    modifies dst
    ensures r == Copied ==>
              CopiedUpTo(old(src.sectors), SectorList(sg, srcChain), total, old(dst.sectors), dst.sectors,
              SectorList(dg, dstChain), |SectorList(dg, dstChain)|)
    ensures exists done :: CopiedUpTo(old(src.sectors), SectorList(sg, srcChain), total, old(dst.sectors), dst.sectors,
            SectorList(dg, dstChain), done)
    ensures r == SourceFailed ==> |SectorList(sg, srcChain)| < Min(SectorCount(total), |SectorList(dg, dstChain)|)
    ensures r == Copied ==> |SectorList(sg, srcChain)| >= Min(SectorCount(total), |SectorList(dg, dstChain)|)
    ensures LetWrite(progress, granted) && granted <= 1 + |SectorList(dg, dstChain)|
    ensures r == Canceled ==> !progress(granted) && granted <= |SectorList(dg, dstChain)|
  {
    ghost var src0, dst0, srcLbas, dstLbas
        := src.sectors, dst.sectors, SectorList(sg, srcChain), SectorList(dg, dstChain);
    assert CopiedUpTo(src0, srcLbas, total, dst0, dst.sectors, dstLbas, 0);
    granted := 0;
    if !progress(0) { return Canceled, granted; }
    SectorsOfProduct(dg, |dstChain|);
    var dstTotal: nat := |dstChain| * dg.sectorsPerCluster;
    var c, calls := Reading(0, 0, 0, 0, SectorCount(total), 0), 1;
    var ci: nat, si: nat, done: nat := 0, 0, 0;
    granted := calls;
    while done < dstTotal
      invariant done <= dstTotal && ReadingAt(sg, srcChain, total, c, done)
                && CursorAt(dg, dstChain, ci, si, done, 0, 0)
      invariant CopiedUpTo(src0, srcLbas, total, dst0, dst.sectors, dstLbas, done)
                && SourceIntact(src0, src.sectors, srcLbas)
      invariant granted == calls <= 1 + done && LetWrite(progress, calls)
    {
      EndPosition(dg, dstChain, ci, si);
      var run;
      run, ci, si := NextContiguousRun(dg, dstChain, ci, si, dstTotal - done);
      ghost var end;
      r, c, calls, end := FillRun(src, sg, srcChain, total, dst, run.value.0, run.value.1, c, chunkSectors, progress,
          calls, src0, dst0, dstLbas, done);
      granted := calls;
      if r != Copied { return; }
      done := done + run.value.1;
    }
    return Copied, granted;
  }

  // ---- What this means for the streams ----------------------------------------------------------------

  /** Byte number `i` of the stream stored in these sectors. */
  function ByteOf(sectors: seq<Sector>, lbas: seq<nat>, i: nat): (b: Byte)
    requires i < 512 * |lbas| && forall p :: 0 <= p < |lbas| ==> lbas[p] < |sectors|
  {
    sectors[lbas[i / 512]][i % 512]
  }

  /** After a copy the destination stream is the first `total` bytes of the source stream, then zeros. */
  lemma CopiedStream(src: seq<Sector>, srcLbas: seq<nat>, total: nat, dst: seq<Sector>, dst': seq<Sector>,
                     dstLbas: seq<nat>, i: nat)
    requires CopiedUpTo(src, srcLbas, total, dst, dst', dstLbas, |dstLbas|) && i < 512 * |dstLbas|
    requires |srcLbas| >= Min(SectorCount(total), |dstLbas|) && forall p :: 0 <= p < |srcLbas| ==> srcLbas[p] < |src|
    ensures forall p :: 0 <= p < |dstLbas| ==> dstLbas[p] < |dst'|
    ensures i < total ==> i < 512 * |srcLbas|
    ensures ByteOf(dst', dstLbas, i) == if i < total then ByteOf(src, srcLbas, i) else 0
  {
    var p, j := i / 512, i % 512;
    assert i == 512 * p + j;
    assert dst'[dstLbas[p]] == Wanted(src, srcLbas, total, p);
    if i < total { assert p < SectorCount(total); }
  }
}
