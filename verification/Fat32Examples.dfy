/**
  Volumes on which FAT32 does not keep what one would expect of it, made from a blank device and
  put through the operations themselves.
 */
module Fat32Examples {
  import opened Bytes
  import opened SectorCopy
  import opened Fat32Table
  import opened Fat32Alloc
  import opened Fat32Streams
  import opened Fat32Directory
  import opened Fat32Storing
  import opened Fat32Files
  import opened Fat32Outcomes

  // ---- A blank volume -----------------------------------------------------------------------------------

  function Blank(n: nat): (s: seq<Sector>)
    ensures |s| == n && forall i :: 0 <= i < n ==> s[i] == ZERO_SECTOR
  {
    seq(n, _ => ZERO_SECTOR)
  }

  ghost predicate AllFree(t: seq<nat>) { forall c :: 0 <= c < |t| ==> t[c] == 0 }

  lemma BlankLinks(n: nat, a: FatArea)
    requires Fits(Blank(n), a)
    ensures AllFree(Links(Blank(n), a)) && LinksInside(Links(Blank(n), a))
  {
    forall c | 0 <= c < |Links(Blank(n), a)| ensures Links(Blank(n), a)[c] == 0 {
      LinkAt(Blank(n), a, c);
      LeZero(ZERO_SECTOR, 4 * (c % 128), 4);
    }
  }

  /** One FAT at the start of the device, and the clusters behind it. */
  method NewVolume(fatSectors: nat, sectorsPerCluster: nat, n: nat) returns (fs: Fat32)
    requires 0 < sectorsPerCluster && fatSectors <= n && 128 * fatSectors <= CHAIN_END
    ensures fresh(fs) && fresh(fs.disk) && fs.Valid() && AllFree(fs.T()) && |fs.T()| == 128 * fatSectors
    ensures fs.disk.sectors == Blank(n) && fs.disk.area == FatArea(0, fatSectors, 1)
            && fs.g == Geometry(fatSectors, sectorsPerCluster)
  {
    var a := FatArea(0, fatSectors, 1);
    assert CopyStart(a, 1) == CopyStart(a, 0) + fatSectors;
    BlankLinks(n, a);
    var disk := new FatDisk(a, Blank(n));
    fs := new Fat32(disk, Geometry(fatSectors, sectorsPerCluster), 2);
  }

  /** The clusters from 2 on. */
  function Run(k: nat): (chain: seq<nat>)
    ensures |chain| == k && forall i :: 0 <= i < k ==> chain[i] == i + 2
  {
    seq(k, i requires 0 <= i => i + 2)
  }

  /** The first `k` links of the run are made. */
  ghost predicate RunUpTo(t: seq<nat>, k: nat) {
    && k + 2 <= |t| && (forall c :: 2 <= c < k + 2 ==> t[c] == c + 1)
    && forall c :: 0 <= c < |t| && !(2 <= c < k + 2) ==> t[c] == 0
  }

  lemma RunIsChain(t: seq<nat>, t': seq<nat>, k: nat)
    requires 0 < k && k + 1 < |t| <= CHAIN_END && RunUpTo(t, k - 1) && t' == t[k + 1 := FAT32_EOC]
    ensures StrictChain(t', Run(k)) && forall c :: k + 2 <= c < |t'| ==> t'[c] == 0
  {
  }

  /** A chain of the first `k` clusters on a blank volume. */
  method LinkRun(fs: Fat32, k: nat)
    requires fs.Valid() && AllFree(fs.T()) && 0 < k && k + 1 < |fs.T()|
    modifies fs.disk
    ensures fs.Valid() && |fs.T()| == |old(fs.T())| && StrictChain(fs.T(), Run(k))
            && DataSame(old(fs.disk.sectors), fs.disk.sectors, fs.disk.area)
    ensures forall c :: k + 2 <= c < |fs.T()| ==> fs.T()[c] == 0
  {
    ghost var s := fs.disk.sectors;
    for i := 0 to k - 1
      invariant fs.Valid() && |fs.T()| == |old(fs.T())| && RunUpTo(fs.T(), i)
                && DataSame(s, fs.disk.sectors, fs.disk.area)
    {
      ghost var mid := fs.disk.sectors;
      fs.Link(i + 2, i + 3);
      DataSameTwice(s, mid, fs.disk.sectors, fs.disk.area);
    }
    ghost var t, mid := fs.T(), fs.disk.sectors;
    fs.Link(k + 1, FAT32_EOC);
    DataSameTwice(s, mid, fs.disk.sectors, fs.disk.area);
    RunIsChain(t, fs.T(), k);
  }

  function Always(): (progress: Call -> bool) { _ => true }

  // ---- A cluster in use for nothing ----------------------------------------------------------------------

  /**
    A FAT of nine sectors: the chain of a file of 1025 clusters is fitted to 1024, and the number of
    clusters in use is the same as before. The last cluster of the old chain stays in use.
   */
  method LeakingRun() returns (fs: Fat32, ghost t: seq<nat>, ghost old_: seq<nat>, new_: seq<nat>)
    ensures Fits(fs.disk.sectors, fs.disk.area) && fs.disk.area.sectorsPerFat == 9 && |fs.T()| == |t| == 1152
    ensures StrictChain(t, old_) && |old_| == 1025 && StrictChain(fs.T(), new_) && |new_| == 1024 && new_ <= old_
    ensures Used(fs.T()) == Used(t) && fs.T()[old_[1024]] == t[old_[1024]] != 0 && old_[1024] !in new_
  {
    fs := NewVolume(9, 1, 1200);
    LinkRun(fs, 1025);
    t, old_ := fs.T(), Run(1025);
    var r; ghost var got;
    r, got := FitChain(fs, Seen(Run(1025)), 1024, Always(), 0, old_);
    FitsExactlyWhen(Spare(t), 1025, 1024, Always(), 0);
    new_ := r.value;
    UsedExactly(t, fs.T(), old_, new_);
    TailIsLost(t, fs.T(), old_, new_, 1024);
  }

  // ---- A free entry behind the last cluster ----------------------------------------------------------------

  /** A FAT of one sector for a volume of 98 clusters, all of them in use: the search gives cluster 100. */
  lemma SlackIsGiven() returns (t: seq<nat>)
    ensures |t| == 128 && (forall c :: 2 <= c < 100 ==> t[c] != 0) && FirstFree(t, 2) == Some(100)
  {
    t := seq(128, c => if c < 100 then FAT32_EOC else 0);
    assert t[100] == 0;
    assert FirstZero(t, 2) == 100;
  }

  // ---- A file too large for its entry -----------------------------------------------------------------------

  const HUGE: nat := 0x1_0000_0000

  lemma {:induction false} AllZeros(t: seq<nat>, c: nat)
    requires c <= |t| && forall e :: c <= e < |t| ==> t[e] == 0
    ensures ZerosFrom(t, c) == |t| - c
    decreases |t| - c
  {
    if c < |t| { AllZeros(t, c + 1); }
  }

  /** A directory of blank sectors has a free entry at once. */
  lemma BlankDirectory(s: seq<Sector>, g: Geometry, chain: seq<nat>, name: ShortName)
    requires AllOnDevice(s, SectorList(g, chain)) && |SectorList(g, chain)| > 0
             && s[SectorList(g, chain)[0]] == ZERO_SECTOR
    ensures ScanFrom(EntriesOf(s, SectorList(g, chain)), name, true, 0, None) == FreeSlot(0)
  {
    EntryNumber(s, SectorList(g, chain), 0, 0);
    assert EntryIn(ZERO_SECTOR, 0)[0] == ZERO_SECTOR[0];
  }

  const DEVICE: nat := 513 + 128 * 65662

  /** 513 sectors of FAT, clusters of 64 KiB, all of them on the device, and nothing but a blank directory. */
  ghost predicate HugeVolume(s: seq<Sector>, a: FatArea, g: Geometry) {
    && Sane(s, a, g) && g == Geometry(513, 128) && |s| == DEVICE && |Links(s, a)| == 65664
    && StrictChain(Links(s, a), Run(1)) && (forall c :: 3 <= c < |Links(s, a)| ==> Links(s, a)[c] == 0)
    && AllOnDevice(s, SectorList(g, Run(1))) && |SectorList(g, Run(1))| > 0
    && s[SectorList(g, Run(1))[0]] == ZERO_SECTOR
  }

  lemma EveryClusterOn(t: seq<nat>, g: Geometry)
    requires |t| == 65664 && g == Geometry(513, 128)
    ensures Whole(DEVICE, t, g)
  {
    forall c {:trigger ClusterOn(DEVICE, g, c)} | 2 <= c < |t| ensures ClusterOn(DEVICE, g, c) {
      assert ClusterToLba(g, c) == 513 + (c - 2) * 128;
    }
  }

  lemma HugeFits(s: seq<Sector>, a: FatArea, g: Geometry, hint: nat, name: ShortName)
    requires HugeVolume(s, a, g)
    ensures FileError(DEVICE, Links(s, a), hint, g, Run(1), EntriesOf(s, SectorList(g, Run(1))), name, true, [], HUGE,
            Always()).None?
  {
    var t := Links(s, a);
    EveryClusterOn(t, g);
    AllZeros(t, 3);
    BlankDirectory(s, g, Run(1), name);
    HugeCount(g);
    WritesExactlyWhen(DEVICE, t, hint, g, Run(1), EntriesOf(s, SectorList(g, Run(1))), name, true, [], HUGE, Always());
  }

  lemma HugeCount(g: Geometry)
    requires g == Geometry(513, 128)
    ensures ClusterCount(g, HUGE) == 65536
  {
    assert CeilDiv(HUGE, 65536) * 65536 >= HUGE;
  }

  /** The directory's cluster, 2, has the 128 sectors behind the FAT. */
  lemma FirstSectors(g: Geometry, p: nat)
    requires g == Geometry(513, 128) && p < 128
    ensures |SectorList(g, Run(1))| == 128 && SectorList(g, Run(1))[p] == 513 + p
  {
    assert SectorsOf(g, 1) == SectorsOf(g, 0) + 128;
    SectorAt(g, Run(1), 0, p);
    assert ClusterToLba(g, 2) == 513;
  }

  method NewHugeVolume() returns (fs: Fat32)
    ensures fresh(fs) && fresh(fs.disk) && fs.Valid() && HugeVolume(fs.disk.sectors, fs.disk.area, fs.g)
  {
    fs := NewVolume(513, 128, DEVICE);
    LinkRun(fs, 1);
    assert CopyStart(fs.disk.area, 1) == CopyStart(fs.disk.area, 0) + 513;
    forall p | 0 <= p < 128
        ensures |SectorList(fs.g, Run(1))| == 128 && SectorList(fs.g, Run(1))[p] == 513 + p {
      FirstSectors(fs.g, p);
    }
  }

  /**
    On a volume with one directory, a file of 2^32 bytes is written without an error. Its entry says
    that it is empty, and so does a reader.
   */
  method TooLargeToReadBack() returns (fs: Fat32, r: Result<()>, ghost o: Outcome)
    ensures r.Ok? && AllOnDevice(fs.disk.sectors, SectorList(fs.g, o.dirChain))
            && o.q < 16 * |SectorList(fs.g, o.dirChain)|
    ensures EntrySize(EntriesOf(fs.disk.sectors, SectorList(fs.g, o.dirChain))[o.q]) == 0 && |o.chain| == 65536
    ensures !GivesBack(fs.disk.sectors, fs.disk.area, fs.g, o.dirChain, o.q, HUGE, Zeros(HUGE))
  {
    fs := NewHugeVolume();
    ghost var s := fs.disk.sectors;
    var name: ShortName := Zeros(11)[0 := 65];
    HugeFits(s, fs.disk.area, fs.g, fs.hint, name);
    BlankDirectory(s, fs.g, Run(1), name);
    assert Seen(Run(1)) == Run(1);
    ghost var stored, got;
    r, stored, o, got := WriteFile(fs, 2, name, true, Zeros(HUGE), Always(), Run(1), []);
    NotGivenBack(s, fs.disk.sectors, fs.disk.area, fs.g, name, o);
  }

  lemma NotGivenBack(s: seq<Sector>, s': seq<Sector>, a: FatArea, g: Geometry, name: ShortName, o: Outcome)
    requires WroteFile(s, s', a, g, Run(1), name, true, [], Zeros(HUGE), o) && ProperName(name)
             && g == Geometry(513, 128)
    ensures AllOnDevice(s', SectorList(g, o.dirChain)) && o.q < 16 * |SectorList(g, o.dirChain)|
    ensures EntrySize(EntriesOf(s', SectorList(g, o.dirChain))[o.q]) == 0 && |o.chain| == 65536
    ensures !GivesBack(s', a, g, o.dirChain, o.q, HUGE, Zeros(HUGE))
  {
    FoundAgain(s, s', a, g, Run(1), name, true, [], Zeros(HUGE), o);
    ReadsBack(s, s', a, g, Run(1), name, true, [], Zeros(HUGE), o, HUGE);
    HugeCount(g);
    assert HUGE % U32 == 0;
  }
}
