/**
  Writing a file on a FAT32 volume: an entry is found or made in the directory, which may grow by
  a cluster, the content is stored, and the entry is written last. Of a directory, as of the file
  that is replaced, at most 1024 clusters are read.
 */
module Fat32Files {
  import opened Bytes
  import opened SectorCopy
  import opened BlockCache
  import opened Fat32Table
  import opened Fat32Alloc
  import opened Fat32Streams
  import opened Fat32Directory
  import opened Fat32Storing

  // ---- The entry is written last ------------------------------------------------------------------------------

  /** Clusters of the new chain are not in a chain apart from the old one. */
  lemma NewApart(t: seq<nat>, t': seq<nat>, old_: seq<nat>, new_: seq<nat>, other: seq<nat>)
    requires Resized(t, t', old_, new_) && Linked(t, other) && Apart(old_, other)
    ensures Apart(new_, other) && Linked(t', other) && (StrictChain(t, other) ==> StrictChain(t', other))
  {
    forall i | 0 <= i < |new_| ensures new_[i] !in other {
      if i < |old_| {
        assert new_[i] == old_[i];
      } else {
        forall k | 0 <= k < |other| ensures other[k] != new_[i] { ChainInUse(t, other, k); }
      }
    }
    ApartBothWays(old_, other);
    ApartBothWays(new_, other);
    assert forall k :: 0 <= k < |other| ==> t'[other[k]] == t[other[k]];
  }

  /** Data sectors outside the two chains are as before. */
  ghost predicate OnlyChains(s: seq<Sector>, s': seq<Sector>, a: FatArea, g: Geometry, c: seq<nat>, d: seq<nat>) {
    && |s'| == |s|
    && forall lba ::
         0 <= lba < |s| && !(a.start <= lba < CopyStart(a, Copies(a)))
         && lba !in SectorList(g, c) && lba !in SectorList(g, d) ==>
           s'[lba] == s[lba]
  }

  /** The file is stored and its entry is entry number `q` of the directory; the other entries are as before. */
  ghost predicate FileStored(s: seq<Sector>, s': seq<Sector>, a: FatArea, g: Geometry, dirChain: seq<nat>, q: nat,
                             e: DirEntry,
                             old_: seq<nat>, new_: seq<nat>, content: seq<Byte>) {
    && Sane(s, a, g) && Sane(s', a, g) && Resized(Links(s, a), Links(s', a), old_, new_)
    && |new_| == ClusterCount(g, |content|) && HoldsContent(s', SectorList(g, new_), content)
    && Linked(Links(s', a), dirChain) && AllOnDevice(s, SectorList(g, dirChain))
      && AllOnDevice(s', SectorList(g, dirChain)) && q < 16 * |SectorList(g, dirChain)|
    && EntriesOf(s', SectorList(g, dirChain)) == EntriesOf(s, SectorList(g, dirChain))[q := e]
    && OnlyChains(s, s', a, g, new_, dirChain)
  }

  /** Storing the content leaves the directory alone. */
  lemma DirectoryKept(s: seq<Sector>, s1: seq<Sector>, a: FatArea, g: Geometry, dirChain: seq<nat>, old_: seq<nat>,
                      new_: seq<nat>, content: seq<Byte>)
    requires StreamStored(s, s1, a, g, old_, new_, content) && Linked(Links(s, a), dirChain) && Apart(old_, dirChain)
             && AllOnDevice(s, SectorList(g, dirChain))
    ensures Linked(Links(s1, a), dirChain) && Distinct(SectorList(g, dirChain))
            && Apart(SectorList(g, new_), SectorList(g, dirChain))
    ensures forall p :: 0 <= p < |SectorList(g, dirChain)| ==>
              s1[SectorList(g, dirChain)[p]] == s[SectorList(g, dirChain)[p]]
              && SectorList(g, dirChain)[p] >= g.dataStart
  {
    NewApart(Links(s, a), Links(s1, a), old_, new_, dirChain);
    SectorsDistinct(g, dirChain);
    forall p | 0 <= p < |SectorList(g, dirChain)| ensures SectorList(g, dirChain)[p] >= g.dataStart {
      ChainOnData(g, dirChain, p);
    }
    SectorsApart(g, new_, dirChain);
    ApartBothWays(SectorList(g, new_), SectorList(g, dirChain));
  }

  lemma EntryStored(s: seq<Sector>, s1: seq<Sector>, a: FatArea, g: Geometry, dirChain: seq<nat>, p: nat, i: nat,
                    e: DirEntry,
                    old_: seq<nat>, new_: seq<nat>, content: seq<Byte>, s': seq<Sector>)
    requires StreamStored(s, s1, a, g, old_, new_, content) && Linked(Links(s, a), dirChain) && Apart(old_, dirChain)
             && AllOnDevice(s, SectorList(g, dirChain))
    requires p < |SectorList(g, dirChain)| && i < 16 && SectorList(g, dirChain)[p] < |s1|
    requires s' == s1[SectorList(g, dirChain)[p] := SectorWith(s1[SectorList(g, dirChain)[p]], i, e)]
    ensures FileStored(s, s', a, g, dirChain, 16 * p + i, e, old_, new_, content)
  {
    DirectoryKept(s, s1, a, g, dirChain, old_, new_, content);
    var lbas := SectorList(g, dirChain);
    EntriesLocal(s, s1, lbas);
    OneEntryChanged(s1, lbas, p, i, e);
    LinksLocal(s1, s', a);
    ContentKept(s1, s', SectorList(g, new_), content, lbas, p);
  }

  lemma ContentKept(s: seq<Sector>, s': seq<Sector>, lbas: seq<nat>, content: seq<Byte>, dirLbas: seq<nat>, p: nat)
    requires HoldsContent(s, lbas, content) && Apart(lbas, dirLbas) && p < |dirLbas| && |s'| == |s|
    requires forall lba :: 0 <= lba < |s| && lba != dirLbas[p] ==> s'[lba] == s[lba]
    ensures HoldsContent(s', lbas, content)
  {
    forall k | 0 <= k < |lbas| ensures s'[lbas[k]] == ContentSector(content, k) { assert lbas[k] !in dirLbas; }
  }

  /** The sector of a slot. */
  method ReadSlot(disk: FatDisk, g: Geometry, dirChain: seq<nat>, slot: Slot) returns (lba: nat, sector: Sector)
    requires SlotIn(g, |dirChain|, slot) && AllOnDevice(disk.sectors, SectorList(g, dirChain))
    ensures Position(g, slot.ci, slot.sec) < |SectorList(g, dirChain)|
            && lba == SectorList(g, dirChain)[Position(g, slot.ci, slot.sec)]
    ensures lba < |disk.sectors| && sector == disk.sectors[lba] && SlotNumber(g, slot) < 16 * |SectorList(g, dirChain)|
    ensures EntriesOf(disk.sectors, SectorList(g, dirChain))[SlotNumber(g, slot)] == EntryIn(sector, slot.i)
  {
    SectorAt(g, dirChain, slot.ci, slot.sec);
    lba := ClusterToLba(g, dirChain[slot.ci]) + slot.sec;
    sector := disk.sectors[lba];
    EntryNumber(disk.sectors, SectorList(g, dirChain), Position(g, slot.ci, slot.sec), slot.i);
  }

  /** The old chain of the file whose entry stands at the slot. */
  ghost predicate SlotChain(s: seq<Sector>, a: FatArea, g: Geometry, dirChain: seq<nat>, q: nat, isNew: bool,
                            old_: seq<nat>) {
    && Sane(s, a, g) && Linked(Links(s, a), dirChain) && AllOnDevice(s, SectorList(g, dirChain))
      && q < 16 * |SectorList(g, dirChain)|
    && Apart(old_, dirChain)
    && ChainOf(Links(s, a), if isNew then 0 else EntryCluster(EntriesOf(s, SectorList(g, dirChain))[q]), old_)
  }

  /** The part after the slot has been chosen came to its end. */
  ghost predicate Finished(s: seq<Sector>, s': seq<Sector>, a: FatArea, g: Geometry, dirChain: seq<nat>, q: nat,
                           isNew: bool, name: ShortName,
                           old_: seq<nat>, content: seq<Byte>, failed: Option<FatError>, new_: seq<nat>,
                           got: seq<nat>) {
    && Untouched(s, s', a, g, old_ + dirChain, got) && AllOnDevice(s, SectorList(g, dirChain))
      && q < 16 * |SectorList(g, dirChain)|
    && (failed.None? ==>
        FileStored(s, s', a, g, dirChain, q,
            NewEntry(EntriesOf(s, SectorList(g, dirChain))[q], isNew, name, FirstOf(new_), |content|),
                   KeptOf(old_, ClusterCount(g, |content|)), new_, content))
  }

  /** Content, then entry. */
  method FinishWrite(fs: Fat32, dirChain: seq<nat>, slot: Slot, isNew: bool, name: ShortName, content: seq<Byte>,
                     progress: Call -> bool, before: nat,
                     ghost old_: seq<nat>)
    returns (failed: Option<FatError>, ghost new_: seq<nat>, ghost got: seq<nat>)
    requires fs.Valid() && SlotIn(fs.g, |dirChain|, slot)
    requires SlotChain(fs.disk.sectors, fs.disk.area, fs.g, dirChain, SlotNumber(fs.g, slot), isNew, old_)
    modifies fs, fs.disk
    ensures fs.Valid()
    ensures failed
         == StoreError(|old(fs.disk.sectors)|, old(fs.T()), old(fs.hint), fs.g, old_, |content|, progress, before)
    ensures Finished(old(fs.disk.sectors), fs.disk.sectors, fs.disk.area, fs.g, dirChain, SlotNumber(fs.g, slot), isNew,
            name, old_, content, failed, new_, got)
  {
    ghost var s, p := fs.disk.sectors, Position(fs.g, slot.ci, slot.sec);
    var lba, sector := ReadSlot(fs.disk, fs.g, dirChain, slot);
    var entry := EntryIn(sector, slot.i);
    var oldCluster := if isNew then 0 else EntryCluster(entry);
    var first;
    first, new_, got := StoreContent(fs, oldCluster, content, progress, before, old_);
    ghost var s1 := fs.disk.sectors;
    UntouchedMore(s, s1, fs.disk.area, fs.g, old_, got, old_ + dirChain);
    if first.Err? { return Some(first.error), new_, got; }
    var e := NewEntry(entry, isNew, name, first.value, |content|);
    KeptApart(old_, ClusterCount(fs.g, |content|), dirChain);
    PutEntry(fs, dirChain, p, lba, sector, slot.i, e, s, KeptOf(old_, ClusterCount(fs.g, |content|)), new_, content,
        old_, got);
    return None, new_, got;
  }

  lemma KeptApart(old_: seq<nat>, count: nat, other: seq<nat>)
    requires Apart(old_, other)
    ensures Apart(KeptOf(old_, count), other)
  {
  }

  lemma OneSectorOnly(s: seq<Sector>, s': seq<Sector>, a: FatArea, g: Geometry, chain: seq<nat>, p: nat, lba: nat)
    requires p < |SectorList(g, chain)| && lba == SectorList(g, chain)[p] && |s'| == |s|
             && forall l :: 0 <= l < |s| && l != lba ==> s'[l] == s[l]
    ensures OnlyChain(s, s', a, g, chain)
  {
  }

  /** The sector of the slot is written back with the new entry. */
  method PutEntry(fs: Fat32, ghost dirChain: seq<nat>, ghost p: nat, lba: nat, sector: Sector, i: nat, e: DirEntry,
                  ghost s: seq<Sector>, ghost old_: seq<nat>, ghost new_: seq<nat>, ghost content: seq<Byte>,
                  ghost mine: seq<nat>, ghost got: seq<nat>)
    requires fs.Valid() && Untouched(s, fs.disk.sectors, fs.disk.area, fs.g, mine + dirChain, got)
    requires StreamStored(s, fs.disk.sectors, fs.disk.area, fs.g, old_, new_, content)
             && Linked(Links(s, fs.disk.area), dirChain) && Apart(old_, dirChain)
    requires AllOnDevice(s, SectorList(fs.g, dirChain))
    requires p < |SectorList(fs.g, dirChain)| && i < 16 && lba == SectorList(fs.g, dirChain)[p] < |s|
             && sector == s[lba]
    modifies fs.disk
    ensures fs.Valid() && Untouched(s, fs.disk.sectors, fs.disk.area, fs.g, mine + dirChain, got)
    ensures FileStored(s, fs.disk.sectors, fs.disk.area, fs.g, dirChain, 16 * p + i, e, old_, new_, content)
  {
    ghost var s1 := fs.disk.sectors;
    DirectoryKept(s, s1, fs.disk.area, fs.g, dirChain, old_, new_, content);
    EntryStored(s, s1, fs.disk.area, fs.g, dirChain, p, i, e, old_, new_, content, s1[lba := SectorWith(sector, i, e)]);
    fs.disk.sectors := fs.disk.sectors[lba := SectorWith(sector, i, e)];
    LinksLocal(s1, fs.disk.sectors, fs.disk.area);
    OneSectorOnly(s1, fs.disk.sectors, fs.disk.area, fs.g, dirChain, p, lba);
    DataTouched(s, s1, fs.disk.sectors, fs.disk.area, fs.g, mine + dirChain, got, dirChain);
  }

  // ---- A full directory grows -----------------------------------------------------------------------------------

  function EmptyEntries(n: nat): (es: seq<DirEntry>)
    ensures |es| == n && forall i :: 0 <= i < n ==> es[i] == EMPTY_ENTRY
  {
    seq(n, i requires 0 <= i < n => EMPTY_ENTRY)
  }

  const EMPTY_ENTRY: DirEntry := Zeros(32)

  /** The directory has one more cluster, all empty entries; nothing else has changed. */
  ghost predicate DirectoryGrown(s: seq<Sector>, s': seq<Sector>, a: FatArea, g: Geometry, dirChain: seq<nat>, c: nat) {
    && Sane(s, a, g) && Sane(s', a, g) && Longer(Links(s, a), Links(s', a), dirChain, dirChain + [c])
      && OnlyChain(s, s', a, g, [c])
    && AllOnDevice(s, SectorList(g, dirChain)) && AllOnDevice(s', SectorList(g, dirChain + [c]))
    && EntriesOf(s', SectorList(g, dirChain + [c]))
      == EntriesOf(s, SectorList(g, dirChain)) + EmptyEntries(16 * g.sectorsPerCluster)
  }

  lemma ZeroSectorEntry(i: nat)
    requires i < 16
    ensures EntryIn(ContentSector([], 0), i) == EMPTY_ENTRY
  {
    forall j | 0 <= j < 32 ensures EntryIn(ContentSector([], 0), i)[j] == EMPTY_ENTRY[j] {
      assert EntryIn(ContentSector([], 0), i)[j] == ContentSector([], 0)[32 * i + j];
    }
  }

  lemma ListOfOneMore(g: Geometry, chain: seq<nat>, c: nat)
    ensures SectorList(g, chain + [c]) == SectorList(g, chain) + SectorList(g, [c])
  {
    assert (chain + [c])[..|chain|] == chain;
    assert [c][..0] == [];
    assert SectorList(g, [c]) == SectorList(g, []) + ClusterSectors(g, c);
  }

  lemma GrownEntries(s: seq<Sector>, s': seq<Sector>, lbas: seq<nat>, more: seq<nat>)
    requires AllOnDevice(s, lbas) && AllOnDevice(s', more) && |s'| == |s|
    requires (forall p :: 0 <= p < |lbas| ==> s'[lbas[p]] == s[lbas[p]])
             && (forall p :: 0 <= p < |more| ==> s'[more[p]] == ContentSector([], p))
    ensures AllOnDevice(s', lbas + more) && EntriesOf(s', lbas + more) == EntriesOf(s, lbas) + EmptyEntries(16 * |more|)
  {
    var es, es' := EntriesOf(s, lbas) + EmptyEntries(16 * |more|), EntriesOf(s', lbas + more);
    forall q | 0 <= q < 16 * |lbas + more| ensures es'[q] == es[q] {
      if q / 16 < |lbas| {
        assert (lbas + more)[q / 16] == lbas[q / 16];
      } else {
        assert (lbas + more)[q / 16] == more[q / 16 - |lbas|];
        assert ContentSector([], q / 16 - |lbas|) == ContentSector([], 0);
        ZeroSectorEntry(q % 16);
      }
    }
  }

  /** Zeroing the new cluster leaves the directory's old sectors alone. */
  lemma OldSectorsKept(s: seq<Sector>, mid: seq<Sector>, s': seq<Sector>, a: FatArea, g: Geometry, dirChain: seq<nat>,
                       c: nat)
    requires DataFits(s, a, g) && DataSame(s, mid, a) && Linked(Links(s, a), dirChain) && c !in dirChain && c >= 2
             && AllOnDevice(s, SectorList(g, dirChain))
    requires StreamWritten(mid, s', SectorList(g, [c]), [], |SectorList(g, [c])|)
    ensures forall p :: 0 <= p < |SectorList(g, dirChain)| ==>
              s'[SectorList(g, dirChain)[p]] == s[SectorList(g, dirChain)[p]]
  {
    forall p | 0 <= p < |SectorList(g, dirChain)| ensures SectorList(g, dirChain)[p] >= g.dataStart {
      ChainOnData(g, dirChain, p);
    }
    SectorsApart(g, dirChain, [c]);
  }

  lemma FreshCluster(t: seq<nat>, t': seq<nat>, chain: seq<nat>, c: nat)
    requires Linked(t, chain) && Longer(t, t', chain, chain + [c])
    ensures c !in chain && c >= 2
  {
    assert (chain + [c])[|chain|] == c;
    forall i | 0 <= i < |chain| ensures chain[i] != c { assert (chain + [c])[i] == chain[i]; }
  }

  lemma GrownDirectory(s: seq<Sector>, mid: seq<Sector>, s': seq<Sector>, a: FatArea, g: Geometry, dirChain: seq<nat>,
                       c: nat)
    requires Sane(s, a, g) && Sane(s', a, g) && DataSame(s, mid, a) && Fits(mid, a) && Links(s', a) == Links(mid, a)
             && AllOnDevice(s, SectorList(g, dirChain))
    requires Linked(Links(s, a), dirChain) && Longer(Links(s, a), Links(mid, a), dirChain, dirChain + [c])
    requires StreamWritten(mid, s', SectorList(g, [c]), [], |SectorList(g, [c])|)
    ensures DirectoryGrown(s, s', a, g, dirChain, c)
  {
    FreshCluster(Links(s, a), Links(mid, a), dirChain, c);
    OldSectorsKept(s, mid, s', a, g, dirChain, c);
    ListOfOneMore(g, dirChain, c);
    assert |SectorList(g, [c])| == g.sectorsPerCluster by {
      assert SectorsOf(g, 1) == SectorsOf(g, 0) + g.sectorsPerCluster;
    }
    GrownEntries(s, s', SectorList(g, dirChain), SectorList(g, [c]));
  }

  /** The first free cluster has been linked behind the directory; links and data elsewhere are as before. */
  ghost predicate GrowLinked(s: seq<Sector>, s': seq<Sector>, a: FatArea, g: Geometry, hint: nat, dirChain: seq<nat>,
                             c: nat) {
    && Untouched(s, s', a, g, dirChain, [c]) && FirstFree(Links(s, a), hint) == Some(c)
    && Links(s', a) == LinkedBehind(Links(s, a), dirChain, c) && StrictChain(Links(s', a), dirChain + [c])
  }

  /**
    How growing the directory ends. Once a cluster has been found it stays linked behind the
    directory, zeroed or not.
   */
  ghost predicate GrowEnd(s: seq<Sector>, s': seq<Sector>, a: FatArea, g: Geometry, hint: nat, dirChain: seq<nat>,
                          r: Result<nat>, got: seq<nat>) {
    if Sane(s, a, g) && FirstFree(Links(s, a), hint).Some? then
      var c := FirstFree(Links(s, a), hint).value;
      && got == [c] && GrowLinked(s, s', a, g, hint, dirChain, c)
      && (r.Ok? ==> r.value == c && DirectoryGrown(s, s', a, g, dirChain, c))
    else Sane(s, a, g) && r.Err? && s' == s && got == []
  }

  function AskedToZero(progress: Call -> bool, before: nat): (ask: nat -> bool) {
    (k: nat) => (before + k + 1) % 32 != 0 || progress(Zeroed(k))
  }

  /** A sector is zeroed without a question unless it is step number 32, 64, 96 and so on. */
  lemma ZeroAsked(progress: Call -> bool, before: nat, k: nat, m: nat, rest: nat)
    requires before + k + 1 == 32 * m + rest && rest < 32
    ensures AskedToZero(progress, before)(k) <==> rest != 0 || progress(Zeroed(k))
  {
  }

  /** What stops the directory from growing. */
  function GrowError(device: nat, t: seq<nat>, hint: nat, g: Geometry, progress: Call -> bool,
                     before: nat): (e: Option<FatError>) {
    var c := FirstFree(t, hint);
    if c.None? then Some(NoFreeClusters)
    else StopFrom(device, SectorList(g, [c.value]), AskedToZero(progress, before), 0)
  }

  /** A cluster of empty entries is linked behind the directory. */
  method GrowDirectory(fs: Fat32, dirChain: seq<nat>, progress: Call -> bool, before: nat)
    returns (r: Result<nat>, ghost got: seq<nat>)
    requires fs.Valid() && Linked(fs.T(), dirChain) && |dirChain| > 0
             && AllOnDevice(fs.disk.sectors, SectorList(fs.g, dirChain))
    modifies fs, fs.disk
    ensures fs.Valid()
    ensures ErrorOf(r) == GrowError(|old(fs.disk.sectors)|, old(fs.T()), old(fs.hint), fs.g, progress, before)
    ensures GrowEnd(old(fs.disk.sectors), fs.disk.sectors, fs.disk.area, fs.g, old(fs.hint), dirChain, r, got)
    ensures r.Ok? ==> fs.hint == NextHint(old(fs.T()), r.value)
  {
    ghost var s, h := fs.disk.sectors, fs.hint;
    var more := LinkCluster(fs, dirChain);
    if more.None? { return Err(NoFreeClusters), []; }
    var c := more.value;
    ClusterLinked(s, fs.disk.sectors, fs.disk.area, fs.g, h, dirChain, c);
    got := [c];
    r := ZeroCluster(fs, dirChain, c, progress, before, s, h);
  }

  lemma ClusterLinked(s: seq<Sector>, s': seq<Sector>, a: FatArea, g: Geometry, hint: nat, dirChain: seq<nat>, c: nat)
    requires Sane(s, a, g) && Sane(s', a, g) && DataSame(s, s', a) && FirstFree(Links(s, a), hint) == Some(c)
    requires Links(s', a) == LinkedBehind(Links(s, a), dirChain, c) && StrictChain(Links(s', a), dirChain + [c])
             && Longer(Links(s, a), Links(s', a), dirChain, dirChain + [c])
    ensures GrowLinked(s, s', a, g, hint, dirChain, c)
  {
    LongerFrame(Links(s, a), Links(s', a), dirChain, dirChain, dirChain + [c]);
    OnlyTheNew(Links(s, a), Links(s', a), dirChain, c);
    LinksTouched(s, s', a, g, dirChain, [c]);
  }

  /** The new cluster is filled with zeros. */
  method ZeroCluster(fs: Fat32, ghost dirChain: seq<nat>, c: nat, progress: Call -> bool, before: nat,
                     ghost s: seq<Sector>, ghost h: nat)
    returns (r: Result<nat>)
    requires fs.Valid() && Linked(fs.T(), [c]) && DataSame(s, fs.disk.sectors, fs.disk.area)
    requires GrowLinked(s, fs.disk.sectors, fs.disk.area, fs.g, h, dirChain, c)
             && Longer(Links(s, fs.disk.area), fs.T(), dirChain, dirChain + [c])
    requires Linked(Links(s, fs.disk.area), dirChain) && AllOnDevice(s, SectorList(fs.g, dirChain))
    modifies fs.disk
    ensures fs.Valid() && GrowLinked(s, fs.disk.sectors, fs.disk.area, fs.g, h, dirChain, c)
    ensures ErrorOf(r) == StopFrom(|s|, SectorList(fs.g, [c]), AskedToZero(progress, before), 0)
    ensures r.Ok? ==> r.value == c && DirectoryGrown(s, fs.disk.sectors, fs.disk.area, fs.g, dirChain, c)
  {
    ghost var mid := fs.disk.sectors;
    var written; ghost var done;
    written, done := WriteStream(fs, [c], [], AskedToZero(progress, before));
    WrittenOnly(mid, fs.disk.sectors, fs.disk.area, fs.g, [c], [], done);
    DataTouched(s, mid, fs.disk.sectors, fs.disk.area, fs.g, dirChain, [c], [c]);
    if written.Err? { return Err(written.error); }
    GrownDirectory(s, mid, fs.disk.sectors, fs.disk.area, fs.g, dirChain, c);
    return Ok(c);
  }

  lemma OnlyTheNew(t: seq<nat>, t': seq<nat>, dirChain: seq<nat>, c: nat)
    requires LinkFrame(t, t', dirChain, dirChain + [c])
    ensures LinkFrame(t, t', dirChain, [c])
  {
    assert (dirChain + [c])[|dirChain|] == c;
  }

  method LinkCluster(fs: Fat32, dirChain: seq<nat>) returns (r: Option<nat>)
    requires fs.Valid() && Linked(fs.T(), dirChain) && |dirChain| > 0
    modifies fs, fs.disk
    ensures fs.Valid() && DataSame(old(fs.disk.sectors), fs.disk.sectors, fs.disk.area)
    ensures r == FirstFree(old(fs.T()), old(fs.hint))
    ensures r.Some? ==>
              && fs.T() == LinkedBehind(old(fs.T()), dirChain, r.value) && fs.hint == NextHint(old(fs.T()), r.value)
              && Longer(old(fs.T()), fs.T(), dirChain, dirChain + [r.value])
              && StrictChain(fs.T(), dirChain + [r.value]) && Linked(fs.T(), [r.value])
    ensures r.None? ==> fs.disk.sectors == old(fs.disk.sectors)
  {
    ghost var s, t := fs.disk.sectors, fs.T();
    var found := fs.FindFreeCluster();
    if found.None? { return None; }
    var c: nat, last: nat := found.value, dirChain[|dirChain| - 1];
    LongerItself(t, dirChain);
    LongerStep(t, t, dirChain, dirChain, c);
    fs.Link(c, FAT32_EOC);
    ghost var mid := fs.disk.sectors;
    fs.Link(last, c);
    DataSameTwice(s, mid, fs.disk.sectors, fs.disk.area);
    ChainInUse(t, dirChain, |dirChain| - 1);
    ghost var linked: seq<nat> := t[last := c];
    assert fs.T() == linked[c := FAT32_EOC];
    return Some(c);
  }

  // ---- The operation ---------------------------------------------------------------------------------------------

  /** The chain of the file that is replaced, if there is one: what the entry found by the scan refers to. */
  ghost predicate OldChain(s: seq<Sector>, a: FatArea, g: Geometry, dirChain: seq<nat>, name: ShortName, strict: bool,
                           old_: seq<nat>)
    requires Fits(s, a) && AllOnDevice(s, SectorList(g, dirChain))
  {
    var es := EntriesOf(s, SectorList(g, dirChain));
    var scan := ScanFrom(es, name, strict, 0, None);
    ChainOf(Links(s, a), if scan.Existing? && scan.q < |es| then EntryCluster(es[scan.q]) else 0, old_)
  }

  /** The directory the entry goes to: the one there was, or that one grown by a cluster. */
  ghost predicate Base(s: seq<Sector>, mid: seq<Sector>, a: FatArea, g: Geometry, dirChain: seq<nat>,
                       dirChain': seq<nat>) {
    || (mid == s && dirChain' == dirChain)
    || (|dirChain'| == |dirChain| + 1 && dirChain' == dirChain + [dirChain'[|dirChain|]]
      && DirectoryGrown(s, mid, a, g, dirChain, dirChain'[|dirChain|]))
  }

  /** What the operation found or made room for, and what it left behind. */
  datatype Outcome = Outcome(mid: seq<Sector>, dirChain: seq<nat>, q: nat, isNew: bool, chain: seq<nat>)

  /** The entry goes where the scan says: to the file of the name, to the first free entry, or behind the last one. */
  ghost predicate Place(es: seq<DirEntry>, name: ShortName, strict: bool, dirChain: seq<nat>, o: Outcome) {
    match ScanFrom(es, name, strict, 0, None)
    case Existing(q) => o.q == q && !o.isNew && o.dirChain == dirChain
    case FreeSlot(q) => o.q == q && o.isNew && o.dirChain == dirChain
    case Full => o.q == |es| && o.isNew && |o.dirChain| == |dirChain| + 1
    case _ => false
  }

  ghost predicate WroteFile(s: seq<Sector>, s': seq<Sector>, a: FatArea, g: Geometry, dirChain: seq<nat>,
                            name: ShortName, strict: bool,
                            old_: seq<nat>, content: seq<Byte>, o: Outcome) {
    && Sane(s, a, g) && AllOnDevice(s, SectorList(g, dirChain))
      && Place(EntriesOf(s, SectorList(g, dirChain)), name, strict, dirChain, o)
    && Base(s, o.mid, a, g, dirChain, o.dirChain) && AllOnDevice(o.mid, SectorList(g, o.dirChain))
      && o.q < 16 * |SectorList(g, o.dirChain)|
    && FileStored(o.mid, s', a, g, o.dirChain, o.q,
                  NewEntry(EntriesOf(o.mid, SectorList(g, o.dirChain))[o.q], o.isNew, name, FirstOf(o.chain),
                      |content|),
                  KeptOf(old_, ClusterCount(g, |content|)), o.chain, content)
  }

  /** What stops a file from being written when the directory is full. */
  ghost function FullError(device: nat, t: seq<nat>, hint: nat, g: Geometry, dirChain: seq<nat>, length: nat,
                           progress: Call -> bool, before: nat): (e: Option<FatError>)
    requires g.sectorsPerCluster > 0
  {
    var e, c := GrowError(device, t, hint, g, progress, before), FirstFree(t, hint);
    if e.Some? || c.None? then e
    else GrownError(device, LinkedBehind(t, dirChain, c.value), NextHint(t, c.value), g, |dirChain|, length, progress,
        before + g.sectorsPerCluster)
  }

  /** And when it has grown: it is read again, within the limit, and the file goes to the cluster read last. */
  ghost function GrownError(device: nat, t: seq<nat>, hint: nat, g: Geometry, dirLength: nat, length: nat,
                            progress: Call -> bool, before: nat): (e: Option<FatError>)
    requires g.sectorsPerCluster > 0
  {
    if dirLength >= OLD_LIMIT then Some(DirectoryChain)
    else StoreError(device, t, hint, g, [], length, progress, before)
  }

  /**
    What stops a file from being written, told from the state before: the entries of the directory,
    the table, where the search for free clusters starts, the size of the device and the answers of
    the callback to the calls that are made.
   */
  ghost function FileError(device: nat, t: seq<nat>, hint: nat, g: Geometry, dirChain: seq<nat>, es: seq<DirEntry>,
                           name: ShortName, strict: bool, old_: seq<nat>, length: nat,
                           progress: Call -> bool): (e: Option<FatError>)
    requires g.sectorsPerCluster > 0
  {
    var n := SectorsScanned(es, name);
    if !LetScan(progress, n) then Some(Refused)
    else match ScanFrom(es, name, strict, 0, None)
      case TargetIsDirectory => Some(IsDirectory)
      case TargetExists => Some(Exists)
      case Full => FullError(device, t, hint, g, dirChain, length, progress, n)
      case _ => StoreError(device, t, hint, g, old_, length, progress, n)
  }

  /** The scan of the directory was refused, or the name is taken: nothing is written. */
  ghost predicate Blocked(es: seq<DirEntry>, name: ShortName, strict: bool, progress: Call -> bool) {
    || !LetScan(progress, SectorsScanned(es, name))
    || ScanFrom(es, name, strict, 0, None) in {TargetIsDirectory, TargetExists}
  }

  /** The directory was longer than what is read of it: it has been cut there, and got the first free cluster. */
  ghost predicate CutThere(t: seq<nat>, t': seq<nat>, hint: nat, dirChain: seq<nat>) {
    FirstFree(t, hint).Some? && |dirChain| >= OLD_LIMIT
        && t' == LinkedBehind(t, dirChain, FirstFree(t, hint).value)
  }

  /**
    How writing the file ends before the last call of the callback; `dirChain` is as much of the
    directory as is read.
   */
  ghost predicate FileEnd(s: seq<Sector>, s': seq<Sector>, a: FatArea, g: Geometry, hint: nat, dirChain: seq<nat>,
                          name: ShortName, strict: bool,
                          old_: seq<nat>, content: seq<Byte>, failed: Option<FatError>, o: Outcome, got: seq<nat>) {
    && Untouched(s, s', a, g, old_ + dirChain, got) && AllOnDevice(s, SectorList(g, dirChain))
    && (failed.None? ==> WroteFile(s, s', a, g, dirChain, name, strict, old_, content, o))
    && (failed == Some(DirectoryChain) ==> CutThere(Links(s, a), Links(s', a), hint, dirChain))
  }

  /** A slot of the directory as it is. */
  method WriteInPlace(fs: Fat32, dirChain: seq<nat>, slot: Slot, isNew: bool, name: ShortName, strict: bool,
                      content: seq<Byte>, progress: Call -> bool,
                      before: nat, ghost old_: seq<nat>)
    returns (failed: Option<FatError>, ghost o: Outcome, ghost got: seq<nat>)
    requires fs.Valid() && SlotIn(fs.g, |dirChain|, slot)
    requires SlotChain(fs.disk.sectors, fs.disk.area, fs.g, dirChain, SlotNumber(fs.g, slot), isNew, old_)
    requires ScanFrom(EntriesOf(fs.disk.sectors, SectorList(fs.g, dirChain)), name, strict, 0, None)
          == if isNew then FreeSlot(SlotNumber(fs.g, slot)) else Existing(SlotNumber(fs.g, slot))
    modifies fs, fs.disk
    ensures fs.Valid()
    ensures failed
         == StoreError(|old(fs.disk.sectors)|, old(fs.T()), old(fs.hint), fs.g, old_, |content|, progress, before)
    ensures FileEnd(old(fs.disk.sectors), fs.disk.sectors, fs.disk.area, fs.g, old(fs.hint), dirChain, name, strict,
            old_, content, failed, o, got)
  {
    ghost var s, t, h, new_ := fs.disk.sectors, fs.T(), fs.hint, [];
    failed, new_, got := FinishWrite(fs, dirChain, slot, isNew, name, content, progress, before, old_);
    o := Outcome(s, dirChain, SlotNumber(fs.g, slot), isNew, new_);
    NotTheDirectory(|s|, t, h, fs.g, old_, |content|, progress, before);
  }

  /** Storing the content does not fail for the directory. */
  lemma NotTheDirectory(device: nat, t: seq<nat>, hint: nat, g: Geometry, old_: seq<nat>, length: nat,
                        progress: Call -> bool, before: nat)
    requires g.sectorsPerCluster > 0
    ensures StoreError(device, t, hint, g, old_, length, progress, before) != Some(DirectoryChain)
  {
    var lbas := SectorList(g, FittedChain(t, hint, old_, ClusterCount(g, length)));
    StopsFor(device, lbas, AskedForData(progress), 0);
  }

  lemma {:induction false} StopsFor(len: nat, lbas: seq<nat>, ask: nat -> bool, p: nat)
    ensures StopFrom(len, lbas, ask, p) in {None, Some(OffDevice), Some(Refused)}
    decreases |lbas| - p
  {
    if p < |lbas| { StopsFor(len, lbas, ask, p + 1); }
  }

  /** A full directory: a cluster is added and its first entry is used. */
  method WriteGrown(fs: Fat32, dirCluster: nat, dirChain: seq<nat>, name: ShortName, strict: bool, content: seq<Byte>,
                    progress: Call -> bool, before: nat)
    returns (failed: Option<FatError>, ghost o: Outcome, ghost got: seq<nat>)
    requires fs.Valid() && Linked(fs.T(), dirChain) && 0 < |dirChain| <= OLD_LIMIT && dirChain[0] == dirCluster
    requires AllOnDevice(fs.disk.sectors, SectorList(fs.g, dirChain))
    requires ScanFrom(EntriesOf(fs.disk.sectors, SectorList(fs.g, dirChain)), name, strict, 0, None) == Full
    modifies fs, fs.disk
    ensures fs.Valid()
    ensures failed
         == FullError(|old(fs.disk.sectors)|, old(fs.T()), old(fs.hint), fs.g, dirChain, |content|, progress, before)
    ensures FileEnd(old(fs.disk.sectors), fs.disk.sectors, fs.disk.area, fs.g, old(fs.hint), dirChain, name, strict, [],
            content, failed, o, got)
  {
    ghost var s, t, h := fs.disk.sectors, fs.T(), fs.hint;
    ghost var e := FullError(|s|, t, h, fs.g, dirChain, |content|, progress, before);
    o := Outcome(s, dirChain, 0, true, []);
    var more;
    more, got := GrowDirectory(fs, dirChain, progress, before);
    if more.Err? {
      GrowIsFile(s, fs.disk.sectors, fs.disk.area, fs.g, h, dirChain, name, strict, content, progress, before, more, o,
          got);
      return Some(more.error), o, got;
    }
    var after := before + fs.g.sectorsPerCluster;
    FullThenGrown(|s|, t, h, fs.g, dirChain, |content|, progress, before, more.value, fs.T(), fs.hint, after);
    assert e == GrownError(|s|, fs.T(), fs.hint, fs.g, |dirChain|, |content|, progress, after);
    failed, o, got := WriteLonger(fs, dirCluster, dirChain, more.value, name, strict, content, progress, after, s, h);
    assert failed == e;
  }

  /** The directory has grown and is read again. */
  method WriteLonger(fs: Fat32, dirCluster: nat, dirChain: seq<nat>, c: nat, name: ShortName, strict: bool,
                     content: seq<Byte>, progress: Call -> bool, before: nat, ghost s: seq<Sector>, ghost h: nat)
    returns (failed: Option<FatError>, ghost o: Outcome, ghost got: seq<nat>)
    requires fs.Valid() && 0 < |dirChain| <= OLD_LIMIT && dirChain[0] == dirCluster
    requires GrowLinked(s, fs.disk.sectors, fs.disk.area, fs.g, h, dirChain, c)
             && DirectoryGrown(s, fs.disk.sectors, fs.disk.area, fs.g, dirChain, c)
    requires ScanFrom(EntriesOf(s, SectorList(fs.g, dirChain)), name, strict, 0, None) == Full
    modifies fs, fs.disk
    ensures fs.Valid()
    ensures failed
         == GrownError(|s|, old(fs.T()), old(fs.hint), fs.g, |dirChain|, |content|, progress, before)
    ensures FileEnd(s, fs.disk.sectors, fs.disk.area, fs.g, h, dirChain, name, strict, [], content, failed, o, got)
  {
    SeenIsRead(fs.T(), dirChain + [c]);
    var read := ReadClusterChain(fs.disk, dirCluster, OLD_LIMIT);
    if |read.value| <= |dirChain| {
      o, got := Outcome(s, dirChain, 0, true, []), [c];
      TooLongToGrow(s, fs.disk.sectors, fs.disk.area, fs.g, h, dirChain, name, strict, content, c, o);
      return Some(DirectoryChain), o, got;
    }
    ReadWhole(dirChain, c, read.value);
    failed, o, got := WriteNewest(fs, read.value, name, strict, content, progress, before, s, h, dirChain, c);
  }

  lemma ReadWhole(dirChain: seq<nat>, c: nat, read: seq<nat>)
    requires read == Seen(dirChain + [c]) && |read| > |dirChain|
    ensures read == dirChain + [c] && |dirChain| < OLD_LIMIT
  {
    assert (dirChain + [c])[..|dirChain| + 1] == dirChain + [c];
  }

  lemma FullThenGrown(device: nat, t: seq<nat>, hint: nat, g: Geometry, dirChain: seq<nat>, length: nat,
                      progress: Call -> bool, before: nat, c: nat, t': seq<nat>, hint': nat, after: nat)
    requires g.sectorsPerCluster > 0 && FirstFree(t, hint) == Some(c)
             && GrowError(device, t, hint, g, progress, before).None?
    requires t' == LinkedBehind(t, dirChain, c) && hint' == NextHint(t, c) && after == before + g.sectorsPerCluster
    ensures FullError(device, t, hint, g, dirChain, length, progress, before)
         == GrownError(device, t', hint', g, |dirChain|, length, progress, after)
  {
  }

  lemma TooLongToGrow(s: seq<Sector>, s': seq<Sector>, a: FatArea, g: Geometry, hint: nat, dirChain: seq<nat>,
                      name: ShortName, strict: bool, content: seq<Byte>, c: nat, o: Outcome)
    requires GrowLinked(s, s', a, g, hint, dirChain, c) && AllOnDevice(s, SectorList(g, dirChain))
             && |dirChain| >= OLD_LIMIT
    ensures FileEnd(s, s', a, g, hint, dirChain, name, strict, [], content, Some(DirectoryChain), o, [c])
  {
    assert [] + dirChain == dirChain;
  }

  lemma GrowIsFile(s: seq<Sector>, s': seq<Sector>, a: FatArea, g: Geometry, hint: nat, dirChain: seq<nat>,
                   name: ShortName, strict: bool,
                   content: seq<Byte>, progress: Call -> bool, before: nat, r: Result<nat>, o: Outcome, got: seq<nat>)
    requires GrowEnd(s, s', a, g, hint, dirChain, r, got) && r.Err? && AllOnDevice(s, SectorList(g, dirChain))
             && ErrorOf(r) == GrowError(|s|, Links(s, a), hint, g, progress, before)
    ensures FileEnd(s, s', a, g, hint, dirChain, name, strict, [], content, Some(r.error), o, got)
  {
    assert [] + dirChain == dirChain;
    var c := FirstFree(Links(s, a), hint);
    if c.None? { NothingTouched(s, a, g, dirChain); }
    if c.Some? { StopsFor(|s|, SectorList(g, [c.value]), AskedToZero(progress, before), 0); }
  }

  /** The entry goes to the first slot of the new cluster. */
  method WriteNewest(fs: Fat32, longer: seq<nat>, name: ShortName, strict: bool, content: seq<Byte>,
                     progress: Call -> bool, before: nat,
                     ghost s: seq<Sector>, ghost h: nat, ghost dirChain: seq<nat>, ghost c: nat)
    returns (failed: Option<FatError>, ghost o: Outcome, ghost got: seq<nat>)
    requires fs.Valid() && Linked(fs.T(), longer) && AllOnDevice(fs.disk.sectors, SectorList(fs.g, longer))
    requires longer == dirChain + [c] && Untouched(s, fs.disk.sectors, fs.disk.area, fs.g, dirChain, [c])
    requires DirectoryGrown(s, fs.disk.sectors, fs.disk.area, fs.g, dirChain, c)
    requires ScanFrom(EntriesOf(s, SectorList(fs.g, dirChain)), name, strict, 0, None) == Full
    modifies fs, fs.disk
    ensures fs.Valid()
    ensures failed
         == StoreError(|old(fs.disk.sectors)|, old(fs.T()), old(fs.hint), fs.g, [], |content|, progress, before)
    ensures FileEnd(s, fs.disk.sectors, fs.disk.area, fs.g, h, dirChain, name, strict, [], content, failed, o, got)
  {
    ghost var mid, new_, more := fs.disk.sectors, [], [];
    NotTheDirectory(|mid|, fs.T(), fs.hint, fs.g, [], |content|, progress, before);
    var slot := Slot(|longer| - 1, 0, 0);
    FirstSlot(fs.g, longer, slot);
    NewestSlot(mid, fs.disk.area, fs.g, longer, SlotNumber(fs.g, slot));
    failed, new_, more := FinishWrite(fs, longer, slot, true, name, content, progress, before, []);
    o := Outcome(mid, longer, SlotNumber(fs.g, slot), true, new_);
    got := [c] + more;
    NewestDone(s, mid, fs.disk.sectors, fs.disk.area, fs.g, h, dirChain, c, longer, name, strict, content, failed, o,
        more);
  }

  lemma NewestSlot(mid: seq<Sector>, a: FatArea, g: Geometry, longer: seq<nat>, q: nat)
    requires Sane(mid, a, g) && Linked(Links(mid, a), longer) && AllOnDevice(mid, SectorList(g, longer))
             && q < 16 * |SectorList(g, longer)|
    ensures SlotChain(mid, a, g, longer, q, true, [])
  {
  }

  lemma NewestTouched(s: seq<Sector>, mid: seq<Sector>, s': seq<Sector>, a: FatArea, g: Geometry, dirChain: seq<nat>,
                      c: nat, longer: seq<nat>, more: seq<nat>)
    requires longer == dirChain + [c] && Untouched(s, mid, a, g, dirChain, [c])
             && Untouched(mid, s', a, g, [] + longer, more)
    ensures Untouched(s, s', a, g, [] + dirChain, [c] + more)
  {
    assert [] + longer == longer && [] + dirChain == dirChain;
    UntouchedTwice(s, mid, s', a, g, dirChain, [c], more);
  }

  lemma NewestWritten(s: seq<Sector>, mid: seq<Sector>, s': seq<Sector>, a: FatArea, g: Geometry, dirChain: seq<nat>,
                      c: nat, longer: seq<nat>,
                      name: ShortName, strict: bool, content: seq<Byte>, o: Outcome, more: seq<nat>)
    requires longer == dirChain + [c] && DirectoryGrown(s, mid, a, g, dirChain, c)
    requires ScanFrom(EntriesOf(s, SectorList(g, dirChain)), name, strict, 0, None) == Full
    requires o.mid == mid && o.dirChain == longer && o.isNew && o.q == 16 * SectorsOf(g, |dirChain|)
    requires Finished(mid, s', a, g, longer, o.q, true, name, [], content, None, o.chain, more)
    ensures WroteFile(s, s', a, g, dirChain, name, strict, [], content, o)
  {
    assert o.dirChain[|dirChain|] == c;
    assert Base(s, mid, a, g, dirChain, longer);
  }

  lemma NewestDone(s: seq<Sector>, mid: seq<Sector>, s': seq<Sector>, a: FatArea, g: Geometry, hint: nat,
                   dirChain: seq<nat>, c: nat, longer: seq<nat>,
                   name: ShortName, strict: bool, content: seq<Byte>, failed: Option<FatError>, o: Outcome,
                   more: seq<nat>)
    requires longer == dirChain + [c] && DirectoryGrown(s, mid, a, g, dirChain, c)
             && Untouched(s, mid, a, g, dirChain, [c]) && failed != Some(DirectoryChain)
    requires ScanFrom(EntriesOf(s, SectorList(g, dirChain)), name, strict, 0, None) == Full
    requires o.mid == mid && o.dirChain == longer && o.isNew && o.q == 16 * SectorsOf(g, |dirChain|)
    requires Finished(mid, s', a, g, longer, o.q, true, name, [], content, failed, o.chain, more)
    ensures FileEnd(s, s', a, g, hint, dirChain, name, strict, [], content, failed, o, [c] + more)
  {
    NewestTouched(s, mid, s', a, g, dirChain, c, longer, more);
    if failed.None? { NewestWritten(s, mid, s', a, g, dirChain, c, longer, name, strict, content, o, more); }
  }

  lemma FirstSlot(g: Geometry, chain: seq<nat>, slot: Slot)
    requires |chain| > 0 && g.sectorsPerCluster > 0 && slot == Slot(|chain| - 1, 0, 0)
    ensures SlotIn(g, |chain|, slot)
            && SlotNumber(g, slot) == 16 * SectorsOf(g, |chain| - 1) < 16 * |SectorList(g, chain)|
  {
  }

  /** The entry is found or made room for, and written. */
  method WriteSeen(fs: Fat32, dirCluster: nat, dirChain: seq<nat>, name: ShortName, strict: bool, content: seq<Byte>,
                   progress: Call -> bool, ghost old_: seq<nat>)
    returns (failed: Option<FatError>, ghost o: Outcome, ghost got: seq<nat>)
    requires fs.Valid() && Linked(fs.T(), dirChain) && 0 < |dirChain| <= OLD_LIMIT && dirChain[0] == dirCluster
             && Apart(old_, dirChain)
    requires AllOnDevice(fs.disk.sectors, SectorList(fs.g, dirChain))
             && OldChain(fs.disk.sectors, fs.disk.area, fs.g, dirChain, name, strict, old_)
    modifies fs, fs.disk
    ensures fs.Valid()
    ensures failed
         == FileError(|old(fs.disk.sectors)|, old(fs.T()), old(fs.hint), fs.g, dirChain,
             EntriesOf(old(fs.disk.sectors), SectorList(fs.g, dirChain)), name, strict, old_, |content|, progress)
    ensures FileEnd(old(fs.disk.sectors), fs.disk.sectors, fs.disk.area, fs.g, old(fs.hint), dirChain, name, strict,
            old_, content, failed, o, got)
    ensures Blocked(EntriesOf(old(fs.disk.sectors), SectorList(fs.g, dirChain)), name, strict, progress) ==>
              fs.disk.sectors == old(fs.disk.sectors)
  {
    ghost var s := fs.disk.sectors;
    o, got := Outcome(s, dirChain, 0, true, []), [];
    NothingTouched(s, fs.disk.area, fs.g, old_ + dirChain);
    var found, steps := ScanDirectory(fs.disk, fs.g, dirChain, name, strict, progress);
    ScanMeans(EntriesOf(s, SectorList(fs.g, dirChain)), name, strict, 0, None);
    match found {
      case Interrupted => failed := Some(Refused);
      case AtDirectory => failed := Some(IsDirectory);
      case AtOther => failed := Some(Exists);
      case AtExisting(slot) =>
        failed, o, got := WriteInPlace(fs, dirChain, slot, false, name, strict, content, progress, steps, old_);
      case AtFree(slot) =>
        failed, o, got := WriteInPlace(fs, dirChain, slot, true, name, strict, content, progress, steps, old_);
      case NoSlot => failed, o, got := WriteGrown(fs, dirCluster, dirChain, name, strict, content, progress, steps);
    }
  }

  lemma NothingTouched(s: seq<Sector>, a: FatArea, g: Geometry, mine: seq<nat>)
    requires Sane(s, a, g)
    ensures Untouched(s, s, a, g, mine, [])
  {
  }

  /**
    `write_text_file_in_dir_with_progress`, for a file whose short name is known. `strict` tells
    whether the short name is the file's own or was made up for it. A refusal at the last call comes
    after the file has been written.
   */
  method WriteFile(fs: Fat32, dirCluster: nat, name: ShortName, strict: bool, content: seq<Byte>,
                   progress: Call -> bool,
                   ghost dirChain: seq<nat>, ghost old_: seq<nat>)
    returns (r: Result<()>, ghost stored: bool, ghost o: Outcome, ghost got: seq<nat>)
    requires fs.Valid() && StrictChain(fs.T(), dirChain) && dirChain != [] && dirChain[0] == dirCluster
             && Apart(old_, dirChain)
    requires AllOnDevice(fs.disk.sectors, SectorList(fs.g, Seen(dirChain)))
    requires OldChain(fs.disk.sectors, fs.disk.area, fs.g, Seen(dirChain), name, strict, old_)
    modifies fs, fs.disk
    ensures fs.Valid() && Untouched(old(fs.disk.sectors), fs.disk.sectors, fs.disk.area, fs.g, old_ + dirChain, got)
    ensures stored ==>
              WroteFile(old(fs.disk.sectors), fs.disk.sectors, fs.disk.area, fs.g, Seen(dirChain), name, strict, old_,
              content, o)
    ensures stored ==> r == if progress(AllDone) then Ok(()) else Err(Refused)
    ensures var e := if progress(Start)
                     then FileError(|old(fs.disk.sectors)|, old(fs.T()), old(fs.hint), fs.g, Seen(dirChain),
                            EntriesOf(old(fs.disk.sectors), SectorList(fs.g, Seen(dirChain))), name, strict, old_,
                            |content|, progress)
                     else Some(Refused);
            (stored <==> e.None?) && (!stored ==> ErrorOf(r) == e)
    ensures r == Err(DirectoryChain) ==> CutThere(old(fs.T()), fs.T(), old(fs.hint), Seen(dirChain))
    ensures !progress(Start)
            || Blocked(EntriesOf(old(fs.disk.sectors), SectorList(fs.g, Seen(dirChain))), name, strict, progress) ==>
              fs.disk.sectors == old(fs.disk.sectors)
  {
    ghost var s := fs.disk.sectors;
    stored, o, got := false, Outcome(s, dirChain, 0, true, []), [];
    NothingTouched(s, fs.disk.area, fs.g, old_ + dirChain);
    if !progress(Start) { return Err(Refused), stored, o, got; }
    SeenIsRead(fs.T(), dirChain);
    var read := ReadClusterChain(fs.disk, dirCluster, OLD_LIMIT);
    BeginningLinked(fs.T(), dirChain, |read.value|);
    SeenApart(old_, dirChain);
    var failed;
    failed, o, got := WriteSeen(fs, dirCluster, read.value, name, strict, content, progress, old_);
    UntouchedMore(s, fs.disk.sectors, fs.disk.area, fs.g, old_ + Seen(dirChain), got, old_ + dirChain);
    if failed.Some? { return Err(failed.value), stored, o, got; }
    stored := true;
    r := if progress(AllDone) then Ok(()) else Err(Refused);
  }

  lemma SeenApart(old_: seq<nat>, dirChain: seq<nat>)
    requires Apart(old_, dirChain)
    ensures Apart(old_, Seen(dirChain)) && Among(old_ + Seen(dirChain), old_ + dirChain)
  {
    var all := old_ + dirChain;
    forall i | 0 <= i < |old_ + Seen(dirChain)| ensures (old_ + Seen(dirChain))[i] in all {
      if i < |old_| { assert all[i] == old_[i]; } else { assert all[i] == dirChain[i - |old_|]; }
    }
  }

  // ---- What it means -----------------------------------------------------------------------------------------------

  /**
    The number of clusters in use changes by the difference of the chains, and by one if the
    directory grew, exactly if the whole old chain was reused or freed.
   */
  lemma UsedClusters(s: seq<Sector>, s': seq<Sector>, a: FatArea, g: Geometry, dirChain: seq<nat>, name: ShortName,
                     strict: bool,
                     old_: seq<nat>, content: seq<Byte>, o: Outcome)
    requires WroteFile(s, s', a, g, dirChain, name, strict, old_, content, o)
    ensures var n := ClusterCount(g, |content|);
            Used(Links(s', a)) == Used(Links(s, a)) + n - |old_| + |o.dirChain| - |dirChain| <==>
                  |old_| <= OLD_LIMIT || n < OLD_LIMIT
  {
    UsedExactly(Links(o.mid, a), Links(s', a), old_, o.chain);
  }

  /** Whatever the outcome, a chain apart from the file's old chain and the directory keeps its links and its data. */
  lemma OtherChainsKept(s: seq<Sector>, s': seq<Sector>, a: FatArea, g: Geometry, dirChain: seq<nat>, old_: seq<nat>,
                        got: seq<nat>, other: seq<nat>)
    requires Untouched(s, s', a, g, old_ + dirChain, got) && StrictChain(Links(s, a), old_)
             && StrictChain(Links(s, a), dirChain)
    requires StrictChain(Links(s, a), other) && Apart(old_, other) && Apart(dirChain, other)
    ensures StrictChain(Links(s', a), other)
    ensures forall p :: 0 <= p < |SectorList(g, other)| && SectorList(g, other)[p] < |s| ==>
              s'[SectorList(g, other)[p]] == s[SectorList(g, other)[p]]
  {
    ApartIsKept(s, s', a, g, old_ + dirChain, got, other);
  }

  /** A name that does not look like a free entry, as the names the engine makes do not. */
  predicate ProperName(name: ShortName) { name[0] != 0 && name[0] != DELETED }

  /** What stands before the entry neither ends the directory nor has the name. */
  lemma BeforeTheEntry(es: seq<DirEntry>, name: ShortName, strict: bool, dirChain: seq<nat>, o: Outcome)
    requires Place(es, name, strict, dirChain, o)
    ensures o.q <= |es| && forall j :: 0 <= j < o.q ==> es[j][0] != 0 && !Matches(es[j], name)
  {
    ScanMeans(es, name, strict, 0, None);
    UsedBeforeEnd(es, 0);
    if ScanFrom(es, name, strict, 0, None).FreeSlot? { EndAfterUsed(es, 0, o.q); }
  }

  /** So a scan finds the entry that was put there. */
  lemma ScanAgain(es: seq<DirEntry>, mid: seq<DirEntry>, e: DirEntry, name: ShortName, strict: bool, dirChain: seq<nat>,
                  o: Outcome)
    requires Place(es, name, strict, dirChain, o) && es <= mid && o.q < |mid| && e[..11] == name
             && e[11] == FILE_ATTRIBUTES && ProperName(name)
    ensures ScanFrom(mid[o.q := e], name, true, 0, None) == Existing(o.q)
  {
    BeforeTheEntry(es, name, strict, dirChain, o);
    EntryMatches(e, name);
    ScanFinds(mid[o.q := e], name, 0, None, o.q);
  }

  /** After the write, a scan for the name finds the entry, and the entry says where the content is and how long. */
  lemma FoundAgain(s: seq<Sector>, s': seq<Sector>, a: FatArea, g: Geometry, dirChain: seq<nat>, name: ShortName,
                   strict: bool,
                   old_: seq<nat>, content: seq<Byte>, o: Outcome)
    requires WroteFile(s, s', a, g, dirChain, name, strict, old_, content, o) && ProperName(name)
    ensures AllOnDevice(s', SectorList(g, o.dirChain))
    ensures var es := EntriesOf(s', SectorList(g, o.dirChain));
            && ScanFrom(es, name, true, 0, None) == Existing(o.q) && o.q < |es|
            && EntryCluster(es[o.q]) == FirstOf(o.chain) && EntrySize(es[o.q]) == |content| % U32
  {
    var es, mid := EntriesOf(s, SectorList(g, dirChain)), EntriesOf(o.mid, SectorList(g, o.dirChain));
    var e := NewEntry(mid[o.q], o.isNew, name, FirstOf(o.chain), |content|);
    EntryReads(mid[o.q], o.isNew, name, FirstOf(o.chain), |content|);
    SameBeginning(s, o.mid, a, g, dirChain, o.dirChain);
    ScanAgain(es, mid, e, name, strict, dirChain, o);
  }

  lemma EntryMatches(e: DirEntry, name: ShortName)
    requires e[..11] == name && e[11] == FILE_ATTRIBUTES && ProperName(name)
    ensures Matches(e, name) && !IsDirectoryEntry(e)
  {
    assert e[0] == e[..11][0];
  }

  lemma SameBeginning(s: seq<Sector>, mid: seq<Sector>, a: FatArea, g: Geometry, dirChain: seq<nat>,
                      dirChain': seq<nat>)
    requires Base(s, mid, a, g, dirChain, dirChain') && AllOnDevice(s, SectorList(g, dirChain))
             && AllOnDevice(mid, SectorList(g, dirChain'))
    ensures EntriesOf(s, SectorList(g, dirChain)) <= EntriesOf(mid, SectorList(g, dirChain'))
  {
  }

  /**
    Reading what the entry refers to, as long as it says, gives the content back exactly if the
    length fits the entry's 32 bits and the chain is not longer than what is read of a file.
   */
  lemma ReadsBack(s: seq<Sector>, s': seq<Sector>, a: FatArea, g: Geometry, dirChain: seq<nat>, name: ShortName,
                  strict: bool,
                  old_: seq<nat>, content: seq<Byte>, o: Outcome, bufferLen: nat)
    requires WroteFile(s, s', a, g, dirChain, name, strict, old_, content, o) && ProperName(name)
             && |content| <= bufferLen
    ensures GivesBack(s', a, g, o.dirChain, o.q, bufferLen, content) <==>
              |content| < U32 && ClusterCount(g, |content|) <= READ_LIMIT
  {
    WrittenSays(s, s', a, g, dirChain, name, strict, old_, content, o);
    Size32(|content|);
    ReadsStored(s', a, g, o.dirChain, o.q, o.chain, content, |content| % U32, |content| < U32, bufferLen);
  }

  lemma Size32(n: nat)
    ensures if n < U32 then n % U32 == n else n % U32 < n
  {
  }

  lemma WrittenSays(s: seq<Sector>, s': seq<Sector>, a: FatArea, g: Geometry, dirChain: seq<nat>, name: ShortName,
                    strict: bool,
                    old_: seq<nat>, content: seq<Byte>, o: Outcome)
    requires WroteFile(s, s', a, g, dirChain, name, strict, old_, content, o) && ProperName(name)
    ensures EntrySays(s', g, o.dirChain, o.q, FirstOf(o.chain), |content| % U32)
            && ChainStored(s', a, g, o.chain, content)
  {
    FoundAgain(s, s', a, g, dirChain, name, strict, old_, content, o);
  }

  lemma ReadsStored(s: seq<Sector>, a: FatArea, g: Geometry, dirChain: seq<nat>, q: nat, chain: seq<nat>,
                    content: seq<Byte>,
                    size: nat, fits: bool, bufferLen: nat)
    requires ChainStored(s, a, g, chain, content) && EntrySays(s, g, dirChain, q, FirstOf(chain), size)
             && |content| <= bufferLen
    requires if fits then size == |content| else size < |content|
    ensures GivesBack(s, a, g, dirChain, q, bufferLen, content) <==> fits && |chain| <= READ_LIMIT
  {
    ReadsEntry(s, Links(s, a), g, chain, content, size, fits, bufferLen);
    ReadAsSaid(s, a, g, dirChain, q, FirstOf(chain), size, bufferLen, content);
  }

  ghost predicate ChainStored(s: seq<Sector>, a: FatArea, g: Geometry, chain: seq<nat>, content: seq<Byte>) {
    && Sane(s, a, g) && StrictChain(Links(s, a), chain) && HoldsContent(s, SectorList(g, chain), content)
      && |chain| == ClusterCount(g, |content|)
  }

  ghost predicate EntrySays(s: seq<Sector>, g: Geometry, dirChain: seq<nat>, q: nat, first: nat, size: nat) {
    && AllOnDevice(s, SectorList(g, dirChain)) && q < 16 * |SectorList(g, dirChain)|
    && EntryCluster(EntriesOf(s, SectorList(g, dirChain))[q]) == first
      && EntrySize(EntriesOf(s, SectorList(g, dirChain))[q]) == size
  }

  /** Reading the file of entry number `q` gives the content. */
  ghost predicate GivesBack(s: seq<Sector>, a: FatArea, g: Geometry, dirChain: seq<nat>, q: nat, bufferLen: nat,
                            content: seq<Byte>) {
    && Sane(s, a, g) && AllOnDevice(s, SectorList(g, dirChain)) && q < 16 * |SectorList(g, dirChain)|
    && var e := EntriesOf(s, SectorList(g, dirChain))[q];
       ReadOf(s, Links(s, a), g, EntryCluster(e), EntrySize(e), bufferLen) == Some(content)
  }

  lemma ReadAsSaid(s: seq<Sector>, a: FatArea, g: Geometry, dirChain: seq<nat>, q: nat, first: nat, size: nat,
                   bufferLen: nat, content: seq<Byte>)
    requires Sane(s, a, g) && EntrySays(s, g, dirChain, q, first, size)
    ensures GivesBack(s, a, g, dirChain, q, bufferLen, content) <==>
              ReadOf(s, Links(s, a), g, first, size, bufferLen) == Some(content)
  {
  }

  /** `size` is what the entry says, and `fits` whether that is the length. */
  lemma ReadsEntry(s: seq<Sector>, t: seq<nat>, g: Geometry, chain: seq<nat>, content: seq<Byte>, size: nat, fits: bool,
                   bufferLen: nat)
    requires (if fits then size == |content| else size < |content|) && g.sectorsPerCluster > 0 && StrictChain(t, chain)
             && HoldsContent(s, SectorList(g, chain), content)
    requires |chain| == ClusterCount(g, |content|) && |content| <= bufferLen
    ensures ReadOf(s, t, g, FirstOf(chain), size, bufferLen) == Some(content) <==> fits && |chain| <= READ_LIMIT
  {
    if !fits {
      ReadsLess(s, t, g, FirstOf(chain), size, bufferLen);
    } else if content != [] {
      NeedsOne(|content|, 512 * g.sectorsPerCluster);
      ReadsChain(s, t, g, chain, content, bufferLen);
    }
  }

  /** No more is read than the size says. */
  lemma ReadsLess(s: seq<Sector>, t: seq<nat>, g: Geometry, first: nat, size: nat, bufferLen: nat)
    requires g.sectorsPerCluster > 0
    ensures var r := ReadOf(s, t, g, first, size, bufferLen); r.Some? ==> |r.value| <= size
  {
  }

  lemma ReadsChain(s: seq<Sector>, t: seq<nat>, g: Geometry, chain: seq<nat>, content: seq<Byte>, bufferLen: nat)
    requires g.sectorsPerCluster > 0 && StrictChain(t, chain) && HoldsContent(s, SectorList(g, chain), content)
    requires content != [] && |chain| == ClusterCount(g, |content|) > 0 && |content| <= bufferLen
    ensures ReadOf(s, t, g, chain[0], |content|, bufferLen) == Some(content) <==> |chain| <= READ_LIMIT
  {
    var max := ReadMax(g, |content|);
    var n := Min(|chain|, max);
    WalkPrefix(t, chain, max, 0);
    assert chain[0..n] == chain[..n];
    LengthOf(g, |content|, |chain|, n);
    if |chain| <= READ_LIMIT {
      assert chain[..n] == chain;
      PrefixIsContent(s, SectorList(g, chain), content);
    }
  }

  lemma LengthOf(g: Geometry, length: nat, k: nat, n: nat)
    requires g.sectorsPerCluster > 0 && length > 0 && k == CeilDiv(length, 512 * g.sectorsPerCluster) && n <= k
    ensures 512 * SectorsOf(g, k) >= length && (n < k ==> 512 * SectorsOf(g, n) < length)
  {
    SectorsOfProduct(g, k);
    SectorsOfProduct(g, n);
    Bytes512(k, g.sectorsPerCluster);
    Bytes512(n, g.sectorsPerCluster);
    if n < k { FewerBytes(n, k - 1, 512 * g.sectorsPerCluster); }
  }

  lemma Bytes512(k: nat, spc: nat)
    ensures k * (512 * spc) == 512 * (k * spc)
  {
  }

  lemma FewerBytes(n: nat, k: nat, b: nat)
    requires n <= k
    ensures n * b <= k * b
  {
  }
}
