/**
  Storing the content of a file on a FAT32 volume: the bytes of its directory entry, its chain
  fitted to the new length, and the content in the chain. Whatever the outcome, links and data of
  other files are left alone.
 */
module Fat32Storing {
  import opened Bytes
  import opened SectorCopy
  import opened BlockCache
  import opened Fat32Table
  import opened Fat32Alloc
  import opened Fat32Streams
  import opened Fat32Directory

  // ---- The directory entry ----------------------------------------------------------------------------

  /** The entry of a file: of an old entry the time stamps stay, a new one has none. */
  function NewEntry(e: DirEntry, isNew: bool, name: ShortName, first: nat, size: nat): (r: DirEntry) {
    var b := if isNew then Zeros(32) else e;
    Splice(Splice(Splice(Splice(b, 0, name)[11 := FILE_ATTRIBUTES], 20, LeBytes(first / 65536, 2)), 26,
        LeBytes(first % 65536, 2)), 28, LeBytes(size % U32, 4))
  }

  lemma EntryBytes(b: seq<Byte>, name: seq<Byte>, hi: seq<Byte>, lo: seq<Byte>, sz: seq<Byte>, r: seq<Byte>)
    requires |b| == 32 && |name| == 11 && |hi| == 2 && |lo| == 2 && |sz| == 4
    requires r == Splice(Splice(Splice(Splice(b, 0, name)[11 := FILE_ATTRIBUTES], 20, hi), 26, lo), 28, sz)
    ensures |r| == 32 && (forall j :: 0 <= j < 11 ==> r[j] == name[j]) && r[11] == FILE_ATTRIBUTES
    ensures forall j :: 0 <= j < 2 ==> r[20 + j] == hi[j]
    ensures forall j :: 0 <= j < 2 ==> r[26 + j] == lo[j]
    ensures forall j :: 0 <= j < 4 ==> r[28 + j] == sz[j]
    ensures forall j :: 12 <= j < 20 || 22 <= j < 26 ==> r[j] == b[j]
  {
  }

  /** The entry says what was put into it. */
  lemma EntryReads(e: DirEntry, isNew: bool, name: ShortName, first: nat, size: nat)
    requires first < LOW28
    ensures var r := NewEntry(e, isNew, name, first, size);
            && r[..11] == name && r[11] == 0x20 && EntryCluster(r) == first && EntrySize(r) == size % U32
            && forall j :: 12 <= j < 20 || 22 <= j < 26 ==> r[j] == if isNew then 0 else e[j]
  {
    var r := NewEntry(e, isNew, name, first, size);
    EntryBytes(if isNew then Zeros(32)
        else e, name, LeBytes(first / 65536, 2), LeBytes(first % 65536, 2), LeBytes(size % U32, 4), r);
    Le16RoundTrip(r, 20, first / 65536);
    Le16RoundTrip(r, 26, first % 65536);
    Le32RoundTrip(r, 28, size % U32);
  }

  function SectorWith(sector: Sector, i: nat, e: DirEntry): (r: Sector)
    requires i < 16
  {
    Splice(sector, 32 * i, e)
  }

  lemma SectorWithEntry(sector: Sector, i: nat, e: DirEntry, k: nat)
    requires i < 16 && k < 16
    ensures EntryIn(SectorWith(sector, i, e), k) == if k == i then e else EntryIn(sector, k)
  {
    var r := SectorWith(sector, i, e);
    forall j | 0 <= j < 32 ensures EntryIn(r, k)[j] == if k == i then e[j] else EntryIn(sector, k)[j] {
      assert EntryIn(r, k)[j] == r[32 * k + j];
    }
  }

  /** Rewriting one entry of one sector rewrites one entry of the directory. */
  lemma OneEntryChanged(s: seq<Sector>, lbas: seq<nat>, p: nat, i: nat, e: DirEntry)
    requires AllOnDevice(s, lbas) && Distinct(lbas) && p < |lbas| && i < 16
    ensures EntriesOf(s[lbas[p] := SectorWith(s[lbas[p]], i, e)], lbas) == EntriesOf(s, lbas)[16 * p + i := e]
  {
    var s' := s[lbas[p] := SectorWith(s[lbas[p]], i, e)];
    forall q | 0 <= q < 16 * |lbas| ensures EntriesOf(s', lbas)[q] == EntriesOf(s, lbas)[16 * p + i := e][q] {
      if q / 16 == p {
        SectorWithEntry(s[lbas[p]], i, e, q % 16);
        assert q == 16 * p + q % 16;
      } else {
        assert lbas[q / 16] != lbas[p];
      }
    }
  }

  /** A directory's entries depend on its sectors only. */
  lemma EntriesLocal(s: seq<Sector>, s': seq<Sector>, lbas: seq<nat>)
    requires AllOnDevice(s, lbas) && |s'| == |s| && forall p :: 0 <= p < |lbas| ==> s'[lbas[p]] == s[lbas[p]]
    ensures EntriesOf(s', lbas) == EntriesOf(s, lbas)
  {
    forall q | 0 <= q < 16 * |lbas| ensures EntriesOf(s', lbas)[q] == EntriesOf(s, lbas)[q] {
      assert s'[lbas[q / 16]] == s[lbas[q / 16]];
    }
  }

  // ---- What is left alone -------------------------------------------------------------------------------

  ghost predicate Sane(s: seq<Sector>, a: FatArea, g: Geometry) {
    DataFits(s, a, g) && 128 * a.sectorsPerFat <= CHAIN_END && LinksInside(Links(s, a))
  }

  /** Data sectors outside these clusters are as before. */
  ghost predicate OnlyChain(s: seq<Sector>, s': seq<Sector>, a: FatArea, g: Geometry, chain: seq<nat>) {
    && |s'| == |s|
    && forall lba :: 0 <= lba < |s| && !(a.start <= lba < CopyStart(a, Copies(a))) && lba !in SectorList(g, chain) ==>
        s'[lba] == s[lba]
  }

  /**
    Links and data differ at most in the clusters of `mine` and in `got`, which come from `mine` or
    were free.
   */
  ghost predicate Untouched(s: seq<Sector>, s': seq<Sector>, a: FatArea, g: Geometry, mine: seq<nat>, got: seq<nat>) {
    Sane(s, a, g) && Sane(s', a, g) && LinkFrame(Links(s, a), Links(s', a), mine, got)
        && OnlyChain(s, s', a, g, mine + got)
  }

  /** The sectors of some clusters are among the sectors of more clusters. */
  lemma {:induction false} SectorsWithin(g: Geometry, cs: seq<nat>, ds: seq<nat>)
    requires Among(cs, ds)
    ensures Among(SectorList(g, cs), SectorList(g, ds))
    decreases |cs|
  {
    if cs != [] {
      var init, c := cs[..|cs| - 1], cs[|cs| - 1];
      SectorsWithin(g, init, ds);
      var j :| 0 <= j < |ds| && ds[j] == c;
      forall k | 0 <= k < g.sectorsPerCluster ensures ClusterSectors(g, c)[k] in SectorList(g, ds) {
        SectorAt(g, ds, j, k);
      }
    }
  }

  lemma OnlyMore(s: seq<Sector>, s': seq<Sector>, a: FatArea, g: Geometry, cs: seq<nat>, ds: seq<nat>)
    requires OnlyChain(s, s', a, g, cs) && Among(cs, ds)
    ensures OnlyChain(s, s', a, g, ds)
  {
    SectorsWithin(g, cs, ds);
  }

  lemma OnlyTwice(s: seq<Sector>, mid: seq<Sector>, s': seq<Sector>, a: FatArea, g: Geometry, cs: seq<nat>)
    requires OnlyChain(s, mid, a, g, cs) && OnlyChain(mid, s', a, g, cs)
    ensures OnlyChain(s, s', a, g, cs)
  {
  }

  lemma LinkFrameMore(t: seq<nat>, t': seq<nat>, mine: seq<nat>, got: seq<nat>, mine': seq<nat>)
    requires LinkFrame(t, t', mine, got) && Among(mine, mine')
    ensures LinkFrame(t, t', mine', got)
  {
  }

  lemma UntouchedMore(s: seq<Sector>, s': seq<Sector>, a: FatArea, g: Geometry, mine: seq<nat>, got: seq<nat>,
                      mine': seq<nat>)
    requires Untouched(s, s', a, g, mine, got) && Among(mine, mine')
    ensures Untouched(s, s', a, g, mine', got)
  {
    LinkFrameMore(Links(s, a), Links(s', a), mine, got, mine');
    OnlyMore(s, s', a, g, mine + got, mine' + got);
  }

  /** One change after another: what the second may touch, the first may have got. */
  lemma UntouchedTwice(s: seq<Sector>, mid: seq<Sector>, s': seq<Sector>, a: FatArea, g: Geometry, mine: seq<nat>,
                       got: seq<nat>, more: seq<nat>)
    requires Untouched(s, mid, a, g, mine, got) && Untouched(mid, s', a, g, mine + got, more)
    ensures Untouched(s, s', a, g, mine, got + more)
  {
    LinkFrameTwice(Links(s, a), Links(mid, a), Links(s', a), mine, got, more);
    var all := mine + (got + more);
    assert mine + got + more == all;
    OnlyMore(s, mid, a, g, mine + got, all);
    OnlyTwice(s, mid, s', a, g, all);
  }

  /** A change of data in clusters one may touch. */
  lemma DataTouched(s: seq<Sector>, mid: seq<Sector>, s': seq<Sector>, a: FatArea, g: Geometry, mine: seq<nat>,
                    got: seq<nat>, cs: seq<nat>)
    requires Untouched(s, mid, a, g, mine, got) && Sane(s', a, g) && Links(s', a) == Links(mid, a)
    requires OnlyChain(mid, s', a, g, cs) && Among(cs, mine + got)
    ensures Untouched(s, s', a, g, mine, got)
  {
    OnlyMore(mid, s', a, g, cs, mine + got);
    OnlyTwice(s, mid, s', a, g, mine + got);
  }

  lemma LinksTouched(s: seq<Sector>, s': seq<Sector>, a: FatArea, g: Geometry, mine: seq<nat>, got: seq<nat>)
    requires Sane(s, a, g) && Sane(s', a, g) && DataSame(s, s', a) && LinkFrame(Links(s, a), Links(s', a), mine, got)
    ensures Untouched(s, s', a, g, mine, got)
  {
  }

  lemma WrittenOnly(s: seq<Sector>, s': seq<Sector>, a: FatArea, g: Geometry, chain: seq<nat>, content: seq<Byte>,
                    done: nat)
    requires StreamWritten(s, s', SectorList(g, chain), content, done)
    ensures OnlyChain(s, s', a, g, chain)
  {
  }

  /** A chain apart from all that may be touched keeps its links and its data. */
  lemma ApartIsKept(s: seq<Sector>, s': seq<Sector>, a: FatArea, g: Geometry, mine: seq<nat>, got: seq<nat>,
                    other: seq<nat>)
    requires Untouched(s, s', a, g, mine, got) && (forall i :: 0 <= i < |mine| ==> mine[i] >= 2)
    requires StrictChain(Links(s, a), other) && Apart(mine, other)
    ensures StrictChain(Links(s', a), other)
    ensures forall p :: 0 <= p < |SectorList(g, other)| && SectorList(g, other)[p] < |s| ==>
              s'[SectorList(g, other)[p]] == s[SectorList(g, other)[p]]
  {
    var all, t, t' := mine + got, Links(s, a), Links(s', a);
    assert Apart(all, other) && forall i :: 0 <= i < |all| ==> all[i] >= 2 by { GotApart(t, t', mine, got, other); }
    ApartBothWays(all, other);
    forall i | 0 <= i < |other| ensures t'[other[i]] == t[other[i]] {
      assert other[i] !in all;
      NotInParts(mine, got, other[i]);
    }
    SectorsApart(g, all, other);
    ApartBothWays(SectorList(g, all), SectorList(g, other));
    forall p | 0 <= p < |SectorList(g, other)| ensures SectorList(g, other)[p] >= g.dataStart {
      ChainOnData(g, other, p);
    }
  }

  lemma NotInParts(a: seq<nat>, b: seq<nat>, c: nat)
    requires c !in a + b
    ensures c !in a && c !in b
  {
  }

  lemma GotApart(t: seq<nat>, t': seq<nat>, mine: seq<nat>, got: seq<nat>, other: seq<nat>)
    requires LinkFrame(t, t', mine, got) && (forall i :: 0 <= i < |mine| ==> mine[i] >= 2) && StrictChain(t, other)
             && Apart(mine, other)
    ensures Apart(mine + got, other) && forall i :: 0 <= i < |mine + got| ==> (mine + got)[i] >= 2
  {
    forall i | 0 <= i < |got| ensures got[i] !in other && got[i] >= 2 {
      if got[i] in mine {
        var k :| 0 <= k < |mine| && mine[k] == got[i];
      } else {
        forall k | 0 <= k < |other| ensures other[k] != got[i] { ChainInUse(t, other, k); }
      }
    }
  }

  lemma ApartBothWays(a: seq<nat>, b: seq<nat>)
    requires Apart(a, b)
    ensures Apart(b, a)
  {
  }

  // ---- What a written file looks like -----------------------------------------------------------------------

  function ClusterCount(g: Geometry, length: nat): (n: nat)
    requires g.sectorsPerCluster > 0
  {
    if length == 0 then 0 else CeilDiv(length, 512 * g.sectorsPerCluster)
  }

  ghost predicate HoldsContent(s: seq<Sector>, lbas: seq<nat>, content: seq<Byte>) {
    forall p :: 0 <= p < |lbas| ==> lbas[p] < |s| && s[lbas[p]] == ContentSector(content, p)
  }

  /** The file's chain has become `new_` and holds the content; links and data of all other clusters are as before. */
  ghost predicate StreamStored(s: seq<Sector>, s': seq<Sector>, a: FatArea, g: Geometry, old_: seq<nat>, new_: seq<nat>,
                               content: seq<Byte>) {
    && Sane(s, a, g) && Sane(s', a, g) && Resized(Links(s, a), Links(s', a), old_, new_)
    && |new_| == ClusterCount(g, |content|) && HoldsContent(s', SectorList(g, new_), content)
      && OnlyChain(s, s', a, g, new_)
  }

  lemma EmptyStored(s: seq<Sector>, s': seq<Sector>, a: FatArea, g: Geometry, old_: seq<nat>)
    requires Sane(s, a, g) && Sane(s', a, g) && DataSame(s, s', a) && StrictChain(Links(s, a), old_)
    requires Links(s', a) == ZeroAll(Links(s, a), old_) && Used(Links(s', a)) == Used(Links(s, a)) - |old_|
    ensures StreamStored(s, s', a, g, old_, [], [])
  {
    EmptyResized(Links(s, a), Links(s', a), old_);
  }

  lemma EmptyResized(t: seq<nat>, t': seq<nat>, old_: seq<nat>)
    requires StrictChain(t, old_) && t' == ZeroAll(t, old_) && Used(t') == Used(t) - |old_|
    ensures Resized(t, t', old_, [])
  {
  }

  lemma ContentStored(s: seq<Sector>, mid: seq<Sector>, s': seq<Sector>, a: FatArea, g: Geometry, old_: seq<nat>,
                      new_: seq<nat>, content: seq<Byte>)
    requires Sane(s, a, g) && Sane(s', a, g) && DataSame(s, mid, a) && Fits(mid, a) && Links(s', a) == Links(mid, a)
    requires Resized(Links(s, a), Links(mid, a), old_, new_) && |new_| == ClusterCount(g, |content|)
    requires StreamWritten(mid, s', SectorList(g, new_), content, |SectorList(g, new_)|)
    ensures StreamStored(s, s', a, g, old_, new_, content)
  {
  }

  function AskedForData(progress: Call -> bool): (ask: nat -> bool) { (k: nat) => progress(Data(k)) }

  /** What stops the content from being stored when there is none, and `len` clusters are to be freed. */
  function EmptyError(len: nat, progress: Call -> bool): (e: Option<FatError>) {
    if len > FREE_LIMIT + 1 then Some(ChainLoop) else if !progress(Emptied) then Some(Refused) else None
  }

  /**
    What stops the content from being stored, told from the state before: the table and where the
    search for free clusters starts, the size of the device and the answers of the callback.
   */
  ghost function StoreError(device: nat, t: seq<nat>, hint: nat, g: Geometry, old_: seq<nat>, length: nat,
                            progress: Call -> bool, before: nat): (e: Option<FatError>)
    requires g.sectorsPerCluster > 0
  {
    if length == 0 then EmptyError(|old_|, progress)
    else
      var count := ClusterCount(g, length);
      var e := FitError(Spare(t), |old_|, count, progress, before);
      if e.Some? then e
      else StopFrom(device, SectorList(g, FittedChain(t, hint, old_, count)), AskedForData(progress), 0)
  }

  /** What became of the file's data. */
  ghost predicate Stored(s: seq<Sector>, s': seq<Sector>, a: FatArea, g: Geometry, old_: seq<nat>, content: seq<Byte>,
                         e: Option<FatError>, r: Result<nat>, new_: seq<nat>, got: seq<nat>) {
    && Untouched(s, s', a, g, old_, got) && ErrorOf(r) == e
    && (r.Ok? ==>
        r.value == FirstOf(new_) && StreamStored(s, s', a, g, KeptOf(old_, ClusterCount(g, |content|)), new_, content))
  }

  ghost predicate ChainOf(t: seq<nat>, c: nat, chain: seq<nat>) {
    StrictChain(t, chain) && if c >= 2 then chain != [] && chain[0] == c else chain == []
  }

  /** Nothing to store: the old chain is freed, also if the callback then refuses and the entry stays as it was. */
  method StoreNothing(fs: Fat32, oldCluster: nat, progress: Call -> bool, ghost old_: seq<nat>) returns (r: Result<nat>)
    requires fs.Valid() && ChainOf(fs.T(), oldCluster, old_)
    modifies fs, fs.disk
    ensures fs.Valid() && Stored(old(fs.disk.sectors), fs.disk.sectors, fs.disk.area, fs.g, old_, [],
            EmptyError(|old_|, progress), r, [], [])
    ensures r != Err(ChainLoop) ==>
              StreamStored(old(fs.disk.sectors), fs.disk.sectors, fs.disk.area, fs.g, old_, [], [])
  {
    ghost var s, n := fs.disk.sectors, Min(|old_|, FREE_LIMIT + 1);
    if oldCluster >= 2 {
      var ok := fs.FreeWhole(oldCluster, old_);
      FreedFrame(Links(s, fs.disk.area), fs.T(), old_, n);
      LinksTouched(s, fs.disk.sectors, fs.disk.area, fs.g, old_, []);
      if !ok { return Err(ChainLoop); }
      assert old_[..n] == old_;
      fs.hint := oldCluster;
    }
    EmptyStored(s, fs.disk.sectors, fs.disk.area, fs.g, old_);
    if !progress(Emptied) { return Err(Refused); }
    return Ok(0);
  }

  lemma FreedFrame(t: seq<nat>, t': seq<nat>, old_: seq<nat>, n: nat)
    requires Linked(t, old_) && n <= |old_| && t' == ZeroAll(t, old_[..n])
    ensures LinkFrame(t, t', old_, [])
  {
    assert forall c :: c !in old_ ==> c !in old_[..n];
  }

  /** The file's data: a chain fitted to the content, and the content in it. */
  method StoreContent(fs: Fat32, oldCluster: nat, content: seq<Byte>, progress: Call -> bool, before: nat,
                      ghost old_: seq<nat>)
    returns (r: Result<nat>, ghost new_: seq<nat>, ghost got: seq<nat>)
    requires fs.Valid() && ChainOf(fs.T(), oldCluster, old_)
    modifies fs, fs.disk
    ensures fs.Valid()
    ensures Stored(old(fs.disk.sectors), fs.disk.sectors, fs.disk.area, fs.g, old_, content,
            StoreError(|old(fs.disk.sectors)|, old(fs.T()), old(fs.hint), fs.g, old_, |content|, progress, before), r,
            new_, got)
  {
    new_, got := [], [];
    if content == [] {
      r := StoreNothing(fs, oldCluster, progress, old_);
      return;
    }
    r, new_, got := StoreSome(fs, oldCluster, content, progress, before, old_);
  }

  method StoreSome(fs: Fat32, oldCluster: nat, content: seq<Byte>, progress: Call -> bool, before: nat,
                   ghost old_: seq<nat>)
    returns (r: Result<nat>, ghost new_: seq<nat>, ghost got: seq<nat>)
    requires fs.Valid() && ChainOf(fs.T(), oldCluster, old_) && content != []
    modifies fs, fs.disk
    ensures fs.Valid()
    ensures Stored(old(fs.disk.sectors), fs.disk.sectors, fs.disk.area, fs.g, old_, content,
            StoreError(|old(fs.disk.sectors)|, old(fs.T()), old(fs.hint), fs.g, old_, |content|, progress, before), r,
            new_, got)
  {
    ghost var s := fs.disk.sectors;
    var seen := ReadOld(fs, oldCluster, old_);
    var required := CeilDiv(|content|, 512 * fs.g.sectorsPerCluster);
    NeedsOne(|content|, 512 * fs.g.sectorsPerCluster);
    var fitted;
    fitted, got := FitChain(fs, seen, required, progress, before, old_);
    LinksTouched(s, fs.disk.sectors, fs.disk.area, fs.g, old_, got);
    if fitted.Err? { return Err(fitted.error), [], got; }
    new_ := fitted.value;
    r := WriteFitted(fs, fitted.value, content, progress, s, old_, got);
  }

  /** The content goes to the chain that has been fitted to it. */
  method WriteFitted(fs: Fat32, chain: seq<nat>, content: seq<Byte>, progress: Call -> bool, ghost s: seq<Sector>,
                     ghost old_: seq<nat>, ghost got: seq<nat>)
    returns (r: Result<nat>)
    requires fs.Valid() && DataSame(s, fs.disk.sectors, fs.disk.area)
             && Untouched(s, fs.disk.sectors, fs.disk.area, fs.g, old_, got)
    requires |chain| == ClusterCount(fs.g, |content|) > 0 && Among(chain, old_ + got)
    requires Resized(Links(s, fs.disk.area), fs.T(), KeptOf(old_, |chain|), chain)
    modifies fs.disk
    ensures fs.Valid()
    ensures Stored(s, fs.disk.sectors, fs.disk.area, fs.g, old_, content,
            StopFrom(|s|, SectorList(fs.g, chain), AskedForData(progress), 0), r, chain, got)
  {
    ghost var mid := fs.disk.sectors;
    var written; ghost var done;
    written, done := WriteStream(fs, chain, content, AskedForData(progress));
    WrittenOnly(mid, fs.disk.sectors, fs.disk.area, fs.g, chain, content, done);
    DataTouched(s, mid, fs.disk.sectors, fs.disk.area, fs.g, old_, got, chain);
    if written.Err? { return Err(written.error); }
    ContentStored(s, mid, fs.disk.sectors, fs.disk.area, fs.g, KeptOf(old_, |chain|), chain, content);
    return Ok(chain[0]);
  }

  lemma NeedsOne(length: nat, bytes: nat)
    requires length > 0 && bytes > 0
    ensures CeilDiv(length, bytes) > 0
  {
    assert CeilDiv(length, bytes) * bytes >= length;
  }

  method ReadOld(fs: Fat32, oldCluster: nat, ghost old_: seq<nat>) returns (seen: seq<nat>)
    requires fs.Valid() && ChainOf(fs.T(), oldCluster, old_)
    ensures seen == Seen(old_)
  {
    if oldCluster < 2 { return []; }
    SeenIsRead(fs.T(), old_);
    var read := ReadClusterChain(fs.disk, oldCluster, OLD_LIMIT);
    seen := read.value;
  }

  function FirstOf(chain: seq<nat>): (c: nat) { if chain == [] then 0 else chain[0] }
}
