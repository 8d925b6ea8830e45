/**
  The operations on an exFAT volume: writing a file, making a directory, deleting an entry.
  Each is proved against the tree of names, files and directories the volume stands for, and
  keeps the volume invariant: no cluster in two streams, the bitmap exact, nothing lost but
  chains too long to be walked.
 */
module ExFatOperations {
  import opened Bytes
  import opened ExFatEntrySet
  import opened ExFatParse
  import opened ExFatScan
  import opened ExFatDirectory
  import opened ExFatChains
  import opened ExFatAllocator
  import opened ExFatLayout
  import opened ExFatInvariant
  import opened ExFatReading
  import opened ExFatGrowth
  import opened ExFatInstall
  import opened ExFatNames
  import opened ExFatView
  import opened ExFatData
  import opened ExFatTaking

  // ---- Writing a file -------------------------------------------------------------------------------

  function FileStream(chain: seq<nat>, length: nat): (s: Stream) {
    Stream(false, if chain == [] then 0 else chain[0], length, length, false)
  }

  function ClusterCountFor(length: nat, clusterBytes: nat): (k: nat)
    requires clusterBytes > 0
  {
    if length == 0 then 0 else CeilDiv(length, clusterBytes)
  }

  lemma FileInHand(v: Vol, l: Layout, loose: set<nat>, chain: seq<nat>, length: nat, t: Tree)
    requires Sound(l, loose) && Good(v, TakenLayout(l, chain), TakenLoose(loose, chain), t)
             && FreshChain(l, loose, chain)
    requires length < U64 && |chain| == ClusterCountFor(length, ClusterBytes(v))
    ensures InHand(v, TakenLayout(l, chain), TakenLoose(loose, chain), FileStream(chain, length))
  {
    if chain != [] {
      var l1 := Taken(l, chain);
      ChainInHeap(v, l1, TakenLoose(loose, chain), {}, chain[0]);
      assert chain[0] in chain;
    }
  }

  /** The entry installed for the written chain lists the written bytes. */
  lemma WrittenFile(v: Vol, v': Vol, l1: Layout, loose1: set<nat>, l': Layout, loose': set<nat>, chain: seq<nat>,
                    content: seq<Byte>, new_: SetInfo)
    requires Inv(v, l1, loose1, {}) && Sound(l', loose') && DataKept(v, v', l1) && !new_.isDirectory
             && new_.dataLength == |content|
    requires if chain == [] then new_.firstCluster == 0 && content == []
             else new_.firstCluster == chain[0] && chain[0] in l1.chains && l1.chains[chain[0]] == chain
                  && chain[0] !in l1.depth
                  && chain[0] in l'.chains && l'.chains[chain[0]] == chain && InHeap(v, chain)
                  && Contents(v.heap, chain) == ContentEntries(content, v.entriesPerCluster * |chain|)
                  && |content| <= 32 * (v.entriesPerCluster * |chain|)
    ensures NodeOf(v', l', new_) == File(content)
  {
    if chain == [] {
      StreamsOwnFirst(l', loose');
    } else {
      DataSame(v, v', l1, l', loose1, {}, chain[0]);
      ContentIsRead(content, v.entriesPerCluster * |chain|);
    }
  }

  /** The chain is fresh, holds the content, and everything else is as before. */
  ghost predicate Prepared(v: Vol, v': Vol, l: Layout, loose: set<nat>, t: Tree, d: nat, chain: seq<nat>,
                           content: seq<Byte>) {
    && InHeap(v', chain) && Contents(v'.heap, chain) == ContentEntries(content, v'.entriesPerCluster * |chain|)
    && Ready(v, v', l, loose, t, d, chain)
  }

  /** How preparing `count` clusters ends: out of space, refused while they are filled, or done. */
  ghost function PrepareError(v: Vol, count: nat, progress: nat -> bool): (e: Option<Error>)
    requires |v.bitmap| == v.clusterCount + 2
  {
    if |FreeClusters(v)| < count then Some(NoFreeClusters)
    else if forall k :: 1 <= k <= 1 + count ==> progress(k) then None
    else Some(Canceled)
  }

  /** A fresh chain is taken and filled with the content. */
  method PrepareFile(disk: Volume, content: seq<Byte>, progress: nat -> bool, ghost l: Layout, ghost loose: set<nat>,
                     ghost t: Tree, ghost d: nat)
    returns (r: Result<seq<nat>>)
    requires Good(disk.V(), l, loose, t) && d in l.depth
    modifies disk
    ensures r.Ok? ==> Prepared(old(disk.V()), disk.V(), l, loose, t, d, r.value, content)
    ensures r.Ok? ==> |r.value| == ClusterCountFor(|content|, ClusterBytes(old(disk.V())))
    ensures r.Err? ==> Good(disk.V(), l, loose, t)
    ensures PrepareError(old(disk.V()), ClusterCountFor(|content|, ClusterBytes(old(disk.V()))), progress)
            == if r.Err? then Some(r.error) else None
  {
    ghost var v := disk.V();
    var count := ClusterCountFor(|content|, 32 * disk.entriesPerCluster);
    var taken := TakeChain(disk, count, l, loose, t);
    if taken.None? { return Err(NoFreeClusters); }
    var chain := taken.value;
    ghost var u := disk.V();
    FreshChainInHeap(u, l, loose, chain, t);
    var ok := WriteContent(disk, chain, content, progress, 1);
    ghost var w := disk.V();
    FilledIsReady(v, u, w, l, loose, t, d, chain);
    if !ok {
      disk.FreeClusterList(chain);
      ChainGivenBack(w, disk.V(), chain, l, loose, t);
      return Err(Canceled);
    }
    return Ok(chain);
  }

  /** The replaced set still fits its stream, which is now in hand. */
  lemma OldInHand(l: Layout, loose: set<nat>, d: nat, x: SetInfo, new_: SetInfo)
    requires Sound(l, loose) && d in l.live && d in l.depth && x in l.live[d] && x.firstCluster >= 2
    ensures Measures(Installed(l, d, {x}, new_), x) && Installed(l, d, {x}, new_).chains == l.chains
            && Installed(l, d, {x}, new_).flat == l.flat
  {
    assert LiveOk(l, d, x);
    assert RefOk(l, x.firstCluster);
  }

  /** What remains to be given back after an entry has replaced another. */
  ghost predicate Leftover(l: Layout, loose: set<nat>, l': Layout, loose': set<nat>, old_: Option<SetInfo>) {
    old_.Some? && old_.value.firstCluster >= 2 ==>
      && old_.value.firstCluster !in loose && old_.value.firstCluster in loose' && Measures(l', old_.value)
      && (TooLong(l', old_.value.firstCluster) <==> TooLong(l, old_.value.firstCluster))
  }

  lemma InstalledLeftover(l: Layout, loose: set<nat>, chain: seq<nat>, d: nat, old_: Option<SetInfo>, new_: SetInfo,
                          grew: Option<nat>)
    requires Sound(l, loose) && d in l.depth && d in l.live && FreshChain(l, loose, chain)
             && Sound(TakenLayout(l, chain), TakenLoose(loose, chain))
    requires (old_.Some? ==> grew.None? && old_.value in l.live[d])
    requires d in Base(TakenLayout(l, chain), d, grew).live && d in Base(TakenLayout(l, chain), d, grew).depth
    ensures Leftover(l, loose, Placement(TakenLayout(l, chain), d, old_, new_, grew),
            loose + Streams(AsSet(old_)), old_)
  {
    if old_.Some? && old_.value.firstCluster >= 2 {
      var l1 := TakenLayout(l, chain);
      assert LiveOk(l, d, old_.value);
      assert RefOk(l, old_.value.firstCluster);
      RefsNotLoose(l, loose);
      OldInHand(l1, TakenLoose(loose, chain), d, old_.value, new_);
      assert old_.value.firstCluster in Streams(AsSet(old_));
    }
  }

  /** `l` knows the chain as a stream that is no directory. */
  ghost predicate KnownChain(l: Layout, chain: seq<nat>) {
    chain != [] ==> chain[0] >= 2 && chain[0] in l.chains && l.chains[chain[0]] == chain && chain[0] !in l.depth
  }

  lemma InstalledNode(v: Vol, v': Vol, l: Layout, loose: set<nat>, d: nat, name: Name, chain: seq<nat>,
                      content: seq<Byte>,
                      old_: Option<SetInfo>, new_: SetInfo, grew: Option<nat>)
    requires Inv(v, l, loose, {}) && d in l.depth && KnownChain(l, chain)
             && |chain| == ClusterCountFor(|content|, ClusterBytes(v))
    requires InHeap(v, chain) && Contents(v.heap, chain) == ContentEntries(content, v.entriesPerCluster * |chain|)
    requires InstalledAs(v, v', l, loose, d, name, FileStream(chain, |content|), old_, new_, grew)
    ensures NodeOf(v', Placement(l, d, old_, new_, grew), new_) == File(content)
  {
    PlacementOf(l, loose, d, old_, new_, grew);
    Fits(|content|, v.entriesPerCluster, |chain|);
    WrittenFile(v, v', l, loose, Placement(l, d, old_, new_, grew), (loose - OneStream(new_)) + Streams(AsSet(old_)),
        chain, content, new_);
  }

  lemma FileInstalled(v: Vol, v': Vol, l: Layout, loose: set<nat>, t: Tree, d: nat, name: Name, chain: seq<nat>,
                      content: seq<Byte>,
                      old_: Option<SetInfo>, new_: SetInfo, grew: Option<nat>)
    requires Good(v, l, loose, t) && d in l.depth && KnownChain(l, chain)
             && |chain| == ClusterCountFor(|content|, ClusterBytes(v))
    requires InHeap(v, chain) && Contents(v.heap, chain) == ContentEntries(content, v.entriesPerCluster * |chain|)
    requires InstalledAs(v, v', l, loose, d, name, FileStream(chain, |content|), old_, new_, grew)
    ensures d in t
    ensures Good(v', Placement(l, d, old_, new_, grew), (loose - OneStream(new_)) + Streams(AsSet(old_)),
            Put(t, d, name, File(content)))
  {
    InstalledView(v, v', l, loose, d, name, FileStream(chain, |content|), old_, new_, grew, t);
    InstalledNode(v, v', l, loose, d, name, chain, content, old_, new_, grew);
  }

  lemma FreshFirst(v: Vol, l: Layout, loose: set<nat>, chain: seq<nat>, t: Tree)
    requires Good(v, TakenLayout(l, chain), TakenLoose(loose, chain), t) && FreshChain(l, loose, chain)
    ensures chain != [] ==>
              chain[0] >= 2 && chain[0] in TakenLayout(l, chain).chains
              && TakenLayout(l, chain).chains[chain[0]] == chain && chain[0] !in l.depth
  {
    if chain != [] { LooseStream(Taken(l, chain), loose + {chain[0]}, chain[0]); }
  }

  lemma Fits(length: nat, m: nat, k: nat)
    requires m > 0 && k == ClusterCountFor(length, 32 * m)
    ensures length <= 32 * (m * k) && (k == 0 <==> length == 0)
  {
    assert k * (32 * m) == 32 * (m * k);
  }

  // ---- How writing a file ends ------------------------------------------------------------------------

  /** The directory that stands in the way is among the live sets. */
  lemma DirectoryInTheWay(v: Vol, l: Layout, loose: set<nat>, d: nat, name: Name, spare: nat)
    requires Inv(v, l, loose, {}) && d in l.depth && RequiredEntryCount(|name|).Some?
    ensures InHeap(v, l.chains[d])
    ensures InstallError(v, l, d, name, false, true, spare) == Some(IsDirectory)
       <==> exists x :: x in l.live[d] && EqIgnoreCase(x.name, name) && x.isDirectory
  {
    ChainInHeap(v, l, loose, {}, d);
    var entries := Contents(v.heap, l.chains[d]);
    assert DirOk(v, l, d);
    FindIsLookup(Table(entries), 0, name);
    assert NamesOk(l.live[d]);
    if x :| x in l.live[d] && EqIgnoreCase(x.name, name) && x.isDirectory { OnlyOne(l.live[d], x, name); }
  }

  lemma ReadyToInstall(v: Vol, w: Vol, l: Layout, loose: set<nat>, t: Tree, d: nat, name: Name, chain: seq<nat>,
                       content: seq<Byte>)
    requires Sound(l, loose) && d in l.depth && Visible(v, l, d) && RoomFor(v, l, d, name)
             && Prepared(v, w, l, loose, t, d, chain, content)
    requires |content| < U64 && |chain| == ClusterCountFor(|content|, ClusterBytes(w))
    ensures Visible(w, TakenLayout(l, chain), d) && RoomFor(w, TakenLayout(l, chain), d, name)
    ensures InHand(w, TakenLayout(l, chain), TakenLoose(loose, chain), FileStream(chain, |content|))
  {
    StillRoomFor(v, w, l, TakenLayout(l, chain), d, name);
    FileInHand(w, l, loose, chain, |content|, t);
  }

  /** The outcome of a successful installation. */
  ghost predicate Replaced(v': Vol, l: Layout, loose: set<nat>, l': Layout, loose': set<nat>, t': Tree,
                           old_: Option<SetInfo>) {
    Good(v', l', loose', t') && loose' == loose + Streams(AsSet(old_)) && Leftover(l, loose, l', loose', old_)
  }

  lemma HandedOver(loose: set<nat>, chain: seq<nat>, new_: SetInfo)
    requires chain != [] ==> chain[0] !in loose && chain[0] >= 2
    requires new_.firstCluster == if chain == [] then 0 else chain[0]
    ensures TakenLoose(loose, chain) - OneStream(new_) == loose
  {
  }

  lemma FileReplaced(v: Vol, w: Vol, v': Vol, l: Layout, loose: set<nat>, t: Tree, d: nat, name: Name, chain: seq<nat>,
                     content: seq<Byte>,
                     old_: Option<SetInfo>, new_: SetInfo, grew: Option<nat>)
    requires Sound(l, loose) && d in l.depth && Prepared(v, w, l, loose, t, d, chain, content)
             && |chain| == ClusterCountFor(|content|, ClusterBytes(w))
    requires InstalledAs(w, v', TakenLayout(l, chain), TakenLoose(loose, chain), d, name, FileStream(chain, |content|),
             old_, new_, grew)
    ensures d in t && d in Base(TakenLayout(l, chain), d, grew).live
    ensures Replaced(v', l, loose, Placement(TakenLayout(l, chain), d, old_, new_, grew), loose + Streams(AsSet(old_)),
            Put(t, d, name, File(content)), old_)
  {
    FreshFirst(w, l, loose, chain, t);
    FileInstalled(w, v', TakenLayout(l, chain), TakenLoose(loose, chain), t, d, name, chain, content, old_, new_, grew);
    HandedOver(loose, chain, new_);
    InstalledLeftover(l, loose, chain, d, old_, new_, grew);
  }

  /** The directory entry for a prepared chain. */
  method InstallFile(disk: Volume, dirCluster: nat, name: Name, chain: seq<nat>, ghost content: seq<Byte>, length: nat,
                     ghost v: Vol, ghost l: Layout, ghost loose: set<nat>, ghost t: Tree)
    returns (r: Result<Option<SetInfo>>, ghost l': Layout, ghost loose': set<nat>)
    requires Inv(v, l, loose, {}) && length == |content| < U64 && PlainName(name) && NotDotName(name)
             && v.root == disk.root
    requires var d := NormalizedDir(v, dirCluster);
             d in l.depth && Visible(v, l, d) && RoomFor(v, l, d, name)
                 && Prepared(v, disk.V(), l, loose, t, d, chain, content)
    requires |chain| == ClusterCountFor(|content|, ClusterBytes(disk.V()))
    modifies disk
    ensures var d := NormalizedDir(v, dirCluster);
            r.Ok? ==> d in t && Replaced(disk.V(), l, loose, l', loose', Put(t, d, name, File(content)), r.value)
    ensures r.Ok? ==> Records(l', NormalizedDir(v, dirCluster), name, false, |content|)
    ensures r.Err? ==> HalfDone(v, disk.V(), l, loose, t, NormalizedDir(v, dirCluster), r.error)
    ensures InstallError(v, l, NormalizedDir(v, dirCluster), name, false, true, |FreeClusters(v)| - |chain|)
            == if r.Err? then Some(r.error) else None
  {
    l', loose' := l, loose;
    ghost var d, w, l1, loose1
        := NormalizedDir(v, dirCluster), disk.V(), TakenLayout(l, chain), TakenLoose(loose, chain);
    ReadyToInstall(v, w, l, loose, t, d, name, chain, content);
    ghost var new_, grew;
    EndsAsBefore(v, w, l, loose, t, d, chain, name, false, true, |FreeClusters(w)|);
    r, new_, grew := InstallEntrySet(disk, dirCluster, name, FileStream(chain, length), true, l1, loose1);
    if r.Err? {
      ghost var u := disk.V();
      disk.FreeClusterList(chain);
      NotInstalled(v, w, u, disk.V(), l, loose, t, d, chain, r.error);
      return;
    }
    FileReplaced(v, w, disk.V(), l, loose, t, d, name, chain, content, r.value, new_, grew);
    PlacedRecord(w, disk.V(), l1, loose1, d, name, FileStream(chain, length), length, r.value, new_, grew);
    l', loose' := Placement(l1, d, r.value, new_, grew), loose + Streams(AsSet(r.value));
  }

  /** Streams lost on the way: only chains that are too long to be walked. */
  ghost predicate Lost(l: Layout, loose: set<nat>, loose': set<nat>) {
    loose <= loose' && forall a {:trigger TooLong(l, a)} :: a in loose' && a !in loose ==> TooLong(l, a)
  }

  /** The caller's promise about the directory: it exists, is read in full, and can take a set of this name. */
  ghost predicate Usable(v: Vol, l: Layout, d: nat, name: Option<Name>) {
    d in l.depth && d in l.live && Visible(v, l, d) && (name.Some? ==> RoomFor(v, l, d, name.value))
  }

  predicate NameError(e: Error) { e == InvalidName || e == NameTooLong || e == NameNotAscii || e == NameCharacter }

  /** The old stream is given back after its entry has been replaced. */
  method GiveBackOld(disk: Volume, old_: Option<SetInfo>, ghost l0: Layout, ghost loose0: set<nat>, ghost l: Layout,
                     ghost loose: set<nat>, ghost t: Tree)
    returns (ghost l': Layout, ghost loose': set<nat>)
    requires Replaced(disk.V(), l0, loose0, l, loose, t, old_)
    modifies disk
    ensures Good(disk.V(), l', loose', t) && Lost(l0, loose0, loose') && l'.live == l.live
  {
    l', loose' := l, loose;
    if old_.Some? {
      if old_.value.firstCluster >= 2 {
        ghost var v, x := disk.V(), old_.value;
        var ok := FreeStream(disk, old_.value);
        GivenBack(v, disk.V(), x, ok, l, loose, t);
        l', loose' := FreedLayout(l, x, ok), if ok then loose - OneStream(x) else loose;
      }
    }
  }

  /** The steps of a write up to the moment its entry is in place, and how they end. */
  ghost function CommitError(v: Vol, l: Layout, d: nat, name: Name, count: nat,
                             progress: nat -> bool): (e: Option<Error>)
    requires |v.bitmap| == v.clusterCount + 2 && d in l.chains && InHeap(v, l.chains[d])
             && RequiredEntryCount(|name|).Some?
  {
    if !progress(0) then Some(Canceled)
    else if PrepareError(v, count, progress).Some? then PrepareError(v, count, progress)
    else InstallError(v, l, d, name, false, true, |FreeClusters(v)| - count)
  }

  /** How writing `count` clusters ends: a refusal at the last call comes when the file is already in place. */
  ghost function WriteResult(v: Vol, l: Layout, d: nat, name: Name, count: nat, progress: nat -> bool): (r: Result<()>)
    requires |v.bitmap| == v.clusterCount + 2 && d in l.chains && InHeap(v, l.chains[d])
             && RequiredEntryCount(|name|).Some?
  {
    var e := CommitError(v, l, d, name, count, progress);
    if e.Some? then Err(e.value) else if progress(2 + count) then Ok(()) else Err(Canceled)
  }

  /** A cancelled write leaves the file in the tree exactly when only the last call was refused. */
  lemma CanceledLate(v: Vol, l: Layout, loose: set<nat>, d: nat, name: Name, count: nat, progress: nat -> bool)
    requires Inv(v, l, loose, {}) && d in l.depth && RequiredEntryCount(|name|).Some?
    ensures InHeap(v, l.chains[d])
    ensures WriteResult(v, l, d, name, count, progress) == Err(Canceled) ==>
              (CommitError(v, l, d, name, count, progress).None? <==> forall k :: 0 <= k < 2 + count ==> progress(k))
  {
    ChainInHeap(v, l, loose, {}, d);
    assert forall spare: nat :: InstallError(v, l, d, name, false, true, spare) != Some(Canceled);
  }

  /** What the functions that tell how a write ends need to know. */
  ghost predicate Addressed(v: Vol, l: Layout, t: Tree, d: nat, name: Name) {
    Shape(v) && d in l.chains && d in t && InHeap(v, l.chains[d]) && RequiredEntryCount(|name|).Some?
  }

  /** How writing a file under a valid name ends. */
  ghost predicate WriteOutcome(v: Vol, v': Vol, l: Layout, loose: set<nat>, t: Tree, d: nat, name: Name,
                               content: seq<Byte>, progress: nat -> bool,
                               r: Result<()>, l': Layout, loose': set<nat>, written: bool) {
    && Addressed(v, l, t, d, name)
    && var count := ClusterCountFor(|content|, ClusterBytes(v));
    && r == WriteResult(v, l, d, name, count, progress)
    && (written <==> CommitError(v, l, d, name, count, progress).None?)
    && (r == Err(Canceled) ==> (written <==> forall k :: 0 <= k < 2 + count ==> progress(k)))
    && (written ==> Lost(l, loose, loose') && Good(v', l', loose', Put(t, d, name, File(content)))
                    && Records(l', d, name, false, |content|))
    && (!written ==> l' == l && loose' == loose && r.Err? && HalfDone(v, v', l, loose, t, d, r.error))
  }

  /** Either the file has taken the place of what had the name, or the failure has left no more than it must. */
  ghost predicate Committed(v: Vol, v': Vol, l: Layout, loose: set<nat>, t: Tree, d: nat, name: Name,
                            content: seq<Byte>, progress: nat -> bool,
                            e: Option<Error>, l': Layout, loose': set<nat>) {
    && Addressed(v, l, t, d, name)
      && e == CommitError(v, l, d, name, ClusterCountFor(|content|, ClusterBytes(v)), progress)
    && if e.None? then Lost(l, loose, loose') && Good(v', l', loose', Put(t, d, name, File(content)))
                       && Records(l', d, name, false, |content|)
       else l' == l && loose' == loose && HalfDone(v, v', l, loose, t, d, e.value)
  }

  lemma NotPrepared(v: Vol, v': Vol, l: Layout, loose: set<nat>, t: Tree, d: nat, name: Name, content: seq<Byte>,
                    progress: nat -> bool)
    requires Addressed(v, l, t, d, name) && progress(0) && Good(v', l, loose, t)
    requires PrepareError(v, ClusterCountFor(|content|, ClusterBytes(v)), progress).Some?
    ensures Committed(v, v', l, loose, t, d, name, content, progress,
            PrepareError(v, ClusterCountFor(|content|, ClusterBytes(v)), progress), l, loose)
  {
  }

  /** The outcome once the content is on the volume. */
  ghost predicate Settled(v: Vol, v': Vol, l: Layout, loose: set<nat>, t: Tree, d: nat, name: Name, content: seq<Byte>,
                          spare: nat,
                          e: Option<Error>, l': Layout, loose': set<nat>) {
    && Addressed(v, l, t, d, name) && e == InstallError(v, l, d, name, false, true, spare)
    && if e.None? then Lost(l, loose, loose') && Good(v', l', loose', Put(t, d, name, File(content)))
                       && Records(l', d, name, false, |content|)
       else l' == l && loose' == loose && HalfDone(v, v', l, loose, t, d, e.value)
  }

  lemma ThenSettled(v: Vol, v': Vol, l: Layout, loose: set<nat>, t: Tree, d: nat, name: Name, content: seq<Byte>,
                    progress: nat -> bool,
                    count: nat, e: Option<Error>, l': Layout, loose': set<nat>)
    requires |v.bitmap| == v.clusterCount + 2 && progress(0) && v.entriesPerCluster > 0
             && count == ClusterCountFor(|content|, ClusterBytes(v))
    requires PrepareError(v, count, progress).None?
             && Settled(v, v', l, loose, t, d, name, content, |FreeClusters(v)| - count, e, l', loose')
    ensures Committed(v, v', l, loose, t, d, name, content, progress, e, l', loose')
  {
  }

  /** The entry is installed and the old stream given back. */
  method SettleFile(disk: Volume, dirCluster: nat, name: Name, chain: seq<nat>, ghost content: seq<Byte>, length: nat,
                    ghost v: Vol, ghost l: Layout, ghost loose: set<nat>, ghost t: Tree)
    returns (e: Option<Error>, ghost l': Layout, ghost loose': set<nat>)
    requires Good(v, l, loose, t) && length == |content| < U64 && PlainName(name) && NotDotName(name)
             && v.root == disk.root
    requires var d := NormalizedDir(v, dirCluster);
             d in l.depth && Visible(v, l, d) && RoomFor(v, l, d, name)
                 && Prepared(v, disk.V(), l, loose, t, d, chain, content)
    requires |chain| == ClusterCountFor(|content|, ClusterBytes(disk.V()))
    modifies disk
    ensures Settled(v, disk.V(), l, loose, t, NormalizedDir(v, dirCluster), name, content, |FreeClusters(v)| - |chain|,
            e, l', loose')
  {
    ghost var d := NormalizedDir(v, dirCluster);
    WellAddressed(v, l, loose, t, d, name);
    var old_;
    old_, l', loose' := InstallFile(disk, dirCluster, name, chain, content, length, v, l, loose, t);
    if old_.Err? { return Some(old_.error), l, loose; }
    l', loose' := GiveBackOld(disk, old_.value, l, loose, l', loose', Put(t, d, name, File(content)));
    return None, l', loose';
  }

  lemma WellAddressed(v: Vol, l: Layout, loose: set<nat>, t: Tree, d: nat, name: Name)
    requires Good(v, l, loose, t) && d in l.depth && PlainName(name)
    ensures Addressed(v, l, t, d, name)
  {
    ChainInHeap(v, l, loose, {}, d);
  }

  /** The content is written, its entry installed, and the old stream given back. */
  method CommitFile(disk: Volume, dirCluster: nat, name: Name, content: seq<Byte>, progress: nat -> bool,
                    ghost l: Layout, ghost loose: set<nat>, ghost t: Tree)
    returns (e: Option<Error>, ghost l': Layout, ghost loose': set<nat>)
    requires Good(disk.V(), l, loose, t) && |content| < U64 && PlainName(name) && NotDotName(name) && progress(0)
    requires Usable(disk.V(), l, NormalizedDir(disk.V(), dirCluster), Some(name))
    modifies disk
    ensures Committed(old(disk.V()), disk.V(), l, loose, t, NormalizedDir(old(disk.V()), dirCluster), name, content,
            progress, e, l', loose')
  {
    ghost var v, d := disk.V(), NormalizedDir(disk.V(), dirCluster);
    WellAddressed(v, l, loose, t, d, name);
    var prepared := PrepareFile(disk, content, progress, l, loose, t, d);
    if prepared.Err? {
      NotPrepared(v, disk.V(), l, loose, t, d, name, content, progress);
      return Some(prepared.error), l, loose;
    }
    e, l', loose' := SettleFile(disk, dirCluster, name, prepared.value, content, |content|, v, l, loose, t);
    ThenSettled(v, disk.V(), l, loose, t, d, name, content, progress, |prepared.value|, e, l', loose');
  }

  lemma NotStarted(v: Vol, l: Layout, loose: set<nat>, t: Tree, d: nat, name: Name, content: seq<Byte>,
                   progress: nat -> bool)
    requires Good(v, l, loose, t) && d in l.depth && PlainName(name) && !progress(0)
    ensures WriteOutcome(v, v, l, loose, t, d, name, content, progress, Err(Canceled), l, loose, false)
  {
    WellAddressed(v, l, loose, t, d, name);
  }

  lemma Ended(v: Vol, v': Vol, l: Layout, loose: set<nat>, t: Tree, d: nat, name: Name, content: seq<Byte>,
              progress: nat -> bool,
              e: Option<Error>, l': Layout, loose': set<nat>, r: Result<()>)
    requires Inv(v, l, loose, {}) && d in l.depth
             && Committed(v, v', l, loose, t, d, name, content, progress, e, l', loose')
    requires r == if e.Some? then Err(e.value)
                  else if progress(2 + ClusterCountFor(|content|, ClusterBytes(v))) then Ok(()) else Err(Canceled)
    ensures WriteOutcome(v, v', l, loose, t, d, name, content, progress, r, l', loose', e.None?)
  {
    CanceledLate(v, l, loose, d, name, ClusterCountFor(|content|, ClusterBytes(v)), progress);
  }

  /** Writing under a name that has been found valid. */
  method WriteNamed(disk: Volume, dirCluster: nat, name: Name, content: seq<Byte>, progress: nat -> bool,
                    ghost l: Layout, ghost loose: set<nat>, ghost t: Tree)
    returns (r: Result<()>, ghost l': Layout, ghost loose': set<nat>, ghost written: bool)
    requires Good(disk.V(), l, loose, t) && |content| < U64 && PlainName(name) && NotDotName(name)
    requires Usable(disk.V(), l, NormalizedDir(disk.V(), dirCluster), Some(name))
    modifies disk
    ensures WriteOutcome(old(disk.V()), disk.V(), l, loose, t, NormalizedDir(old(disk.V()), dirCluster), name, content,
            progress, r, l', loose', written)
  {
    ghost var v, d := disk.V(), NormalizedDir(disk.V(), dirCluster);
    if !progress(0) {
      NotStarted(v, l, loose, t, d, name, content, progress);
      return Err(Canceled), l, loose, false;
    }
    var count := ClusterCountFor(|content|, 32 * disk.entriesPerCluster);
    var e;
    e, l', loose' := CommitFile(disk, dirCluster, name, content, progress, l, loose, t);
    r := if e.Some? then Err(e.value) else if progress(2 + count) then Ok(()) else Err(Canceled);
    written := e.None?;
    Ended(v, disk.V(), l, loose, t, d, name, content, progress, e, l', loose', r);
  }

  /**
    `exfat_write_file_in_dir_with_progress`. `progress(k)` is the answer to the callback's call
    number `k`. A refusal at the last call comes after the file has been written.
   */
  method WriteFile(disk: Volume, dirCluster: nat, filename: seq<nat>, content: seq<Byte>, progress: nat -> bool,
                   ghost l: Layout, ghost loose: set<nat>, ghost t: Tree)
    returns (r: Result<()>, ghost l': Layout, ghost loose': set<nat>, ghost written: bool)
    requires Good(disk.V(), l, loose, t) && |content| < U64
    requires Usable(disk.V(), l, NormalizedDir(disk.V(), dirCluster), NameOf(filename))
    modifies disk
    ensures NameOf(filename).None? ==> r.Err? && NameError(r.error) && disk.V() == old(disk.V())
    ensures NameOf(filename).Some? ==>
              WriteOutcome(old(disk.V()), disk.V(), l, loose, t, NormalizedDir(old(disk.V()), dirCluster),
                  NameOf(filename).value,
                           content, progress, r, l', loose', written)
  {
    var valid := ValidateName(filename);
    if valid.Err? { return Err(valid.error), l, loose, false; }
    r, l', loose', written := WriteNamed(disk, dirCluster, valid.value, content, progress, l, loose, t);
  }
}
