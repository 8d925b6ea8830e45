/**
  Making a directory: a fresh cluster of zeros, listed in its parent under the given name.
 */
module ExFatDirectories {
  import opened Bytes
  import opened ExFatEntrySet
  import opened ExFatParse
  import opened ExFatScan
  import opened ExFatDirectory
  import opened ExFatChains
  import opened ExFatAllocator
  import opened ExFatLayout
  import opened ExFatInvariant
  import opened ExFatReading
  import opened ExFatInstall
  import opened ExFatNames
  import opened ExFatView
  import opened ExFatTaking
  import opened ExFatOperations
  import opened ExFatOneTree

  function DirectoryStream(c: nat, clusterBytes: nat): (s: Stream) {
    Stream(true, c, clusterBytes, clusterBytes, false)
  }

  lemma EmptyDirectory(m: nat)
    ensures DirHolds(ZeroEntries(m), {})
  {
    var d := ZeroEntries(m);
    if m > 0 { assert Table(d)[0].kind == d[0][0] == 0; }
    forall j | 0 <= j < m ensures IsFree(Table(d)[j].kind) { assert Table(d)[j].kind == d[j][0]; }
  }

  /** `exfat_zero_chain`. */
  method ZeroChain(disk: Volume, chain: seq<nat>)
    requires Shape(disk.V()) && InHeap(disk.V(), chain)
    modifies disk
    ensures HeapWritten(old(disk.V()), disk.V(), chain) && InHeap(disk.V(), chain)
    ensures forall i :: 0 <= i < |chain| ==> disk.heap[chain[i]] == ZeroEntries(disk.entriesPerCluster)
  {
    for i := 0 to |chain|
      invariant HeapWritten(old(disk.V()), disk.V(), chain)
      invariant forall j :: 0 <= j < i ==> disk.heap[chain[j]] == ZeroEntries(disk.entriesPerCluster)
    {
      assert chain[i] in chain;
      disk.heap := disk.heap[chain[i] := ZeroEntries(disk.entriesPerCluster)];
    }
  }

  /** A fresh cluster full of zeros is an empty directory in hand. */
  lemma DirectoryInHand(v: Vol, l: Layout, loose: set<nat>, chain: seq<nat>, t: Tree)
    requires Sound(l, loose) && Good(v, TakenLayout(l, chain), TakenLoose(loose, chain), t)
             && FreshChain(l, loose, chain) && |chain| == 1
    requires InHeap(v, chain) && v.heap[chain[0]] == ZeroEntries(v.entriesPerCluster)
    ensures InHand(v, TakenLayout(l, chain), TakenLoose(loose, chain), DirectoryStream(chain[0], ClusterBytes(v)))
  {
    ChainInHeap(v, Taken(l, chain), loose + {chain[0]}, {}, chain[0]);
    assert chain[0] in chain;
    GrownCount(ClusterBytes(v), 1);
    assert 1 * ClusterBytes(v) == ClusterBytes(v);
    EmptyDirectory(v.entriesPerCluster);
    assert chain == [chain[0]];
    assert Contents(v.heap, chain) == v.heap[chain[0]] + Contents(v.heap, []);
  }

  /** The chain is a fresh cluster of zeros, and everything else is as before. */
  ghost predicate PreparedDirectory(v: Vol, v': Vol, l: Layout, loose: set<nat>, t: Tree, d: nat, chain: seq<nat>) {
    |chain| == 1 && Ready(v, v', l, loose, t, d, chain) && v'.heap[chain[0]] == ZeroEntries(v'.entriesPerCluster)
  }

  method PrepareDirectory(disk: Volume, ghost l: Layout, ghost loose: set<nat>, ghost t: Tree, ghost d: nat)
    returns (r: Option<seq<nat>>)
    requires Good(disk.V(), l, loose, t) && d in l.depth
    modifies disk
    ensures r.Some? ==> PreparedDirectory(old(disk.V()), disk.V(), l, loose, t, d, r.value)
    ensures r.None? ==> Good(disk.V(), l, loose, t)
    ensures r.None? <==> |FreeClusters(old(disk.V()))| < 1
  {
    ghost var v := disk.V();
    r := TakeChain(disk, 1, l, loose, t);
    if r.None? { return; }
    var chain := r.value;
    ghost var u := disk.V();
    FreshChainInHeap(u, l, loose, chain, t);
    ZeroChain(disk, chain);
    FilledIsReady(v, u, disk.V(), l, loose, t, d, chain);
  }

  lemma ReadyForDirectory(v: Vol, w: Vol, l: Layout, loose: set<nat>, t: Tree, d: nat, name: Name, chain: seq<nat>)
    requires Sound(l, loose) && d in l.depth && Visible(v, l, d) && RoomFor(v, l, d, name)
             && PreparedDirectory(v, w, l, loose, t, d, chain)
    ensures Visible(w, TakenLayout(l, chain), d) && RoomFor(w, TakenLayout(l, chain), d, name)
    ensures InHand(w, TakenLayout(l, chain), TakenLoose(loose, chain), DirectoryStream(chain[0], ClusterBytes(w)))
  {
    StillRoomFor(v, w, l, TakenLayout(l, chain), d, name);
    DirectoryInHand(w, l, loose, chain, t);
  }

  lemma DirectoryInstalled(w: Vol, v': Vol, l: Layout, loose: set<nat>, t: Tree, d: nat, name: Name, c: nat,
                           old_: Option<SetInfo>, new_: SetInfo, grew: Option<nat>)
    requires Good(w, l, loose, t) && d in l.depth && c in loose && c >= 2 && old_.None?
    requires InstalledAs(w, v', l, loose, d, name, DirectoryStream(c, ClusterBytes(w)), old_, new_, grew)
    ensures d in t && Good(v', Placement(l, d, old_, new_, grew), loose - {c}, Put(t, d, name, Directory(c)))
  {
    InstalledView(w, v', l, loose, d, name, DirectoryStream(c, ClusterBytes(w)), old_, new_, grew, t);
    assert (loose - OneStream(new_)) + Streams(AsSet(old_)) == loose - {c};
  }

  lemma HandedBack(loose: set<nat>, chain: seq<nat>)
    requires chain != [] && chain[0] !in loose
    ensures chain[0] in TakenLoose(loose, chain) && TakenLoose(loose, chain) - {chain[0]} == loose
  {
  }

  lemma DirectoryPlaced(v: Vol, w: Vol, v': Vol, l: Layout, loose: set<nat>, t: Tree, d: nat, name: Name,
                        chain: seq<nat>,
                        old_: Option<SetInfo>, new_: SetInfo, grew: Option<nat>)
    requires PreparedDirectory(v, w, l, loose, t, d, chain) && d in l.depth && d in l.live
    requires forall y :: y in l.live[d] ==> !EqIgnoreCase(y.name, name)
    requires InstalledAs(w, v', TakenLayout(l, chain), TakenLoose(loose, chain), d, name,
             DirectoryStream(chain[0], ClusterBytes(w)), old_, new_, grew)
    ensures d in t && Good(v', Placement(TakenLayout(l, chain), d, old_, new_, grew), loose,
            Put(t, d, name, Directory(chain[0])))
  {
    assert old_.None? by { NameWasFree(l, d, name, old_); }
    assert chain[0] >= 2 && chain[0] !in loose by { FreshFirst(w, l, loose, chain, t); }
    HandedBack(loose, chain);
    DirectoryInstalled(w, v', TakenLayout(l, chain), TakenLoose(loose, chain), t, d, name, chain[0], old_, new_, grew);
  }

  /** The entry for a prepared directory. */
  method InstallDirectory(disk: Volume, parentCluster: nat, name: Name, chain: seq<nat>, ghost v: Vol, ghost l: Layout,
                          ghost loose: set<nat>, ghost t: Tree)
    returns (r: Option<Error>, ghost l': Layout)
    requires Inv(v, l, loose, {}) && PlainName(name) && NotDotName(name) && v.root == disk.root
    requires Usable(v, l, NormalizedDir(v, parentCluster), Some(name))
    requires PreparedDirectory(v, disk.V(), l, loose, t, NormalizedDir(v, parentCluster), chain)
    requires forall y :: y in l.live[NormalizedDir(v, parentCluster)] ==> !EqIgnoreCase(y.name, name)
    modifies disk
    ensures var d := NormalizedDir(v, parentCluster);
            r.None? ==> d in t && Good(disk.V(), l', loose, Put(t, d, name, Directory(chain[0])))
    ensures r.None? ==> Records(l', NormalizedDir(v, parentCluster), name, true, ClusterBytes(v))
    ensures r.Some? ==> HalfDone(v, disk.V(), l, loose, t, NormalizedDir(v, parentCluster), r.value)
    ensures r == InstallError(v, l, NormalizedDir(v, parentCluster), name, true, false, |FreeClusters(v)| - 1)
  {
    l' := l;
    ghost var d, w, l1, loose1
        := NormalizedDir(v, parentCluster), disk.V(), TakenLayout(l, chain), TakenLoose(loose, chain);
    ReadyForDirectory(v, w, l, loose, t, d, name, chain);
    EndsAsBefore(v, w, l, loose, t, d, chain, name, true, false, |FreeClusters(w)|);
    var installed; ghost var new_, grew;
    installed, new_, grew := InstallEntrySet(disk, parentCluster, name,
        DirectoryStream(chain[0], 32 * disk.entriesPerCluster), false, l1, loose1);
    if installed.Err? {
      ghost var u := disk.V();
      disk.FreeClusterList(chain);
      NotInstalled(v, w, u, disk.V(), l, loose, t, d, chain, installed.error);
      return Some(installed.error), l';
    }
    DirectoryPlaced(v, w, disk.V(), l, loose, t, d, name, chain, installed.value, new_, grew);
    PlacedRecord(w, disk.V(), l1, loose1, d, name, DirectoryStream(chain[0], ClusterBytes(v)), ClusterBytes(v),
                 installed.value, new_, grew);
    return None, Placement(l1, d, installed.value, new_, grew);
  }

  /** How making a directory under a name that is free ends. */
  ghost function MakeError(v: Vol, l: Layout, d: nat, name: Name): (e: Option<Error>)
    requires |v.bitmap| == v.clusterCount + 2 && d in l.chains && InHeap(v, l.chains[d])
             && RequiredEntryCount(|name|).Some?
  {
    if |FreeClusters(v)| < 1 then Some(NoFreeClusters)
        else InstallError(v, l, d, name, true, false, |FreeClusters(v)| - 1)
  }

  ghost predicate Made(v: Vol, v': Vol, l: Layout, loose: set<nat>, t: Tree, d: nat, name: Name, r: Result<nat>,
                       l': Layout) {
    && Addressed(v, l, t, d, name) && MakeError(v, l, d, name) == (if r.Err? then Some(r.error) else None)
    && if r.Ok? then r.value !in t && Good(v', l', loose, Put(t, d, name, Directory(r.value)))
                     && Records(l', d, name, true, ClusterBytes(v))
       else l' == l && HalfDone(v, v', l, loose, t, d, r.error)
  }

  /** The fresh cluster was no directory. */
  lemma FreshNode(v: Vol, w: Vol, l: Layout, loose: set<nat>, t: Tree, d: nat, chain: seq<nat>)
    requires Good(v, l, loose, t) && PreparedDirectory(v, w, l, loose, t, d, chain)
    ensures chain[0] !in t
  {
  }

  /** A new empty directory under a name that is free. */
  method MakeDirectory(disk: Volume, parentCluster: nat, name: Name, ghost l: Layout, ghost loose: set<nat>,
                       ghost t: Tree)
    returns (r: Result<nat>, ghost l': Layout)
    requires Good(disk.V(), l, loose, t) && PlainName(name) && NotDotName(name)
    requires Usable(disk.V(), l, NormalizedDir(disk.V(), parentCluster), Some(name))
    requires forall y :: y in l.live[NormalizedDir(disk.V(), parentCluster)] ==> !EqIgnoreCase(y.name, name)
    modifies disk
    ensures Made(old(disk.V()), disk.V(), l, loose, t, NormalizedDir(old(disk.V()), parentCluster), name, r, l')
  {
    ghost var v, d := disk.V(), NormalizedDir(disk.V(), parentCluster);
    WellAddressed(v, l, loose, t, d, name);
    var prepared := PrepareDirectory(disk, l, loose, t, d);
    if prepared.None? { return Err(NoFreeClusters), l; }
    var chain := prepared.value;
    FreshNode(v, disk.V(), l, loose, t, d, chain);
    var failed;
    failed, l' := InstallDirectory(disk, parentCluster, name, chain, v, l, loose, t);
    if failed.Some? { return Err(failed.value), l; }
    return Ok(chain[0]), l';
  }

  lemma NameWasFree(l: Layout, d: nat, name: Name, old_: Option<SetInfo>)
    requires d in l.live && (old_.Some? ==> old_.value in l.live[d] && EqIgnoreCase(old_.value.name, name))
    requires forall y :: y in l.live[d] ==> !EqIgnoreCase(y.name, name)
    ensures old_.None?
  {
  }

  /** How making sure of a directory under a valid name ends: it is found, is in the way, or is made. */
  ghost predicate EnsureOutcome(v: Vol, v': Vol, l: Layout, loose: set<nat>, t: Tree, d: nat, name: Name,
                                r: Result<nat>, l': Layout) {
    && Addressed(v, l, t, d, name)
    && if UpperName(name) in t[d] then
         && v' == v && l' == l
         && r == match t[d][UpperName(name)] case Directory(c) => Ok(c) case File(_) => Err(IsFile)
       else Made(v, v', l, loose, t, d, name, r, l')
  }

  method EnsureNamed(disk: Volume, parentCluster: nat, name: Name, ghost l: Layout, ghost loose: set<nat>,
                     ghost t: Tree)
    returns (r: Result<nat>, ghost l': Layout)
    requires Good(disk.V(), l, loose, t) && PlainName(name) && NotDotName(name)
    requires Usable(disk.V(), l, NormalizedDir(disk.V(), parentCluster), Some(name))
    modifies disk
    ensures EnsureOutcome(old(disk.V()), disk.V(), l, loose, t, NormalizedDir(old(disk.V()), parentCluster),
            name, r, l')
  {
    ghost var v, d := disk.V(), NormalizedDir(disk.V(), parentCluster);
    WellAddressed(v, l, loose, t, d, name);
    var buffer, existing := OpenAndFind(disk, parentCluster, name, l, loose);
    if existing.Some? {
      FoundListed(v, l, t, d, name, existing.value);
      if existing.value.isDirectory { return Ok(existing.value.firstCluster), l; }
      return Err(IsFile), l;
    }
    FreeUnlisted(v, l, t, d, name);
    r, l' := MakeDirectory(disk, parentCluster, name, l, loose, t);
  }

  /** `exfat_ensure_subdirectory`. */
  method EnsureSubdirectory(disk: Volume, parentCluster: nat, text: seq<nat>, ghost l: Layout, ghost loose: set<nat>,
                            ghost t: Tree)
    returns (r: Result<nat>, ghost l': Layout)
    requires Good(disk.V(), l, loose, t) && Usable(disk.V(), l, NormalizedDir(disk.V(), parentCluster), NameOf(text))
    modifies disk
    ensures NameOf(text).None? ==> r.Err? && NameError(r.error) && disk.V() == old(disk.V())
    ensures NameOf(text).Some? ==>
              EnsureOutcome(old(disk.V()), disk.V(), l, loose, t, NormalizedDir(old(disk.V()), parentCluster),
                  NameOf(text).value, r, l')
  {
    var valid := ValidateName(text);
    if valid.Err? { return Err(valid.error), l; }
    r, l' := EnsureNamed(disk, parentCluster, valid.value, l, loose, t);
  }
}
