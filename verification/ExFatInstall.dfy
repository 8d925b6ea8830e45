/**
  Installing an entry set in a directory: over an old set of the same name, in the first run of
  free entries, or in a cluster added to the directory.
 */
module ExFatInstall {
  import opened Bytes
  import opened ExFatEntrySet
  import opened ExFatParse
  import opened ExFatScan
  import opened ExFatDirectory
  import opened ExFatChains
  import opened ExFatAllocator
  import opened ExFatLayout
  import opened ExFatInvariant
  import opened ExFatReading
  import opened ExFatStreams
  import opened ExFatGrowth

  // ---- Reading the directory ------------------------------------------------------------------

  /** The buffer holds the whole directory `d`. */
  ghost predicate WholeBuffer(v: Vol, l: Layout, d: nat, buffer: DirBuffer) {
    && d in l.chains && d in l.live && InHeap(v, l.chains[d]) && buffer.chain == l.chains[d]
      && buffer.info.firstCluster == d
    && buffer.entries == Contents(v.heap, buffer.chain) && |buffer.entries| == v.entriesPerCluster * |buffer.chain|
    && (|v.fat| == v.clusterCount + 2 && !buffer.info.noFatChain ==> IsFatChain(v, buffer.chain))
  }

  lemma ReadVisible(v: Vol, l: Layout, loose: set<nat>, d: nat, r: Result<DirBuffer>)
    requires Inv(v, l, loose, {}) && d in l.depth && Visible(v, l, d) && DirRead(v, d, r)
    ensures r.Ok? && WholeBuffer(v, l, d, r.value) && DirHolds(r.value.entries, l.live[d])
  {
    InvKnows(v, l, loose, {}, d);
    ReadInFull(v, l, d);
    assert DirOk(v, l, d);
    ContentsLength(v.heap, l.chains[d], v.entriesPerCluster);
  }

  // ---- The stream to be installed ---------------------------------------------------------------

  /** The stream is in hand: allocated, referred to by nobody, of the right length, and empty if it is a directory. */
  ghost predicate InHand(v: Vol, l: Layout, loose: set<nat>, s: Stream) {
    && StreamFits(s) && (s.isDirectory ==> s.firstCluster >= 2)
    && (s.firstCluster >= 2 ==>
          && s.firstCluster in loose && s.firstCluster in l.chains && s.firstCluster != l.root
          && s.noFatChain == (s.firstCluster in l.flat) && s.validLength <= s.dataLength
          && l.clusterBytes > 0 && |l.chains[s.firstCluster]| == ClustersFor(l.clusterBytes, s.dataLength)
          && (s.isDirectory ==>
                && |l.chains[s.firstCluster]| <= MAX_DIR_CLUSTERS && InHeap(v, l.chains[s.firstCluster])
                && DirHolds(Contents(v.heap, l.chains[s.firstCluster]), {})))
  }

  lemma {:induction false} EqIgnoreCaseTransitive(a: Name, b: Name, c: Name)
    requires EqIgnoreCase(a, b) && EqIgnoreCase(c, b)
    ensures EqIgnoreCase(a, c)
  {
  }

  lemma HandInstallable(v: Vol, l: Layout, loose: set<nat>, d: nat, x: set<SetInfo>, name: Name, s: Stream, i: nat,
                        count: nat)
    requires Sound(l, loose) && d in l.depth && d in l.live && x <= l.live[d] && InHand(v, l, loose, s)
             && NotDotName(name)
    requires (forall y :: y in x ==> !y.isDirectory) && (forall y :: y in l.live[d] - x ==> !EqIgnoreCase(y.name, name))
    ensures MayInstall(l, loose, d, x, ParsedForm(i, name, s, count))
  {
  }

  /** What remains after the set of that name has been taken out has other names. */
  lemma OnlyOne(live: set<SetInfo>, x: SetInfo, name: Name)
    requires UniqueNames(live) && x in live && EqIgnoreCase(x.name, name)
    ensures forall y :: y in live - {x} ==> !EqIgnoreCase(y.name, name)
  {
    forall y | y in live && EqIgnoreCase(y.name, name) ensures y == x { EqIgnoreCaseTransitive(y.name, name, x.name); }
  }

  // ---- Writing the directory back -----------------------------------------------------------------

  function Remembering(s: Stream): (e: StreamInfo) {
    StreamInfo(s.firstCluster, s.dataLength, s.validLength, s.noFatChain && s.firstCluster >= 2, s.isDirectory)
  }

  method WriteBack(disk: Volume, chain: seq<nat>, entries: Dir, s: Stream)
    requires Shape(disk.V()) && InHeap(disk.V(), chain) && Distinct(chain)
             && |entries| == disk.entriesPerCluster * |chain|
    modifies disk
    ensures DirWritten(old(disk.V()), disk.V(), chain, Remembering(s)) && InHeap(disk.V(), chain)
    ensures Contents(disk.heap, chain) == entries
  {
    WriteDir(disk, chain, entries);
    WrittenIsRead(old(disk.heap), chain, entries, disk.entriesPerCluster);
    if s.firstCluster >= 2 {
      disk.cache := Remember(disk.cache, Remembering(s));
    }
  }

  /** Directory `d` holds the new set instead of `x`, and nothing else has happened. */
  ghost predicate Placed(v: Vol, v': Vol, l: Layout, d: nat, x: set<SetInfo>, name: Name, s: Stream, new_: SetInfo) {
    && d in l.chains && d in l.live && InHeap(v, l.chains[d]) && RequiredEntryCount(|name|) == Some(new_.count)
    && new_ == ParsedForm(new_.index, name, s, new_.count)
    && DirWritten(v, v', l.chains[d], Remembering(s)) && |v'.heap| == |v.heap|
    && DirHolds(Contents(v'.heap, l.chains[d]), l.live[d] - x + {new_})
  }

  lemma PlacedMatches(v: Vol, v': Vol, l: Layout, loose: set<nat>, d: nat, x: set<SetInfo>, name: Name, s: Stream,
                      new_: SetInfo, skip: set<nat>)
    requires Inv(v, l, loose, skip) && skip <= {d} && d in l.depth && x <= l.live[d] && InHand(v, l, loose, s)
             && NotDotName(name)
    requires (forall y :: y in x ==> !y.isDirectory) && (forall y :: y in l.live[d] - x ==> !EqIgnoreCase(y.name, name))
    requires Placed(v, v', l, d, x, name, s, new_)
    ensures Inv(v', Installed(l, d, x, new_), (loose - OneStream(new_)) + Streams(x), {}) && DataKept(v, v', l)
  {
    HandInstallable(v, l, loose, d, x, name, s, new_.index, new_.count);
    InstalledMatches(v, v', l, loose, d, x, new_, Remembering(s), skip);
    DirectoryWritten(v, v'.(cache := v.cache), l, d);
  }

  /** The new set goes over the old one; what is left of the old one is taken out of use. */
  method ReplaceSet(disk: Volume, buffer: DirBuffer, x: SetInfo, name: Name, s: Stream, ghost l: Layout, ghost d: nat)
    returns (ghost new_: SetInfo)
    requires Shape(disk.V()) && WholeBuffer(disk.V(), l, d, buffer) && Distinct(buffer.chain)
    requires DirHolds(buffer.entries, l.live[d]) && x in l.live[d] && EqIgnoreCase(x.name, name) && PlainName(name)
             && StreamFits(s)
    modifies disk
    ensures Placed(old(disk.V()), disk.V(), l, d, {x}, name, s, new_)
  {
    var built := BuildEntrySet(name, s);
    var es := built.value;
    LiveSetStands(buffer.entries, x);
    RoomToReplace(buffer.entries, x.index, name, |es|);
    var entries := Splice(buffer.entries, x.index, es);
    entries := MarkEntrySetInactive(entries, x.index + |es|, x.count - |es|);
    ReplaceEdit(buffer.entries, x, es, name, s, entries);
    new_ := ParsedForm(x.index, name, s, |es|);
    WriteBack(disk, buffer.chain, entries, s);
  }

  /** The new set goes into the first run of free entries. */
  method InsertSet(disk: Volume, chain: seq<nat>, entries: Dir, slot: nat, name: Name, s: Stream, ghost l: Layout,
                   ghost d: nat) returns (ghost new_: SetInfo)
    requires Shape(disk.V()) && d in l.chains && d in l.live && InHeap(disk.V(), chain) && chain == l.chains[d]
             && Distinct(chain)
    requires |entries| == disk.entriesPerCluster * |chain| && DirHolds(entries, l.live[d]) && PlainName(name)
             && StreamFits(s)
    requires RequiredEntryCount(|name|).Some?
             && FirstFit(Table(entries), 0, RequiredEntryCount(|name|).value) == Some(slot)
    modifies disk
    ensures Placed(old(disk.V()), disk.V(), l, d, {}, name, s, new_)
  {
    var built := BuildEntrySet(name, s);
    var es := built.value;
    FirstFitIsFirst(Table(entries), 0, |es|);
    var entries' := Splice(entries, slot, es);
    InsertEdit(entries, slot, es, name, s, entries');
    new_ := ParsedForm(slot, name, s, |es|);
    WriteBack(disk, chain, entries', s);
    assert l.live[d] - {} + {new_} == l.live[d] + {new_};
  }

  // ---- Room ---------------------------------------------------------------------------------------

  /** The engine reads 1024 clusters of a directory at most; a set put behind them would be lost. */
  ghost predicate RoomFor(v: Vol, l: Layout, d: nat, name: Name) {
    && d in l.chains && InHeap(v, l.chains[d]) && RequiredEntryCount(|name|).Some?
    && var t := Table(Contents(v.heap, l.chains[d]));
       |l.chains[d]| < MAX_DIR_CLUSTERS || Find(t, 0, name).Some?
           || FirstFit(t, 0, RequiredEntryCount(|name|).value).Some?
  }

  /** How many free entries stand at the end of a directory. */
  function TrailingFree(d: Dir): (n: nat)
    ensures n <= |d|
  {
    if d == [] || !IsFree(d[|d| - 1][0]) then 0 else 1 + TrailingFree(d[..|d| - 1])
  }

  lemma {:induction false} TrailingIs(d: Dir)
    ensures forall j :: |d| - TrailingFree(d) <= j < |d| ==> IsFree(d[j][0])
    ensures TrailingFree(d) < |d| ==> !IsFree(d[|d| - TrailingFree(d) - 1][0])
    decreases |d|
  {
    if d != [] && IsFree(d[|d| - 1][0]) { TrailingIs(d[..|d| - 1]); }
  }

  lemma WindowsSame(d: Dir, rest: Dir, s: nat, n: nat)
    requires s + n <= |d|
    ensures FreeWindow(Table(d + rest), s, n) <==> FreeWindow(Table(d), s, n)
  {
    var t, t' := Table(d), Table(d + rest);
    forall j | s <= j < s + n ensures t'[j].kind == t[j].kind {
      TableAt(d, j);
      TableAt(d + rest, j);
    }
  }

  /** A cluster of zeros makes room exactly when the free entries before it make up for what it lacks. */
  lemma FreshRoom(d: Dir, m: nat, needed: nat)
    requires 0 < needed && FirstFit(Table(d), 0, needed).None?
    ensures FirstFit(Table(d + ZeroEntries(m)), 0, needed).Some? <==> needed <= TrailingFree(d) + m
  {
    var zeros := ZeroEntries(m);
    var t, t', k := Table(d), Table(d + zeros), TrailingFree(d);
    TrailingIs(d);
    FirstFitIsFirst(t, 0, needed);
    FirstFitIsFirst(t', 0, needed);
    if needed <= k + m {
      assert FreeWindow(t', |d| - k, needed);
    } else {
      forall s' | 0 <= s' ensures !FreeWindow(t', s', needed) {
        if s' + needed <= |d| {
          WindowsSame(d, zeros, s', needed);
        } else if k < |d| && s' <= |d| - k - 1 {
          WindowAvoids(t', s', needed, |d| - k - 1);
        }
      }
    }
  }

  /** The grown buffer still holds the directory's sets. */
  lemma GrownBuffer(d: Dir, live: set<SetInfo>, m: nat)
    requires DirHolds(d, live)
    ensures DirHolds(d + ZeroEntries(m), live)
  {
    var d' := d + ZeroEntries(m);
    forall j | |d| <= j < |d'| ensures d'[j][0] == 0 { assert d'[j] == ZeroEntries(m)[j - |d|]; }
    GrowEdit(d, d');
  }

  // ---- The operation --------------------------------------------------------------------------------

  /**
    How growing directory `d`, which holds `entries`, for a set of `needed` entries ends when `spare`
    clusters are free.
   */
  ghost function GrowthError(v: Vol, l: Layout, d: nat, entries: Dir, needed: nat, spare: nat): (e: Option<Error>) {
    if spare == 0 then Some(NoFreeClusters)
    else if !SureToGrow(v, l, d) then Some(MetadataNotFound)
    else if TrailingFree(entries) + v.entriesPerCluster < needed then Some(DirectoryFull)
    else None
  }

  /** How installing a set ends, each reason something the caller can check beforehand. */
  ghost function InstallError(v: Vol, l: Layout, d: nat, name: Name, isDirectory: bool, replace: bool,
                              spare: nat): (e: Option<Error>)
    requires d in l.chains && InHeap(v, l.chains[d]) && RequiredEntryCount(|name|).Some?
  {
    var entries, needed := Contents(v.heap, l.chains[d]), RequiredEntryCount(|name|).value;
    var existing := Find(Table(entries), 0, name);
    if existing.Some? then
      if !replace then Some(if existing.value.isDirectory == isDirectory then AlreadyExists else WrongType)
      else if existing.value.isDirectory then Some(IsDirectory) else None
    else if FirstFit(Table(entries), 0, needed).Some? then None
    else GrowthError(v, l, d, entries, needed, spare)
  }

  function Base(l: Layout, d: nat, grew: Option<nat>): (r: Layout) {
    if grew.Some? && d in l.chains then Grown(l, d, grew.value) else l
  }

  /** The directory, grown by a cluster if need be, has given up the old set and received the new one. */
  ghost predicate InstalledAs(v: Vol, v': Vol, l: Layout, loose: set<nat>, d: nat, name: Name, s: Stream,
                              old_: Option<SetInfo>, new_: SetInfo, grew: Option<nat>) {
    var base := Base(l, d, grew);
    && d in l.live && d in base.live && d in base.depth && base.live[d] == l.live[d]
    && (old_.Some? ==>
        grew.None? && old_.value in l.live[d] && !old_.value.isDirectory && EqIgnoreCase(old_.value.name, name))
    && (old_.None? ==> forall y :: y in l.live[d] ==> !EqIgnoreCase(y.name, name))
    && new_ == ParsedForm(new_.index, name, s, new_.count)
    && Inv(v', Installed(base, d, AsSet(old_), new_), (loose - OneStream(new_)) + Streams(AsSet(old_)), {})
    && DataKept(v, v', l)
  }

  /** The stream in hand is still in hand after the directory has grown. */
  lemma InHandGrown(v: Vol, v': Vol, l: Layout, loose: set<nat>, s: Stream, d: nat, c: nat)
    requires Inv(v, l, loose, {}) && InHand(v, l, loose, s) && d in l.depth && DataKept(v, v', l)
    ensures InHand(v', Grown(l, d, c), loose, s)
  {
    if s.isDirectory {
      var chain := l.chains[s.firstCluster];
      assert ChainOwned(l, s.firstCluster);
      forall i | 0 <= i < |chain| ensures v.heap[chain[i]] == v'.heap[chain[i]] {
        assert chain[i] in chain && DataCluster(l, chain[i]);
      }
      ContentsLocal(v.heap, v'.heap, chain);
    }
  }

  lemma GrownKeepsOwn(l: Layout, loose: set<nat>, d: nat, c: nat)
    requires Sound(l, loose) && d in l.depth
    ensures Grown(l, d, c).live.Keys == l.live.Keys && Grown(l, d, c).depth == l.depth
            && Grown(l, d, c).live[d] == l.live[d]
    ensures Grown(l, d, c).chains[d] == l.chains[d] + [c]
  {
    if d in l.ref { ParentDiffers(l, loose, d); }
  }

  lemma DataKeptTwice(v: Vol, v1: Vol, v2: Vol, l: Layout, d: nat, c: nat)
    requires DataKept(v, v1, l) && d in l.chains && d in l.depth && DataKept(v1, v2, Grown(l, d, c)) && c !in l.owner
    ensures DataKept(v, v2, l)
  {
    forall e: nat | DataCluster(l, e) && e < |v.heap| ensures v2.heap[e] == v.heap[e] {
      assert DataCluster(Grown(l, d, c), e);
    }
  }

  method InstallOver(disk: Volume, buffer: DirBuffer, x: SetInfo, name: Name, s: Stream, ghost l: Layout,
                     ghost loose: set<nat>, ghost d: nat)
    returns (ghost new_: SetInfo)
    requires Inv(disk.V(), l, loose, {}) && d in l.depth && WholeBuffer(disk.V(), l, d, buffer)
             && DirHolds(buffer.entries, l.live[d])
    requires x in l.live[d] && EqIgnoreCase(x.name, name) && !x.isDirectory
    requires PlainName(name) && NotDotName(name) && InHand(disk.V(), l, loose, s)
    modifies disk
    ensures InstalledAs(old(disk.V()), disk.V(), l, loose, d, name, s, Some(x), new_, None)
  {
    assert ChainOwned(l, d);
    new_ := ReplaceSet(disk, buffer, x, name, s, l, d);
    assert NamesOk(l.live[d]);
    OnlyOne(l.live[d], x, name);
    PlacedMatches(old(disk.V()), disk.V(), l, loose, d, {x}, name, s, new_, {});
  }

  method InstallFree(disk: Volume, buffer: DirBuffer, slot: nat, name: Name, s: Stream, ghost l: Layout,
                     ghost loose: set<nat>, ghost d: nat)
    returns (ghost new_: SetInfo)
    requires Inv(disk.V(), l, loose, {}) && d in l.depth && WholeBuffer(disk.V(), l, d, buffer)
             && DirHolds(buffer.entries, l.live[d])
    requires PlainName(name) && NotDotName(name) && InHand(disk.V(), l, loose, s)
    requires forall y :: y in l.live[d] ==> !EqIgnoreCase(y.name, name)
    requires RequiredEntryCount(|name|).Some?
             && FirstFit(Table(buffer.entries), 0, RequiredEntryCount(|name|).value) == Some(slot)
    modifies disk
    ensures InstalledAs(old(disk.V()), disk.V(), l, loose, d, name, s, None, new_, None)
  {
    assert ChainOwned(l, d);
    new_ := InsertSet(disk, buffer.chain, buffer.entries, slot, name, s, l, d);
    PlacedMatches(old(disk.V()), disk.V(), l, loose, d, {}, name, s, new_, {});
  }

  lemma GrownPlaced(v: Vol, w: Vol, v': Vol, l: Layout, loose: set<nat>, d: nat, c: nat, name: Name, s: Stream,
                    new_: SetInfo)
    requires Inv(v, l, loose, {}) && d in l.depth && InHand(v, l, loose, s) && DataKept(v, w, l) && c !in l.owner
    requires Inv(w, Grown(l, d, c), loose, {d}) && NotDotName(name)
             && forall y :: y in l.live[d] ==> !EqIgnoreCase(y.name, name)
    requires Placed(w, v', Grown(l, d, c), d, {}, name, s, new_)
    ensures InstalledAs(v, v', l, loose, d, name, s, None, new_, Some(c))
  {
    GrownReady(v, w, l, loose, d, c, name, s);
    PlacedInFree(w, v', Grown(l, d, c), loose, d, name, s, new_);
    DataKeptTwice(v, w, v', l, d, c);
    InstalledInGrown(v, v', l, loose, d, c, name, s, new_);
  }

  /** What the directory and the stream are to the volume with one cluster more. */
  lemma GrownReady(v: Vol, w: Vol, l: Layout, loose: set<nat>, d: nat, c: nat, name: Name, s: Stream)
    requires Inv(v, l, loose, {}) && d in l.depth && InHand(v, l, loose, s) && DataKept(v, w, l)
    requires forall y :: y in l.live[d] ==> !EqIgnoreCase(y.name, name)
    ensures d in Grown(l, d, c).depth && d in Grown(l, d, c).live && InHand(w, Grown(l, d, c), loose, s)
    ensures Grown(l, d, c).live[d] == l.live[d]
  {
    GrownKeepsOwn(l, loose, d, c);
    InHandGrown(v, w, l, loose, s, d, c);
  }

  lemma InstalledInGrown(v: Vol, v': Vol, l: Layout, loose: set<nat>, d: nat, c: nat, name: Name, s: Stream,
                         new_: SetInfo)
    requires d in l.live && d in l.chains
    requires d in Grown(l, d, c).depth && d in Grown(l, d, c).live && Grown(l, d, c).live[d] == l.live[d]
    requires (forall y :: y in l.live[d] ==> !EqIgnoreCase(y.name, name))
             && new_ == ParsedForm(new_.index, name, s, new_.count)
    requires Inv(v', Installed(Grown(l, d, c), d, AsSet(None), new_), (loose - OneStream(new_)) + Streams(AsSet(None)),
             {})
             && DataKept(v, v', l)
    ensures InstalledAs(v, v', l, loose, d, name, s, None, new_, Some(c))
  {
  }

  /** A set placed in free entries of a directory that has just grown. */
  lemma PlacedInFree(w: Vol, v': Vol, g: Layout, loose: set<nat>, d: nat, name: Name, s: Stream, new_: SetInfo)
    requires Inv(w, g, loose, {d}) && d in g.depth && InHand(w, g, loose, s) && NotDotName(name)
    requires (forall y :: y in g.live[d] ==> !EqIgnoreCase(y.name, name)) && Placed(w, v', g, d, {}, name, s, new_)
    ensures Inv(v', Installed(g, d, AsSet(None), new_), (loose - OneStream(new_)) + Streams(AsSet(None)), {})
            && DataKept(w, v', g)
    ensures new_ == ParsedForm(new_.index, name, s, new_.count)
  {
    PlacedMatches(w, v', g, loose, d, {}, name, s, new_, {d});
  }

  lemma GrownChain(w: Vol, l: Layout, loose: set<nat>, d: nat, c: nat)
    requires d in l.depth && d in l.chains && Inv(w, Grown(l, d, c), loose, {d})
    ensures d in Grown(l, d, c).live && InHeap(w, l.chains[d] + [c]) && Distinct(l.chains[d] + [c])
  {
    assert ChainOwned(Grown(l, d, c), d);
    ChainInHeap(w, Grown(l, d, c), loose, {d}, d);
  }

  /** A cluster is added to the directory and searched, with the rest, for free entries. */
  method GrowFor(disk: Volume, buffer: DirBuffer, d: nat, needed: nat, ghost l: Layout, ghost loose: set<nat>)
    returns (r: Result<DirBuffer>, slot: nat, ghost c: nat)
    requires Inv(disk.V(), l, loose, {}) && d in l.depth && |l.chains[d]| < MAX_DIR_CLUSTERS && needed > 0
    requires WholeBuffer(disk.V(), l, d, buffer) && FirstFit(Table(buffer.entries), 0, needed).None?
    modifies disk
    ensures r.Ok? ==> GrownUnwritten(old(disk.V()), disk.V(), l, loose, d, c)
    ensures r.Ok? ==>
              r.value.chain == l.chains[d] + [c]
              && r.value.entries == buffer.entries + ZeroEntries(disk.entriesPerCluster)
    ensures r.Ok? ==> FirstFit(Table(r.value.entries), 0, needed) == Some(slot)
    ensures GrowthError(old(disk.V()), l, d, buffer.entries, needed, |FreeClusters(old(disk.V()))|)
            == if r.Err? then Some(r.error) else None
    ensures r.Err? ==> HalfGrown(old(disk.V()), disk.V(), l, loose, d, r.error)
    ensures Shape(disk.V())
  {
    slot := 0;
    r, c := ExtendDirectory(disk, d, buffer, l, loose);
    if r.Err? { return; }
    var found := FindGrown(buffer.entries, r.value.entries, disk.entriesPerCluster, needed);
    if found.None? { return Err(DirectoryFull), slot, c; }
    slot := found.value;
  }

  /** The search in the grown directory. */
  method FindGrown(entries: Dir, grown: Dir, ghost m: nat, needed: nat) returns (r: Option<nat>)
    requires 0 < needed && FirstFit(Table(entries), 0, needed).None? && grown == entries + ZeroEntries(m)
    ensures r == FirstFit(Table(grown), 0, needed) && (r.Some? <==> needed <= TrailingFree(entries) + m)
  {
    FreshRoom(entries, m, needed);
    r := FindFreeEntryRun(grown, needed);
  }

  /** A cluster is added to the directory, and the set goes into the first free entries. */
  method InstallGrown(disk: Volume, buffer: DirBuffer, name: Name, s: Stream, d: nat, ghost l: Layout,
                      ghost loose: set<nat>)
    returns (r: Result<Option<SetInfo>>, ghost new_: SetInfo, ghost c: nat)
    requires Inv(disk.V(), l, loose, {}) && d in l.depth && |l.chains[d]| < MAX_DIR_CLUSTERS
    requires WholeBuffer(disk.V(), l, d, buffer) && DirHolds(buffer.entries, l.live[d])
    requires PlainName(name) && NotDotName(name) && InHand(disk.V(), l, loose, s)
    requires forall y :: y in l.live[d] ==> !EqIgnoreCase(y.name, name)
    requires FirstFit(Table(buffer.entries), 0, RequiredEntryCount(|name|).value).None?
    modifies disk
    ensures r.Ok? ==> r.value.None? && InstalledAs(old(disk.V()), disk.V(), l, loose, d, name, s, None, new_, Some(c))
    ensures GrowthError(old(disk.V()), l, d, buffer.entries, RequiredEntryCount(|name|).value,
            |FreeClusters(old(disk.V()))|)
         == if r.Err? then Some(r.error) else None
    ensures r.Err? ==> HalfGrown(old(disk.V()), disk.V(), l, loose, d, r.error)
    ensures Shape(disk.V())
  {
    ghost var v := disk.V();
    new_ := ParsedForm(0, name, s, 0);
    var grown, slot;
    grown, slot, c := GrowFor(disk, buffer, d, RequiredEntryCount(|name|).value, l, loose);
    if grown.Err? { return Err(grown.error), new_, c; }
    OneMore(disk.entriesPerCluster, |l.chains[d]|);
    new_ := InsertInGrown(disk, buffer.entries, grown.value, slot, name, s, d, v, l, loose, c);
    return Ok(None), new_, c;
  }

  /** The set goes into free entries of the directory that has just grown by cluster `c`. */
  method InsertInGrown(disk: Volume, ghost entries: Dir, grown: DirBuffer, slot: nat, name: Name, s: Stream, d: nat,
                       ghost v: Vol, ghost l: Layout, ghost loose: set<nat>, ghost c: nat)
    returns (ghost new_: SetInfo)
    requires Inv(v, l, loose, {}) && d in l.depth && InHand(v, l, loose, s) && DirHolds(entries, l.live[d])
    requires PlainName(name) && NotDotName(name) && forall y :: y in l.live[d] ==> !EqIgnoreCase(y.name, name)
    requires GrownUnwritten(v, disk.V(), l, loose, d, c) && grown.chain == l.chains[d] + [c]
    requires grown.entries == entries + ZeroEntries(disk.entriesPerCluster)
             && |grown.entries| == disk.entriesPerCluster * |grown.chain|
    requires FirstFit(Table(grown.entries), 0, RequiredEntryCount(|name|).value) == Some(slot)
    modifies disk
    ensures InstalledAs(v, disk.V(), l, loose, d, name, s, None, new_, Some(c)) && Shape(disk.V())
  {
    ghost var w := disk.V();
    assert d in Grown(l, d, c).live && Grown(l, d, c).live[d] == l.live[d] by { GrownKeepsOwn(l, loose, d, c); }
    GrownChain(w, l, loose, d, c);
    GrownBuffer(entries, l.live[d], disk.entriesPerCluster);
    new_ := InsertSet(disk, grown.chain, grown.entries, slot, name, s, Grown(l, d, c), d);
    GrownPlaced(v, w, disk.V(), l, loose, d, c, name, s, new_);
  }

  lemma OneMore(m: nat, k: nat)
    ensures m * (k + 1) == m * k + m
  {
  }

  /** There is no set of that name yet. */
  method InstallNew(disk: Volume, buffer: DirBuffer, name: Name, s: Stream, d: nat, ghost l: Layout,
                    ghost loose: set<nat>)
    returns (r: Result<Option<SetInfo>>, ghost new_: SetInfo, ghost grew: Option<nat>)
    requires Inv(disk.V(), l, loose, {}) && d in l.depth && RoomFor(disk.V(), l, d, name)
    requires WholeBuffer(disk.V(), l, d, buffer) && DirHolds(buffer.entries, l.live[d])
             && Find(Table(buffer.entries), 0, name).None?
    requires PlainName(name) && NotDotName(name) && InHand(disk.V(), l, loose, s)
    requires forall y :: y in l.live[d] ==> !EqIgnoreCase(y.name, name)
    modifies disk
    ensures r.Ok? ==> r.value.None? && InstalledAs(old(disk.V()), disk.V(), l, loose, d, name, s, None, new_, grew)
    ensures r.Ok? ==> (grew.None? <==> FirstFit(Table(buffer.entries), 0, RequiredEntryCount(|name|).value).Some?)
    ensures InstallError(old(disk.V()), l, d, name, s.isDirectory, true, |FreeClusters(old(disk.V()))|)
            == if r.Err? then Some(r.error) else None
    ensures r.Err? ==> HalfGrown(old(disk.V()), disk.V(), l, loose, d, r.error)
    ensures Shape(disk.V())
  {
    var slot := FindFreeEntryRun(buffer.entries, RequiredEntryCount(|name|).value);
    if slot.Some? {
      new_ := InstallFree(disk, buffer, slot.value, name, s, l, loose, d);
      return Ok(None), new_, None;
    }
    ghost var c;
    r, new_, c := InstallGrown(disk, buffer, name, s, d, l, loose);
    grew := Some(c);
  }

  /** The directory is read and searched for the name. */
  method OpenAndFind(disk: Volume, dirCluster: nat, name: Name, ghost l: Layout, ghost loose: set<nat>)
    returns (buffer: DirBuffer, existing: Option<SetInfo>)
    requires Inv(disk.V(), l, loose, {})
    requires var d := NormalizedDir(disk.V(), dirCluster); d in l.depth && Visible(disk.V(), l, d)
    ensures var d := NormalizedDir(disk.V(), dirCluster);
            WholeBuffer(disk.V(), l, d, buffer) && DirHolds(buffer.entries, l.live[d])
    ensures existing == Find(Table(buffer.entries), 0, name)
    ensures var d := NormalizedDir(disk.V(), dirCluster);
            if existing.Some? then existing.value in l.live[d] && EqIgnoreCase(existing.value.name, name)
            else forall y :: y in l.live[d] ==> !EqIgnoreCase(y.name, name)
  {
    var read := ReadDir(disk, dirCluster);
    ReadVisible(disk.V(), l, loose, NormalizedDir(disk.V(), dirCluster), read);
    buffer := read.value;
    existing := FindEntrySetByName(buffer.entries, name);
    FindIsLookup(Table(buffer.entries), 0, name);
  }

  /**
    `exfat_install_entry_set`. A set of the same name always has room for the new one, so the
    search for another place when it has not (lines 3699-3707) never happens.
   */
  method InstallEntrySet(disk: Volume, dirCluster: nat, name: Name, s: Stream, replace: bool, ghost l: Layout,
                         ghost loose: set<nat>)
    returns (r: Result<Option<SetInfo>>, ghost new_: SetInfo, ghost grew: Option<nat>)
    requires Inv(disk.V(), l, loose, {}) && PlainName(name) && NotDotName(name) && InHand(disk.V(), l, loose, s)
    requires var d := NormalizedDir(disk.V(), dirCluster);
             d in l.depth && Visible(disk.V(), l, d) && RoomFor(disk.V(), l, d, name)
    modifies disk
    ensures var d := NormalizedDir(old(disk.V()), dirCluster);
            r.Ok? ==> InstalledAs(old(disk.V()), disk.V(), l, loose, d, name, s, r.value, new_, grew)
    ensures r.Err? ==> HalfGrown(old(disk.V()), disk.V(), l, loose, NormalizedDir(old(disk.V()), dirCluster), r.error)
    ensures InstallError(old(disk.V()), l, NormalizedDir(old(disk.V()), dirCluster), name, s.isDirectory, replace,
            |FreeClusters(old(disk.V()))|)
         == if r.Err? then Some(r.error) else None
    ensures Shape(disk.V())
  {
    new_, grew := ParsedForm(0, name, s, 0), None;
    var d := if dirCluster >= 2 then dirCluster else disk.root;
    var buffer, existing := OpenAndFind(disk, dirCluster, name, l, loose);
    if existing.Some? {
      if !replace {
        return Err(if existing.value.isDirectory == s.isDirectory then AlreadyExists else WrongType), new_, grew;
      }
      if existing.value.isDirectory { return Err(IsDirectory), new_, grew; }
      new_ := InstallOver(disk, buffer, existing.value, name, s, l, loose, d);
      return Ok(existing), new_, grew;
    }
    r, new_, grew := InstallNew(disk, buffer, name, s, d, l, loose);
  }
}
