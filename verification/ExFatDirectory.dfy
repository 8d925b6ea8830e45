/**
  Directory buffers: finding a set by name, finding room for a set, taking a set out of use,
  installing and refreshing sets. The lemmas say what each edit does to the live sets, that a
  well-formed directory stays well formed, and that stored checksums stay right.
 */
module ExFatDirectory {
  import opened Bytes
  import opened ExFatEntrySet
  import opened ExFatParse
  import opened ExFatScan

  type Dir = seq<Entry>

  /** The cells of the first `n` entries. */
  function CellsUpTo(d: Dir, n: nat): (t: seq<Cell>)
    requires n <= |d|
    ensures |t| == n
    ensures forall i {:trigger t[i].kind} :: 0 <= i < n ==> t[i].kind == d[i][0]
  {
    if n == 0 then [] else CellsUpTo(d, n - 1) + [Cell(d[n - 1][0], ParseAt(d, n - 1))]
  }

  lemma {:induction false} CellParsed(d: Dir, n: nat, i: nat)
    requires i < n <= |d|
    ensures CellsUpTo(d, n)[i].parsed == ParseAt(d, i)
    decreases n
  {
    if i < n - 1 { CellParsed(d, n - 1, i); }
  }

  function Table(d: Dir): (t: seq<Cell>)
    ensures |t| == |d| && Cells(t)
    ensures forall i {:trigger t[i].kind} :: 0 <= i < |d| ==> t[i].kind == d[i][0]
  {
    assert forall i :: 0 <= i < |d| ==> CellsUpTo(d, |d|)[i].parsed == ParseAt(d, i) by {
      forall i | 0 <= i < |d| ensures CellsUpTo(d, |d|)[i].parsed == ParseAt(d, i) { CellParsed(d, |d|, i); }
    }
    CellsUpTo(d, |d|)
  }

  lemma TableAt(d: Dir, i: nat)
    requires i < |d|
    ensures Table(d)[i].parsed == ParseAt(d, i)
  {
    CellParsed(d, |d|, i);
  }

  /** The sets a walk of the whole directory finds. */
  ghost function LiveSets(d: Dir): (live: set<SetInfo>) { Live(Table(d), 0) }

  ghost predicate WellFormedDir(d: Dir) { WellFormed(Table(d), 0) }

  ghost predicate ChecksumsOk(d: Dir) {
    forall x :: x in LiveSets(d) ==> ChecksumOk(d, x.index, x.count)
  }

  // ---- Lookup ----------------------------------------------------------------------------

  method FindEntrySetByName(d: Dir, name: Name) returns (r: Option<SetInfo>)
    ensures r == Find(Table(d), 0, name)
  {
    var idx := 0;
    while idx < |d|
      invariant 0 <= idx <= |d|
      invariant Find(Table(d), 0, name) == Find(Table(d), idx, name)
    {
      var kind := d[idx][0];
      TableAt(d, idx);
      if kind == 0 { return None; }
      if kind == FILE_ENTRY {
        var parsed := ParseEntrySetAt(d, idx);
        if parsed.Some? {
          var next := idx + parsed.value.count;
          if EqIgnoreCase(parsed.value.name, name) { return parsed; }
          idx := next;
          continue;
        }
      }
      idx := idx + 1;
    }
    return None;
  }

  // ---- Room for a set --------------------------------------------------------------------

  /** The first of the windows of `n` free entries that start at `s` or later. */
  ghost function FirstFit(t: seq<Cell>, s: nat, n: nat): (r: Option<nat>)
    decreases |t| - s
  {
    if s + n > |t| then None
    else if FreeWindow(t, s, n) then Some(s)
    else if s == |t| then None
    else FirstFit(t, s + 1, n)
  }

  lemma {:induction false} FirstFitIsFirst(t: seq<Cell>, s: nat, n: nat)
    ensures FirstFit(t, s, n).Some? ==>
              var r := FirstFit(t, s, n).value;
              s <= r && FreeWindow(t, r, n) && forall s' :: s <= s' < r ==> !FreeWindow(t, s', n)
    ensures FirstFit(t, s, n).None? ==> forall s' :: s <= s' ==> !FreeWindow(t, s', n)
    decreases |t| - s
  {
    if s + n <= |t| && !FreeWindow(t, s, n) && s != |t| { FirstFitIsFirst(t, s + 1, n); }
  }

  /** The one-pass search for a run of free entries finds the first window. */
  method FindFreeEntryRun(d: Dir, needed: nat) returns (r: Option<nat>)
    ensures needed == 0 ==> r == None
    ensures needed > 0 ==> r == FirstFit(Table(d), 0, needed)
  {
    if needed == 0 { return None; }
    ghost var t := Table(d);
    var runStart, runLen := 0, 0;
    for idx := 0 to |d|
      invariant runLen < needed && runLen <= idx
      invariant runLen > 0 ==> runStart == idx - runLen
      invariant FreeRun(t, idx - runLen, idx)
      invariant idx - runLen > 0 ==> !IsFree(t[idx - runLen - 1].kind)
      invariant forall s' :: 0 <= s' < idx - runLen ==> !FreeWindow(t, s', needed)
    {
      var kind := d[idx][0];
      if IsFree(kind) {
        if runLen == 0 { runStart := idx; }
        runLen := runLen + 1;
        if runLen >= needed {
          assert FreeWindow(t, runStart, needed);
          FirstFitIsFirst(t, 0, needed);
          return Some(runStart);
        }
      } else {
        forall s' | 0 <= s' < idx + 1 ensures !FreeWindow(t, s', needed) {
          if idx - runLen <= s' { WindowAvoids(t, s', needed, idx); }
        }
        runLen := 0;
      }
    }
    forall s' | 0 <= s' ensures !FreeWindow(t, s', needed) {}
    FirstFitIsFirst(t, 0, needed);
    return None;
  }

  // ---- Taking entries out of use ----------------------------------------------------------

  function OutOfUse(e: Entry): (r: Entry) {
    if e[0] != 0 then e[0 := e[0] % 0x80] else e
  }

  function MarkInactive(d: Dir, i: nat, count: nat): (r: Dir)
    ensures |r| == |d|
    ensures forall j :: 0 <= j < |d| ==> r[j] == if i <= j < i + count then OutOfUse(d[j]) else d[j]
  {
    seq(|d|, j requires 0 <= j < |d| => if i <= j < i + count then OutOfUse(d[j]) else d[j])
  }

  method MarkEntrySetInactive(d: Dir, entryIndex: nat, entryCount: nat) returns (r: Dir)
    ensures r == MarkInactive(d, entryIndex, entryCount)
  {
    r := d;
    var idx := 0;
    while idx < entryCount
      invariant 0 <= idx <= entryCount && |r| == |d|
      invariant r == MarkInactive(d, entryIndex, idx)
    {
      var at := entryIndex + idx;
      if at < |r| && r[at][0] != 0 {
        r := r[at := r[at][0 := r[at][0] % 0x80]];
      }
      idx := idx + 1;
    }
  }

  // ---- What an edit leaves alone ----------------------------------------------------------

  lemma AgreeBelowOf(d: Dir, d': Dir, lo: nat)
    requires |d| == |d'| && SameEntries(d, d', 0, lo)
    ensures AgreeBelow(Table(d), Table(d'), lo)
  {
    var t, t' := Table(d), Table(d');
    forall j | 0 <= j < lo && t[j].parsed.Some? && j + t[j].parsed.value.count <= lo
        ensures t'[j].parsed == t[j].parsed {
      TableAt(d, j);
      TableAt(d', j);
      ParseLocal(d, d', j, t[j].parsed.value);
    }
  }

  lemma AgreeFromOf(d: Dir, d': Dir, hi: nat)
    requires |d| == |d'| && SameEntries(d, d', hi, |d|)
    ensures AgreeFrom(Table(d), Table(d'), hi)
  {
    var t, t' := Table(d), Table(d');
    forall j | hi <= j < |d| ensures t'[j].parsed == t[j].parsed {
      TableAt(d, j);
      TableAt(d', j);
      if t[j].parsed.Some? { ParseLocal(d, d', j, t[j].parsed.value); }
      if t'[j].parsed.Some? { ParseLocal(d', d, j, t'[j].parsed.value); }
    }
  }

  /** One region of a directory is rewritten: before and behind it nothing changes. */
  ghost predicate OneRegion(d: Dir, d': Dir, lo: nat, hi: nat) {
    |d| == |d'| && lo <= hi && SameEntries(d, d', 0, lo) && hi <= |d| && SameEntries(d, d', hi, |d|)
  }

  /** Sets outside the rewritten region keep their checksums. */
  lemma ChecksumsKept(d: Dir, d': Dir, lo: nat, hi: nat, x: set<SetInfo>, x': set<SetInfo>)
    requires ChecksumsOk(d) && OneRegion(d, d', lo, hi)
    requires LiveSets(d') == (LiveSets(d) - x) + x'
    requires forall i :: i in LiveSets(d) - x ==> i.index + i.count <= lo || hi <= i.index
    requires forall i :: i in x' ==> ChecksumOk(d', i.index, i.count)
    ensures ChecksumsOk(d')
  {
    forall i | i in LiveSets(d') ensures ChecksumOk(d', i.index, i.count) {
      if i !in x' {
        assert ChecksumOk(d, i.index, i.count);
        ChecksumLocal(d, i.index, d', i.index, i.count);
      }
    }
  }

  /** The cells around a rewritten region are as before. */
  lemma CellsAround(d: Dir, d': Dir, lo: nat, hi: nat)
    requires OneRegion(d, d', lo, hi)
    ensures AgreeBelow(Table(d), Table(d'), lo) && AgreeFrom(Table(d), Table(d'), hi)
  {
    AgreeBelowOf(d, d', lo);
    AgreeFromOf(d, d', hi);
  }

  /** Where a live set stands: the parser finds it there, and all its entries are in use. */
  lemma LiveSetStands(d: Dir, x: SetInfo)
    requires WellFormedDir(d) && x in LiveSets(d)
    ensures x.count >= 3 && x.index + x.count <= |d| && ParseAt(d, x.index) == Some(x)
    ensures forall j :: x.index <= j < x.index + x.count ==> d[j][0] > 0x80
    ensures SecondariesInUse(Table(d), x.index + 1, x.index + x.count)
  {
    LiveSetHolds(Table(d), x);
    TableAt(d, x.index);
    forall j | x.index <= j < x.index + x.count ensures d[j][0] > 0x80 { assert Table(d)[j].kind == d[j][0]; }
  }

  // ---- Edits of a live set ------------------------------------------------------------------

  /** A live set's region is rewritten to hold `new_` (or nothing) and entries out of use. */
  lemma ExchangeEdit(d: Dir, x: SetInfo, new_: Option<SetInfo>, d': Dir)
    requires WellFormedDir(d) && x in LiveSets(d) && OneRegion(d, d', x.index, x.index + x.count)
    requires HoldsAt(Table(d'), x.index, x.index + x.count, new_)
    requires new_.Some? ==> ChecksumOk(d', new_.value.index, new_.value.count)
    ensures WellFormedDir(d') && LiveSets(d') == LiveSets(d) - {x} + AsSet(new_)
    ensures ChecksumsOk(d) ==> ChecksumsOk(d')
  {
    CellsAround(d, d', x.index, x.index + x.count);
    Exchange(Table(d), Table(d'), x, new_);
    if ChecksumsOk(d) { ChecksumsKept(d, d', x.index, x.index + x.count, {x}, AsSet(new_)); }
  }

  /** Entries in use that are taken out of use are free and are no end marker. */
  lemma OutOfUseCells(d: Dir, d': Dir, lo: nat, hi: nat)
    requires lo <= hi <= |d| == |d'| && forall j :: lo <= j < hi ==> d'[j] == OutOfUse(d[j]) && d[j][0] > 0x80
    ensures forall j :: lo <= j < hi ==> IsFree(Table(d')[j].kind) && Table(d')[j].kind != 0
  {
    forall j | lo <= j < hi ensures IsFree(Table(d')[j].kind) && Table(d')[j].kind != 0 {
      assert d'[j] == OutOfUse(d[j]);
    }
  }

  /** Marking a live set inactive removes exactly that set. */
  lemma RemovalEdit(d: Dir, x: SetInfo, d': Dir)
    requires WellFormedDir(d) && x in LiveSets(d) && d' == MarkInactive(d, x.index, x.count)
    ensures WellFormedDir(d') && LiveSets(d') == LiveSets(d) - {x}
    ensures ChecksumsOk(d) ==> ChecksumsOk(d')
  {
    LiveSetStands(d, x);
    OutOfUseCells(d, d', x.index, x.index + x.count);
    ExchangeEdit(d, x, None, d');
  }

  // ---- Placing a set -----------------------------------------------------------------------

  ghost predicate PlacedAt(d: Dir, i: nat, es: seq<Entry>) {
    i + |es| <= |d| && forall j :: 0 <= j < |es| ==> d[i + j] == es[j]
  }

  lemma PlacedKind(d: Dir, i: nat, es: seq<Entry>, name: Name, s: Stream, j: nat)
    requires IsBuiltSet(es, name, s) && PlacedAt(d, i, es) && 1 <= j < |es|
    ensures d[i + j][0] == STREAM_ENTRY || d[i + j][0] == NAME_ENTRY
  {
    assert d[i + j] == es[j];
    if j == 1 {
      assert es[1][0] == StreamByte(s, name, 0);
    } else {
      assert IsNameEntry(es[j], name, j - 0 - 2);
      assert es[j][0] == NameByte(name, j - 2, 0);
    }
  }

  /** The entries of a placed set behind its file entry are in use. */
  lemma PlacedKinds(d: Dir, i: nat, es: seq<Entry>, name: Name, s: Stream)
    requires IsBuiltSet(es, name, s) && PlacedAt(d, i, es)
    ensures SecondariesInUse(Table(d), i + 1, i + |es|)
  {
    forall j | i + 1 <= j < i + |es| ensures Table(d)[j].kind > 0x80 && Table(d)[j].kind != FILE_ENTRY {
      PlacedKind(d, i, es, name, s, j - i);
    }
  }

  /** A placed set is what the parser finds at its place. */
  lemma PlacedSet(d: Dir, i: nat, es: seq<Entry>, name: Name, s: Stream)
    requires PlainName(name) && StreamFits(s) && IsBuiltSet(es, name, s) && PlacedAt(d, i, es)
    ensures |es| >= 3 && Table(d)[i].parsed == Some(ParsedForm(i, name, s, |es|))
    ensures SecondariesInUse(Table(d), i + 1, i + |es|) && ChecksumOk(d, i, |es|)
  {
    EntrySetRoundTrip(d, i, es, name, s);
    PlacedKinds(d, i, es, name, s);
    TableAt(d, i);
  }

  lemma SpliceFrame(d: Dir, i: nat, es: seq<Entry>, d': Dir)
    requires i + |es| <= |d| && d' == Splice(d, i, es)
    ensures OneRegion(d, d', i, i + |es|) && PlacedAt(d', i, es)
  {
  }

  lemma InsertEditAt(d: Dir, new_: SetInfo, d': Dir)
    requires WellFormedDir(d) && FirstFit(Table(d), 0, new_.count) == Some(new_.index)
    requires OneRegion(d, d', new_.index, new_.index + new_.count)
    requires HoldsAt(Table(d'), new_.index, new_.index + new_.count, Some(new_))
             && ChecksumOk(d', new_.index, new_.count)
    ensures WellFormedDir(d') && LiveSets(d') == LiveSets(d) + {new_}
    ensures ChecksumsOk(d) ==> ChecksumsOk(d')
  {
    FirstFitIsFirst(Table(d), 0, new_.count);
    CellsAround(d, d', new_.index, new_.index + new_.count);
    Insertion(Table(d), Table(d'), new_);
    if ChecksumsOk(d) { ChecksumsKept(d, d', new_.index, new_.index + new_.count, {}, {new_}); }
  }

  /** Copying a set into the first window of free entries adds exactly that set. */
  lemma InsertEdit(d: Dir, i: nat, es: seq<Entry>, name: Name, s: Stream, d': Dir)
    requires WellFormedDir(d) && PlainName(name) && StreamFits(s) && IsBuiltSet(es, name, s)
    requires FirstFit(Table(d), 0, |es|) == Some(i) && i + |es| <= |d| && d' == Splice(d, i, es)
    ensures WellFormedDir(d') && LiveSets(d') == LiveSets(d) + {ParsedForm(i, name, s, |es|)}
    ensures ChecksumsOk(d) ==> ChecksumsOk(d')
  {
    SpliceFrame(d, i, es, d');
    PlacedSet(d', i, es, name, s);
    InsertEditAt(d, ParsedForm(i, name, s, |es|), d');
  }

  lemma ReplaceFrame(d: Dir, i: nat, count: nat, es: seq<Entry>, d': Dir)
    requires |es| <= count && i + count <= |d|
    requires d' == MarkInactive(Splice(d, i, es), i + |es|, count - |es|)
    ensures OneRegion(d, d', i, i + count) && PlacedAt(d', i, es)
    ensures forall j :: i + |es| <= j < i + count ==> d'[j] == OutOfUse(d[j])
  {
  }

  /** Copying a set over a live one and taking what is left of the old one out of use exchanges the two. */
  lemma ReplaceEdit(d: Dir, x: SetInfo, es: seq<Entry>, name: Name, s: Stream, d': Dir)
    requires WellFormedDir(d) && x in LiveSets(d) && PlainName(name) && StreamFits(s) && IsBuiltSet(es, name, s)
    requires |es| <= x.count && x.index + |es| <= |d|
    requires d' == MarkInactive(Splice(d, x.index, es), x.index + |es|, x.count - |es|)
    ensures WellFormedDir(d') && LiveSets(d') == LiveSets(d) - {x} + {ParsedForm(x.index, name, s, |es|)}
    ensures ChecksumsOk(d) ==> ChecksumsOk(d')
  {
    LiveSetStands(d, x);
    ReplaceCells(d, x, es, name, s, d');
    ExchangeEdit(d, x, Some(ParsedForm(x.index, name, s, |es|)), d');
  }

  lemma ReplaceCells(d: Dir, x: SetInfo, es: seq<Entry>, name: Name, s: Stream, d': Dir)
    requires PlainName(name) && StreamFits(s) && IsBuiltSet(es, name, s) && |es| <= x.count && x.index + x.count <= |d|
    requires forall j :: x.index < j < x.index + x.count ==> d[j][0] > 0x80
    requires d' == MarkInactive(Splice(d, x.index, es), x.index + |es|, x.count - |es|)
    ensures OneRegion(d, d', x.index, x.index + x.count) && ChecksumOk(d', x.index, |es|)
    ensures HoldsAt(Table(d'), x.index, x.index + x.count, Some(ParsedForm(x.index, name, s, |es|)))
  {
    ReplaceFrame(d, x.index, x.count, es, d');
    PlacedSet(d', x.index, es, name, s);
    OutOfUseCells(d, d', x.index + |es|, x.index + x.count);
  }

  // ---- Refreshing a live set ----------------------------------------------------------------

  lemma RefreshRegion(d: Dir, x: SetInfo, dataLength: nat, validLength: nat, noFatChain: bool, d': Dir)
    requires x.count >= 3 && x.index + x.count <= |d| && x.index < x.streamIndex < x.index + x.count
    requires dataLength < U64 && validLength < U64 && d' == Refreshed(d, x, dataLength, validLength, noFatChain)
    ensures OneRegion(d, d', x.index, x.index + x.count)
    ensures forall j :: x.index < j < x.index + x.count ==> d'[j][0] == d[j][0]
  {
    RefreshedEntries(d, x, dataLength, validLength, noFatChain, d');
  }

  lemma SameKinds(d: Dir, d': Dir, lo: nat, hi: nat)
    requires |d| == |d'| && hi <= |d| && SecondariesInUse(Table(d), lo, hi)
             && forall j :: lo <= j < hi ==> d'[j][0] == d[j][0]
    ensures SecondariesInUse(Table(d'), lo, hi)
  {
    forall j | lo <= j < hi ensures Table(d')[j].kind > 0x80 && Table(d')[j].kind != FILE_ENTRY {
      assert Table(d)[j].kind == d[j][0];
    }
  }

  /** Refreshing a live set changes its lengths and chain flag, and no other set. */
  lemma RefreshEdit(d: Dir, x: SetInfo, dataLength: nat, validLength: nat, noFatChain: bool, d': Dir)
    requires WellFormedDir(d) && x in LiveSets(d) && dataLength < U64 && validLength < U64
    requires x.index + x.count <= |d| && x.index < x.streamIndex < x.index + x.count
    requires d' == Refreshed(d, x, dataLength, validLength, noFatChain)
    ensures WellFormedDir(d')
    ensures LiveSets(d') == LiveSets(d) - {x} + {x.(dataLength := dataLength, validLength := validLength,
                                                    noFatChain := noFatChain && x.firstCluster >= 2)}
    ensures ChecksumsOk(d) ==> ChecksumsOk(d')
  {
    var x' := x.(dataLength := dataLength, validLength := validLength, noFatChain := noFatChain && x.firstCluster >= 2);
    LiveSetStands(d, x);
    RefreshedParses(d, x.index, x, dataLength, validLength, noFatChain, d');
    RefreshRegion(d, x, dataLength, validLength, noFatChain, d');
    SameKinds(d, d', x.index + 1, x.index + x.count);
    TableAt(d', x.index);
    ExchangeEdit(d, x, Some(x'), d');
  }

  // ---- Growing a directory ------------------------------------------------------------------

  /** Zeroed entries appended to a directory add no set. */
  lemma {:induction false} GrownCells(t: seq<Cell>, t': seq<Cell>, i: nat)
    requires Cells(t) && Cells(t') && |t| <= |t'| && WellFormed(t, i) && i <= |t|
    requires forall j :: 0 <= j < |t| ==> t'[j].kind == t[j].kind && (t[j].parsed.Some? ==> t'[j].parsed == t[j].parsed)
    requires forall j :: |t| <= j < |t'| ==> t'[j].kind == 0
    ensures WellFormed(t', i) && Live(t', i) == Live(t, i)
    decreases |t| - i
  {
    if i == |t| || t[i].kind == 0 {
      FreeTail(t', i);
    } else if t[i].parsed.Some? {
      GrownCells(t, t', i + t[i].parsed.value.count);
    } else {
      GrownCells(t, t', i + 1);
    }
  }

  lemma GrowEdit(d: Dir, d': Dir)
    requires WellFormedDir(d) && SameEntries(d, d', 0, |d|) && forall j :: |d| <= j < |d'| ==> d'[j][0] == 0
    ensures WellFormedDir(d') && LiveSets(d') == LiveSets(d)
    ensures ChecksumsOk(d) ==> ChecksumsOk(d')
  {
    var t, t' := Table(d), Table(d');
    forall j | 0 <= j < |t| && t[j].parsed.Some? ensures t'[j].parsed == t[j].parsed {
      TableAt(d, j);
      TableAt(d', j);
      ParseLocal(d, d', j, t[j].parsed.value);
    }
    GrownCells(t, t', 0);
    if ChecksumsOk(d) { GrownChecksums(d, d'); }
  }

  lemma GrownChecksums(d: Dir, d': Dir)
    requires ChecksumsOk(d) && SameEntries(d, d', 0, |d|) && LiveSets(d') == LiveSets(d)
    ensures ChecksumsOk(d')
  {
    forall i | i in LiveSets(d') ensures ChecksumOk(d', i.index, i.count) {
      assert ChecksumOk(d, i.index, i.count);
      ChecksumLocal(d, i.index, d', i.index, i.count);
    }
  }
}
