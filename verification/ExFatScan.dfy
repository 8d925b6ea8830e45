/**
  How the engine walks a directory. A directory is seen as one cell per entry: the entry's type
  byte and what parsing a set at that entry gives. A walk goes from set to set, steps over other
  entries one by one, and stops at the first 0x00. All edits of a directory replace one region
  the walk reaches; `RegionEdit` says what the walk finds afterwards.
 */
module ExFatScan {
  import opened Bytes
  import opened ExFatEntrySet
  import opened ExFatParse

  datatype Cell = Cell(kind: Byte, parsed: Option<SetInfo>)

  /** `exfat_entry_is_free`: never used (0x00) or no longer in use (high bit clear). */
  predicate IsFree(kind: Byte) { kind == 0 || kind < 0x80 }

  ghost predicate Cells(t: seq<Cell>) {
    forall i :: 0 <= i < |t| && t[i].parsed.Some? ==>
      var info := t[i].parsed.value;
      t[i].kind == FILE_ENTRY && info.index == i && info.count >= 3 && i + info.count <= |t|
  }

  // ---- The walk --------------------------------------------------------------------------

  /** The sets a walk from entry `i` finds. */
  ghost function Live(t: seq<Cell>, i: nat): (live: set<SetInfo>)
    requires Cells(t)
    decreases |t| - i
  {
    if i >= |t| || t[i].kind == 0 then {}
    else if t[i].parsed.Some? then {t[i].parsed.value} + Live(t, i + t[i].parsed.value.count)
    else Live(t, i + 1)
  }

  /** The first set from entry `i` on whose name equals `name` up to case. */
  function Find(t: seq<Cell>, i: nat, name: Name): (r: Option<SetInfo>)
    requires Cells(t)
    decreases |t| - i
  {
    if i >= |t| || t[i].kind == 0 then None
    else if t[i].parsed.Some? then
      if EqIgnoreCase(t[i].parsed.value.name, name) then t[i].parsed else Find(t, i + t[i].parsed.value.count, name)
    else Find(t, i + 1, name)
  }

  /**
    From entry `i` on: file entries start sets, the other entries of a set are in use, and nothing in
    use follows a 0x00.
   */
  ghost predicate WellFormed(t: seq<Cell>, i: nat)
    requires Cells(t)
    decreases |t| - i
  {
    if i >= |t| then true
    else if t[i].kind == 0 then FreeFrom(t, i)
    else if t[i].kind == FILE_ENTRY then
      && t[i].parsed.Some?
      && SecondariesInUse(t, i + 1, i + t[i].parsed.value.count)
      && WellFormed(t, i + t[i].parsed.value.count)
    else WellFormed(t, i + 1)
  }

  ghost predicate FreeFrom(t: seq<Cell>, i: nat) {
    forall j :: i <= j < |t| ==> IsFree(t[j].kind)
  }

  /** In use, not a file entry, and not the type 0x80 that would turn into an end marker when the set is given up. */
  ghost predicate SecondariesInUse(t: seq<Cell>, lo: nat, hi: nat)
    requires hi <= |t|
  {
    forall j :: lo <= j < hi ==> t[j].kind > 0x80 && t[j].kind != FILE_ENTRY
  }

  // ---- Lookup ----------------------------------------------------------------------------

  /** The lookup returns a live set of that name, and fails only if there is none. */
  lemma {:induction false} FindIsLookup(t: seq<Cell>, i: nat, name: Name)
    requires Cells(t)
    ensures Find(t, i, name).Some? ==>
              Find(t, i, name).value in Live(t, i) && EqIgnoreCase(Find(t, i, name).value.name, name)
    ensures Find(t, i, name).None? ==> forall x :: x in Live(t, i) ==> !EqIgnoreCase(x.name, name)
    decreases |t| - i
  {
    if i < |t| && t[i].kind != 0 {
      if t[i].parsed.Some? {
        FindIsLookup(t, i + t[i].parsed.value.count, name);
      } else {
        FindIsLookup(t, i + 1, name);
      }
    }
  }

  lemma {:induction false} LiveAbove(t: seq<Cell>, i: nat)
    requires Cells(t)
    ensures forall x :: x in Live(t, i) ==>
              i <= x.index && 3 <= x.count && x.index + x.count <= |t| && t[x.index].parsed == Some(x)
    decreases |t| - i
  {
    if i < |t| && t[i].kind != 0 {
      if t[i].parsed.Some? { LiveAbove(t, i + t[i].parsed.value.count); } else { LiveAbove(t, i + 1); }
    }
  }

  // ---- Walking up to a region ------------------------------------------------------------

  /** The walk from `i` arrives exactly at `lo`. */
  ghost predicate Reaches(t: seq<Cell>, i: nat, lo: nat)
    requires Cells(t) && lo <= |t|
    decreases |t| - i
  {
    if i >= lo then i == lo
    else if t[i].kind == 0 then false
    else if t[i].parsed.Some? then Reaches(t, i + t[i].parsed.value.count, lo)
    else Reaches(t, i + 1, lo)
  }

  /** The sets found on the way from `i` to `lo`. */
  ghost function LiveBetween(t: seq<Cell>, i: nat, lo: nat): (live: set<SetInfo>)
    requires Cells(t) && lo <= |t|
    decreases |t| - i
  {
    if i >= lo || t[i].kind == 0 then {}
    else if t[i].parsed.Some? then {t[i].parsed.value} + LiveBetween(t, i + t[i].parsed.value.count, lo)
    else LiveBetween(t, i + 1, lo)
  }

  lemma {:induction false} LiveSplits(t: seq<Cell>, i: nat, lo: nat)
    requires Cells(t) && lo <= |t| && Reaches(t, i, lo)
    ensures Live(t, i) == LiveBetween(t, i, lo) + Live(t, lo)
    ensures WellFormed(t, i) ==> WellFormed(t, lo)
    decreases |t| - i
  {
    if i < lo {
      if t[i].parsed.Some? { LiveSplits(t, i + t[i].parsed.value.count, lo); } else { LiveSplits(t, i + 1, lo); }
    }
  }

  lemma {:induction false} BetweenBounds(t: seq<Cell>, i: nat, lo: nat)
    requires Cells(t) && lo <= |t| && Reaches(t, i, lo)
    ensures i <= lo && forall x :: x in LiveBetween(t, i, lo) ==>
              i <= x.index && 3 <= x.count && x.index + x.count <= lo
    decreases |t| - i
  {
    if i < lo {
      if t[i].parsed.Some? { BetweenBounds(t, i + t[i].parsed.value.count, lo); } else { BetweenBounds(t, i + 1, lo); }
    }
  }

  /** `t'` keeps the entry types below `lo` and the sets that end at or before `lo`. */
  ghost predicate AgreeBelow(t: seq<Cell>, t': seq<Cell>, lo: nat) {
    && lo <= |t| == |t'|
    && forall j :: 0 <= j < lo ==>
         && t'[j].kind == t[j].kind
         && (t[j].parsed.Some? && j + t[j].parsed.value.count <= lo ==> t'[j].parsed == t[j].parsed)
  }

  /** The way to a region depends on what lies before the region only. */
  lemma {:induction false} WayKept(t: seq<Cell>, t': seq<Cell>, i: nat, lo: nat)
    requires Cells(t) && Cells(t') && AgreeBelow(t, t', lo) && Reaches(t, i, lo) && WellFormed(t, i)
    ensures Reaches(t', i, lo) && LiveBetween(t', i, lo) == LiveBetween(t, i, lo)
    ensures WellFormed(t', lo) ==> WellFormed(t', i)
    decreases |t| - i
  {
    if i < lo {
      if t[i].parsed.Some? {
        BetweenBounds(t, i + t[i].parsed.value.count, lo);
        WayKept(t, t', i + t[i].parsed.value.count, lo);
      } else {
        WayKept(t, t', i + 1, lo);
      }
    }
  }

  /** A set the walk finds is reached by the walk. */
  lemma {:induction false} LiveIsReached(t: seq<Cell>, i: nat, x: SetInfo)
    requires Cells(t) && x in Live(t, i)
    ensures x.index < |t| && t[x.index].parsed == Some(x) && t[x.index].kind != 0 && Reaches(t, i, x.index)
    decreases |t| - i
  {
    if t[i].parsed.Some? {
      if x != t[i].parsed.value {
        LiveIsReached(t, i + t[i].parsed.value.count, x);
        LiveAbove(t, i + t[i].parsed.value.count);
      }
    } else {
      LiveIsReached(t, i + 1, x);
      LiveAbove(t, i + 1);
    }
  }

  // ---- Behind a region -------------------------------------------------------------------

  ghost predicate AgreeFrom(t: seq<Cell>, t': seq<Cell>, hi: nat) {
    |t| == |t'| && forall j :: hi <= j < |t| ==> t'[j] == t[j]
  }

  lemma {:induction false} TailKept(t: seq<Cell>, t': seq<Cell>, i: nat)
    requires Cells(t) && Cells(t') && AgreeFrom(t, t', i)
    ensures Live(t', i) == Live(t, i) && (WellFormed(t, i) ==> WellFormed(t', i))
    decreases |t| - i
  {
    if i < |t| && t[i].kind != 0 {
      if t[i].parsed.Some? { TailKept(t, t', i + t[i].parsed.value.count); } else { TailKept(t, t', i + 1); }
    }
  }

  lemma {:induction false} FreeTail(t: seq<Cell>, i: nat)
    requires Cells(t) && FreeFrom(t, i)
    ensures Live(t, i) == {} && WellFormed(t, i)
    decreases |t| - i
  {
    if i < |t| && t[i].kind != 0 { FreeTail(t, i + 1); }
  }

  ghost predicate FreeRun(t: seq<Cell>, lo: nat, hi: nat) {
    hi <= |t| && forall j :: lo <= j < hi ==> IsFree(t[j].kind)
  }

  /** Walking over free entries finds nothing. */
  lemma {:induction false} FreeRunSkipped(t: seq<Cell>, lo: nat, hi: nat)
    requires Cells(t) && lo <= hi && FreeRun(t, lo, hi) && WellFormed(t, lo)
    ensures Live(t, lo) == Live(t, hi) && WellFormed(t, hi)
    decreases hi - lo
  {
    if lo < hi {
      if t[lo].kind == 0 { FreeTail(t, hi); } else { FreeRunSkipped(t, lo + 1, hi); }
    }
  }

  /** Entries taken out of use lead the walk to what follows them. */
  lemma {:induction false} UnusedRunSkipped(t: seq<Cell>, lo: nat, hi: nat)
    requires Cells(t) && lo <= hi <= |t| && forall j :: lo <= j < hi ==> IsFree(t[j].kind) && t[j].kind != 0
    ensures Live(t, lo) == Live(t, hi) && (WellFormed(t, hi) ==> WellFormed(t, lo))
    decreases hi - lo
  {
    if lo < hi { UnusedRunSkipped(t, lo + 1, hi); }
  }

  // ---- Edits -----------------------------------------------------------------------------

  /** A walk that arrives at `lo` finds exactly `x` in the region up to `hi` and goes on from `hi`. */
  ghost predicate RegionHolds(t: seq<Cell>, lo: nat, hi: nat, x: set<SetInfo>)
    requires Cells(t)
  {
    lo <= hi <= |t| && Live(t, lo) == x + Live(t, hi)
  }

  /** Replacing a region: the sets before and behind it stay, those in it are exchanged. */
  lemma RegionEdit(t: seq<Cell>, t': seq<Cell>, lo: nat, hi: nat, x: set<SetInfo>, x': set<SetInfo>)
    requires Cells(t) && Cells(t') && WellFormed(t, 0) && lo <= |t| && Reaches(t, 0, lo)
    requires AgreeBelow(t, t', lo) && AgreeFrom(t, t', hi)
    requires RegionHolds(t, lo, hi, x) && RegionHolds(t', lo, hi, x') && WellFormed(t', lo)
    requires forall i :: i in x ==> lo <= i.index < hi
    ensures WellFormed(t', 0)
    ensures Live(t', 0) == (Live(t, 0) - x) + x'
    ensures forall i :: i in Live(t, 0) - x ==> i.index + i.count <= lo || hi <= i.index
  {
    LiveSplits(t, 0, lo);
    WayKept(t, t', 0, lo);
    LiveSplits(t', 0, lo);
    TailKept(t, t', hi);
    BetweenBounds(t, 0, lo);
    LiveAbove(t, hi);
    var before, behind := LiveBetween(t, 0, lo), Live(t, hi);
    assert Live(t, 0) == before + (x + behind);
    assert Live(t', 0) == before + (x' + behind);
    assert (before + (x + behind)) - x == before + behind;
  }

  /** `n` free entries in a row from entry `s` on. */
  ghost predicate FreeWindow(t: seq<Cell>, s: nat, n: nat) {
    FreeRun(t, s, s + n)
  }

  lemma FreeBehind(t: seq<Cell>, lo: nat, hi: nat, s: nat)
    requires hi <= |t| && SecondariesInUse(t, lo, hi) && lo <= s < |t| && IsFree(t[s].kind)
    ensures hi <= s
  {
  }

  lemma WindowAvoids(t: seq<Cell>, s: nat, n: nat, j: nat)
    requires s <= j < s + n && j < |t| && !IsFree(t[j].kind)
    ensures !FreeWindow(t, s, n)
  {
  }

  /** The first-fit search stops at an entry the walk reaches. */
  lemma {:induction false} FirstFitReached(t: seq<Cell>, i: nat, s: nat, n: nat)
    requires Cells(t) && WellFormed(t, i) && i <= s && n > 0 && FreeWindow(t, s, n)
    requires forall s' :: i <= s' < s ==> !FreeWindow(t, s', n)
    ensures Reaches(t, i, s)
    decreases |t| - i
  {
    if i < s {
      if t[i].kind == 0 {
        assert FreeWindow(t, i, n);
        assert false;
      } else if t[i].parsed.Some? {
        var next := i + t[i].parsed.value.count;
        FreeBehind(t, i + 1, next, s);
        FirstFitReached(t, next, s, n);
      } else {
        FirstFitReached(t, i + 1, s, n);
      }
    }
  }

  // ---- The two kinds of edit ---------------------------------------------------------------

  function AsSet(x: Option<SetInfo>): (s: set<SetInfo>) { if x.Some? then {x.value} else {} }

  function SizeOf(x: Option<SetInfo>): (n: nat) { if x.Some? then x.value.count else 0 }

  /** `t'` holds `x` (or nothing) at `lo`, followed by entries out of use up to `hi`. */
  ghost predicate HoldsAt(t': seq<Cell>, lo: nat, hi: nat, x: Option<SetInfo>) {
    && lo + SizeOf(x) <= hi <= |t'|
    && (x.Some? ==>
        x.value.index == lo && x.value.count >= 3 && t'[lo].parsed == x
        && SecondariesInUse(t', lo + 1, lo + x.value.count))
    && forall j :: lo + SizeOf(x) <= j < hi ==> IsFree(t'[j].kind) && t'[j].kind != 0
  }

  lemma HeldFound(t': seq<Cell>, lo: nat, hi: nat, x: Option<SetInfo>)
    requires Cells(t') && HoldsAt(t', lo, hi, x) && WellFormed(t', hi)
    ensures RegionHolds(t', lo, hi, AsSet(x)) && WellFormed(t', lo)
  {
    UnusedRunSkipped(t', lo + SizeOf(x), hi);
  }

  lemma LiveSetHolds(t: seq<Cell>, x: SetInfo)
    requires Cells(t) && WellFormed(t, 0) && x in Live(t, 0)
    ensures x.count >= 3 && x.index + x.count <= |t| && Reaches(t, 0, x.index) && t[x.index].parsed == Some(x)
    ensures RegionHolds(t, x.index, x.index + x.count, {x}) && WellFormed(t, x.index + x.count)
    ensures SecondariesInUse(t, x.index + 1, x.index + x.count)
  {
    LiveIsReached(t, 0, x);
    LiveSplits(t, 0, x.index);
    LiveAbove(t, 0);
  }

  /** Writing a set (or nothing) over a live set exchanges the two and disturbs no other set. */
  lemma Exchange(t: seq<Cell>, t': seq<Cell>, x: SetInfo, new_: Option<SetInfo>)
    requires Cells(t) && Cells(t') && WellFormed(t, 0) && x in Live(t, 0)
    requires AgreeBelow(t, t', x.index) && AgreeFrom(t, t', x.index + x.count)
    requires HoldsAt(t', x.index, x.index + x.count, new_)
    ensures WellFormed(t', 0) && Live(t', 0) == Live(t, 0) - {x} + AsSet(new_)
    ensures forall i :: i in Live(t, 0) - {x} ==> i.index + i.count <= x.index || x.index + x.count <= i.index
  {
    LiveSetHolds(t, x);
    TailKept(t, t', x.index + x.count);
    HeldFound(t', x.index, x.index + x.count, new_);
    RegionEdit(t, t', x.index, x.index + x.count, {x}, AsSet(new_));
  }

  /** Writing a set into the first window of free entries adds it and disturbs no other set. */
  lemma Insertion(t: seq<Cell>, t': seq<Cell>, new_: SetInfo)
    requires Cells(t) && Cells(t') && WellFormed(t, 0) && FreeWindow(t, new_.index, new_.count)
    requires forall s :: 0 <= s < new_.index ==> !FreeWindow(t, s, new_.count)
    requires AgreeBelow(t, t', new_.index) && AgreeFrom(t, t', new_.index + new_.count)
    requires HoldsAt(t', new_.index, new_.index + new_.count, Some(new_))
    ensures WellFormed(t', 0) && Live(t', 0) == Live(t, 0) + {new_}
    ensures forall i :: i in Live(t, 0) ==> i.index + i.count <= new_.index || new_.index + new_.count <= i.index
  {
    var lo, hi := new_.index, new_.index + new_.count;
    FirstFitReached(t, 0, lo, new_.count);
    LiveSplits(t, 0, lo);
    FreeRunSkipped(t, lo, hi);
    TailKept(t, t', hi);
    HeldFound(t', lo, hi, Some(new_));
    RegionEdit(t, t', lo, hi, {}, {new_});
  }
}
