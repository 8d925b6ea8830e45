/**
  Heap reservations as a machine whose steps are the attempts of the compare-and-swap loops of
  `try_reserve_heap` and of a reservation's drop, in any order and with any spurious failures.
  The counter is always the sum of the live reservations and never more than the heap.
 */
module HeapReservation {
  import opened Bytes

  /** One reservation: being asked for, held, or being given back. `seen` is the counter value last read. */
  datatype Phase =
    | Idle
    | Reserving(bytes: nat, headroom: nat, seen: nat)
    | Live(bytes: nat)
    | Releasing(bytes: nat, seen: nat)

  /** The size of the heap, the counter of reserved bytes, and the reservations. */
  datatype State = State(total: nat, reserved: nat, slots: seq<Phase>)

  datatype Action =
    | Ask(bytes: nat, headroom: nat, seen: nat)
    | GiveUp
    | Reserve
    | Retry
    | Drop(seen: nat)
    | Release

  function SatSub(a: nat, b: nat): (r: nat) { if a < b then 0 else a - b }

  function Usable(total: nat, headroom: nat): (u: nat) { SatSub(total, headroom) }

  function Moved(s: State, i: nat, p: Phase): (r: State)
    requires i < |s.slots|
  {
    s.(slots := s.slots[i := p])
  }

  /** What a request leads to before its loop; any value may be read from the counter. */
  function Asked(total: nat, bytes: nat, headroom: nat, seen: nat): (p: Phase) {
    if bytes == 0 then Live(0)
    else if total == 0 || bytes > Usable(total, headroom) then Idle
    else Reserving(bytes, headroom, seen)
  }

  /** The loop of a request goes on only while the sum fits. */
  predicate Fits(s: State, p: Phase)
    requires p.Reserving?
  {
    p.seen + p.bytes < U64 && p.seen + p.bytes <= Usable(s.total, p.headroom)
  }

  ghost predicate Step(s: State, s': State, i: nat, a: Action) {
    && i < |s.slots|
    && var p := s.slots[i];
       match a
       case Ask(bytes, headroom, seen) => p.Idle? && s' == Moved(s, i, Asked(s.total, bytes, headroom, seen))
       case GiveUp => p.Reserving? && !Fits(s, p) && s' == Moved(s, i, Idle)
       case Reserve =>
         p.Reserving? && Fits(s, p) && s.reserved == p.seen
           && s' == Moved(s, i, Live(p.bytes)).(reserved := p.seen + p.bytes)
       // A failed exchange, spurious or not, returns the value it found.
       case Retry => ((p.Reserving? && Fits(s, p)) || p.Releasing?) && s' == Moved(s, i, p.(seen := s.reserved))
       case Drop(seen) => p.Live? && s' == Moved(s, i, if p.bytes == 0 then Idle else Releasing(p.bytes, seen))
       case Release =>
         p.Releasing? && s.reserved == p.seen && s' == Moved(s, i, Idle).(reserved := SatSub(p.seen, p.bytes))
  }

  // ---- The invariant -------------------------------------------------------------------------------------

  /** The bytes a reservation has taken from the counter. */
  function Taken(p: Phase): (n: nat) { if p.Live? || p.Releasing? then p.bytes else 0 }

  function Sum(slots: seq<Phase>): (n: nat) { if slots == [] then 0 else Taken(slots[0]) + Sum(slots[1..]) }

  lemma {:induction false} SumUpdated(slots: seq<Phase>, i: nat, p: Phase)
    requires i < |slots|
    ensures Sum(slots[i := p]) + Taken(slots[i]) == Sum(slots) + Taken(p)
    decreases |slots|
  {
    if i > 0 {
      assert slots[i := p][1..] == slots[1..][i - 1 := p];
      SumUpdated(slots[1..], i - 1, p);
    } else {
      assert slots[i := p][1..] == slots[1..];
    }
  }

  lemma {:induction false} TakenInSum(slots: seq<Phase>, i: nat)
    requires i < |slots|
    ensures Taken(slots[i]) <= Sum(slots)
    decreases |slots|
  {
    if i > 0 { TakenInSum(slots[1..], i - 1); }
  }

  /** A request for nothing has no loop. */
  ghost predicate Asking(slots: seq<Phase>) {
    forall i :: 0 <= i < |slots| && slots[i].Reserving? ==> slots[i].bytes > 0
  }

  ghost predicate Inv(s: State) { s.reserved == Sum(s.slots) && s.reserved <= s.total && Asking(s.slots) }

  lemma StepKeepsInv(s: State, s': State, i: nat, a: Action)
    requires Inv(s) && Step(s, s', i, a)
    ensures Inv(s') && s'.total == s.total
  {
    SumUpdated(s.slots, i, s'.slots[i]);
    TakenInSum(s.slots, i);
  }

  /** The saturating subtraction of a release never saturates. */
  lemma ReleaseIsExact(s: State, s': State, i: nat)
    requires Inv(s) && Step(s, s', i, Release)
    ensures s.reserved >= s.slots[i].bytes && s'.reserved == s.reserved - s.slots[i].bytes
  {
    TakenInSum(s.slots, i);
  }

  // ---- A request that fits -------------------------------------------------------------------------------

  /** A request that has just read the counter. */
  function Fresh(s: State, i: nat, bytes: nat, headroom: nat): (r: State)
    requires i < |s.slots|
  {
    Moved(s, i, Asked(s.total, bytes, headroom, s.reserved))
  }

  /**
    A request that nobody interferes with takes its bytes exactly when they and the headroom fit what is free;
    otherwise it is refused, at once or when its loop gives up.
   */
  lemma ReservesExactlyWhen(s: State, i: nat, bytes: nat, headroom: nat)
    requires i < |s.slots| && s.slots[i].Idle? && s.total < U64 && bytes > 0
    ensures Step(s, Fresh(s, i, bytes, headroom), i, Ask(bytes, headroom, s.reserved))
    ensures s.reserved + bytes + headroom <= s.total <==>
            Step(Fresh(s, i, bytes, headroom),
                 Moved(s, i, Live(bytes)).(reserved := s.reserved + bytes), i, Reserve)
    ensures s.reserved + bytes + headroom > s.total <==>
            Fresh(s, i, bytes, headroom) == s || Step(Fresh(s, i, bytes, headroom), s, i, GiveUp)
  {
    var s1 := Fresh(s, i, bytes, headroom);
    assert Moved(s1, i, Live(bytes)).slots == Moved(s, i, Live(bytes)).slots;
    assert Moved(s1, i, Idle).slots == s.slots;
    assert Moved(s, i, Idle).slots == s.slots;
  }

  /** A loop gives up only when what it read of the counter leaves too little. */
  lemma RefusedRightly(s: State, s': State, i: nat)
    requires Step(s, s', i, GiveUp) && s.total < U64
    ensures s.slots[i].seen + s.slots[i].bytes + s.slots[i].headroom > s.total
  {
  }

  // ---- Whole runs --------------------------------------------------------------------------------------------

  ghost predicate Next(s: State, s': State) { exists i: nat, a :: Step(s, s', i, a) }

  ghost predicate IsRun(run: seq<State>) {
    && |run| > 0 && run[0].reserved == 0 && (forall i :: 0 <= i < |run[0].slots| ==> run[0].slots[i] == Idle)
    && forall k {:trigger run[k]} :: 0 < k < |run| ==> Next(run[k - 1], run[k])
  }

  lemma {:induction false} AllIdle(slots: seq<Phase>)
    requires forall i :: 0 <= i < |slots| ==> slots[i] == Idle
    ensures Sum(slots) == 0
  {
    if slots != [] { AllIdle(slots[1..]); }
  }

  /** In every run the counter is the sum of the live reservations and never exceeds the heap. */
  lemma {:induction false} CounterIsExact(run: seq<State>, k: nat)
    requires IsRun(run) && k < |run|
    ensures run[k].reserved == Sum(run[k].slots) && run[k].reserved <= run[k].total && run[k].total == run[0].total
    ensures Asking(run[k].slots)
    decreases k
  {
    if k == 0 {
      AllIdle(run[0].slots);
    } else {
      CounterIsExact(run, k - 1);
      assert Next(run[k - 1], run[k]);
      var i: nat, a :| Step(run[k - 1], run[k], i, a);
      StepKeepsInv(run[k - 1], run[k], i, a);
    }
  }

  /**
    Whenever a request succeeds, in any run, what all reservations hold together leaves the caller's
    headroom of the heap free.
   */
  lemma HeadroomRespected(run: seq<State>, k: nat, i: nat)
    requires IsRun(run) && 0 < k < |run| && Step(run[k - 1], run[k], i, Reserve)
    ensures Sum(run[k].slots) == Sum(run[k - 1].slots) + run[k - 1].slots[i].bytes
    ensures Sum(run[k].slots) + run[k - 1].slots[i].headroom <= run[0].total
  {
    CounterIsExact(run, k - 1);
    CounterIsExact(run, k);
  }

  /** Once every reservation has been given back the whole heap is free again. */
  lemma AllGivenBack(run: seq<State>, k: nat)
    requires IsRun(run) && k < |run| && forall i :: 0 <= i < |run[k].slots| ==> run[k].slots[i] == Idle
    ensures run[k].reserved == 0
  {
    CounterIsExact(run, k);
    AllIdle(run[k].slots);
  }
}
