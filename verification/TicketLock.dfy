/**
  The ticket spinlock as a machine whose steps are the atomic accesses of `lock`, `try_lock` and
  the guard's drop, made by any number of callers in any order. At most one caller is inside,
  guards are granted in ticket order, and nobody who waits is left without a way forward.
 */
module TicketLock {

  /** Where a caller stands. A caller that probes has read `now_serving` and not yet tried to swap. */
  datatype Phase = Idle | Waiting(ticket: nat) | Probing(seen: nat) | Holding(ticket: nat)

  /** The two counters, the callers, and the tickets whose guards have been given out so far, in order. */
  datatype State = State(next: nat, serving: nat, callers: seq<Phase>, grants: seq<nat>)

  datatype Action = TakeTicket | Spin | Enter | Probe(seen: nat) | SwapOk | SwapFails | Drop

  function Initial(callers: nat): (s: State) { State(0, 0, seq(callers, _ => Idle), []) }

  function Moved(s: State, i: nat, p: Phase): (r: State)
    requires i < |s.callers|
  {
    s.(callers := s.callers[i := p])
  }

  /** One atomic access of caller `i`. The read of `Probe` may be stale: any value the counter has had. */
  ghost predicate Step(s: State, s': State, i: nat, a: Action) {
    && i < |s.callers|
    && var p := s.callers[i];
       match a
       case TakeTicket => p.Idle? && s' == Moved(s, i, Waiting(s.next)).(next := s.next + 1)
       case Spin => p.Waiting? && p.ticket != s.serving && s' == s
       case Enter =>
         p.Waiting? && p.ticket == s.serving && s' == Moved(s, i, Holding(p.ticket)).(grants := s.grants + [p.ticket])
       case Probe(seen) => p.Idle? && seen <= s.serving && s' == Moved(s, i, Probing(seen))
       case SwapOk =>
         p.Probing? && s.next == p.seen
           && s' == Moved(s, i, Holding(p.seen)).(next := p.seen + 1, grants := s.grants + [p.seen])
       case SwapFails => p.Probing? && s.next != p.seen && s' == Moved(s, i, Idle)
       case Drop => p.Holding? && s' == Moved(s, i, Idle).(serving := s.serving + 1)
  }

  // ---- The invariant -------------------------------------------------------------------------------------

  predicate Owns(p: Phase, t: nat) { (p.Waiting? || p.Holding?) && p.ticket == t }

  /** A ticket is out for exactly one caller, and only from the one being served up to the next. */
  ghost predicate TicketsFit(s: State) {
    && (forall i, t: nat {:trigger Owns(s.callers[i], t)} :: 0 <= i < |s.callers| && Owns(s.callers[i], t) ==>
        s.serving <= t < s.next)
    && (forall i, j, t: nat {:trigger Owns(s.callers[i], t), Owns(s.callers[j], t)} ::
          0 <= i < |s.callers| && 0 <= j < |s.callers| && Owns(s.callers[i], t) && Owns(s.callers[j], t) ==> i == j)
  }

  ghost predicate Owned(s: State, t: nat) { exists i :: 0 <= i < |s.callers| && Owns(s.callers[i], t) }

  ghost predicate AllOwned(s: State) { forall t: nat {:trigger Owned(s, t)} :: s.serving <= t < s.next ==> Owned(s, t) }

  ghost predicate PhaseFits(s: State, p: Phase) {
    (p.Holding? ==> p.ticket == s.serving) && (p.Probing? ==> p.seen <= s.serving)
  }

  ghost predicate PhasesFit(s: State) {
    forall i {:trigger s.callers[i]} :: 0 <= i < |s.callers| ==> PhaseFits(s, s.callers[i])
  }

  predicate Holds(s: State, i: nat) { i < |s.callers| && s.callers[i].Holding? }

  ghost predicate Held(s: State) { exists i: nat :: Holds(s, i) }

  /** Guards were given to tickets 0, 1, 2 and so on, up to the one being served if it is held. */
  ghost predicate InOrder(s: State) {
    && (forall k {:trigger s.grants[k]} :: 0 <= k < |s.grants| ==> s.grants[k] == k)
    && (Held(s) ==> |s.grants| == s.serving + 1) && (!Held(s) ==> |s.grants| == s.serving)
  }

  ghost predicate Inv(s: State) { s.serving <= s.next && TicketsFit(s) && AllOwned(s) && PhasesFit(s) && InOrder(s) }

  lemma InitialInv(n: nat)
    ensures Inv(Initial(n))
  {
    var s := Initial(n);
    assert forall i :: 0 <= i < |s.callers| ==> s.callers[i] == Idle;
    forall i: nat ensures !Holds(s, i) { }
  }

  /** At most one guard exists. */
  lemma AtMostOneGuard(s: State, i: nat, j: nat)
    requires Inv(s) && Holds(s, i) && Holds(s, j)
    ensures i == j
  {
    assert PhaseFits(s, s.callers[i]) && PhaseFits(s, s.callers[j]);
    assert Owns(s.callers[i], s.serving) && Owns(s.callers[j], s.serving);
  }

  // ---- Every step keeps it ---------------------------------------------------------------------------------

  lemma TicketsKept(s: State, s': State, i: nat, a: Action)
    requires Inv(s) && Step(s, s', i, a)
    ensures TicketsFit(s')
  {
    forall j, t: nat {:trigger Owns(s'.callers[j], t)} | 0 <= j < |s'.callers| && Owns(s'.callers[j], t)
      ensures s'.serving <= t < s'.next
    {
      OwnerBefore(s, s', i, a, j, t);
    }
    forall j, k, t: nat {:trigger Owns(s'.callers[j], t), Owns(s'.callers[k], t)}
      | 0 <= j < |s'.callers| && 0 <= k < |s'.callers| && Owns(s'.callers[j], t) && Owns(s'.callers[k], t)
      ensures j == k
    {
      OwnerBefore(s, s', i, a, j, t);
      OwnerBefore(s, s', i, a, k, t);
    }
  }

  lemma PhasesKept(s: State, s': State, i: nat, a: Action)
    requires Inv(s) && Step(s, s', i, a)
    ensures PhasesFit(s')
  {
    forall j {:trigger s'.callers[j]} | 0 <= j < |s'.callers| ensures PhaseFits(s', s'.callers[j]) {
      assert PhaseFits(s, s.callers[j]) && PhaseFits(s, s.callers[i]);
      if a.Drop? && Holds(s, j) { AtMostOneGuard(s, i, j); }
    }
  }

  lemma TicketsDiffer(s: State, i: nat, j: nat, t: nat, u: nat)
    requires TicketsFit(s) && i < |s.callers| && j < |s.callers| && i != j && Owns(s.callers[i], t)
             && Owns(s.callers[j], u)
    ensures t != u
  {
  }

  /** Who owns a ticket after a step owned it before, or it is the new one. */
  lemma OwnerBefore(s: State, s': State, i: nat, a: Action, j: nat, t: nat)
    requires Inv(s) && Step(s, s', i, a) && j < |s'.callers| && Owns(s'.callers[j], t)
    ensures s'.serving <= t < s'.next
    ensures (j == i && t == s.next && s'.next == s.next + 1) || Owns(s.callers[j], t)
  {
    assert PhaseFits(s, s.callers[i]);
    assert ((a.TakeTicket? || a.SwapOk?) && j == i) || Owns(s.callers[j], t);
    if a.Drop? && j != i { TicketsDiffer(s, i, j, s.serving, t); }
  }

  lemma OwnersKept(s: State, s': State, i: nat, a: Action)
    requires Inv(s) && Step(s, s', i, a)
    ensures AllOwned(s')
  {
    assert PhaseFits(s, s.callers[i]);
    forall t {:trigger Owned(s', t)} | s'.serving <= t < s'.next ensures Owned(s', t) {
      if t == s.next {
        assert Owns(s'.callers[i], t);
      } else {
        assert Owned(s, t);
        var j :| 0 <= j < |s.callers| && Owns(s.callers[j], t);
        assert Owns(s'.callers[j], t);
      }
    }
  }

  /** The grant order: a guard is given only when none is out. */
  lemma OrderKept(s: State, s': State, i: nat, a: Action)
    requires Inv(s) && Step(s, s', i, a)
    ensures InOrder(s')
  {
    assert PhaseFits(s, s.callers[i]);
    HeldAfter(s, s', i, a);
    match a {
      case Enter => NotYetHeld(s, i, s.callers[i].ticket);
      case SwapOk => NobodyHolds(s);
      case Drop => assert Holds(s, i);
      case _ =>
    }
  }

  /** While the served ticket waits, nobody holds. */
  lemma NotYetHeld(s: State, i: nat, t: nat)
    requires Inv(s) && i < |s.callers| && s.callers[i] == Waiting(t) && t == s.serving
    ensures !Held(s)
  {
    forall j: nat ensures !Holds(s, j) {
      if j < |s.callers| {
        assert PhaseFits(s, s.callers[j]) && Owns(s.callers[i], t) && (Holds(s, j) ==> Owns(s.callers[j], t));
      }
    }
  }

  /** When every ticket has been served, nobody holds. */
  lemma NobodyHolds(s: State)
    requires Inv(s) && s.next == s.serving
    ensures !Held(s)
  {
    forall j: nat ensures !Holds(s, j) {
      if j < |s.callers| { assert PhaseFits(s, s.callers[j]) && (Holds(s, j) ==> Owns(s.callers[j], s.serving)); }
    }
  }

  /** Whether the lock is held after a step. */
  lemma HeldAfter(s: State, s': State, i: nat, a: Action)
    requires Inv(s) && Step(s, s', i, a)
    ensures Held(s') <==> a.Enter? || a.SwapOk? || (Held(s) && !a.Drop?)
  {
    if a.Enter? || a.SwapOk? {
      assert Holds(s', i);
    } else if a.Drop? {
      assert Holds(s, i);
      forall j: nat ensures !Holds(s', j) {
        if j != i && Holds(s, j) { AtMostOneGuard(s, i, j); }
      }
    } else {
      if Held(s) {
        var j: nat :| Holds(s, j);
        assert Holds(s', j);
      }
      if Held(s') {
        var j: nat :| Holds(s', j);
        assert Holds(s, j);
      }
    }
  }

  lemma StepKeepsInv(s: State, s': State, i: nat, a: Action)
    requires Inv(s) && Step(s, s', i, a)
    ensures Inv(s')
  {
    assert PhaseFits(s, s.callers[i]);
    TicketsKept(s, s', i, a);
    PhasesKept(s, s', i, a);
    OwnersKept(s, s', i, a);
    OrderKept(s, s', i, a);
    if a.Drop? { assert Owns(s.callers[i], s.serving); }
  }

  // ---- Whole runs --------------------------------------------------------------------------------------------

  ghost predicate Next(s: State, s': State) { exists i: nat, a :: Step(s, s', i, a) }

  ghost predicate IsRun(run: seq<State>) {
    |run| > 0 && run[0] == Initial(|run[0].callers|)
        && forall k {:trigger run[k]} :: 0 < k < |run| ==> Next(run[k - 1], run[k])
  }

  lemma {:induction false} RunsKeepInv(run: seq<State>, k: nat)
    requires IsRun(run) && k < |run|
    ensures Inv(run[k])
    decreases k
  {
    if k == 0 {
      InitialInv(|run[0].callers|);
    } else {
      RunsKeepInv(run, k - 1);
      assert Next(run[k - 1], run[k]);
      var i: nat, a :| Step(run[k - 1], run[k], i, a);
      StepKeepsInv(run[k - 1], run[k], i, a);
    }
  }

  /** In every run at most one guard exists at a time, and guards are granted in ticket order. */
  lemma MutualExclusionAndOrder(run: seq<State>, k: nat)
    requires IsRun(run) && k < |run|
    ensures forall i: nat, j: nat :: Holds(run[k], i) && Holds(run[k], j) ==> i == j
    ensures forall n :: 0 <= n < |run[k].grants| ==> run[k].grants[n] == n
  {
    RunsKeepInv(run, k);
    forall i: nat, j: nat | Holds(run[k], i) && Holds(run[k], j) ensures i == j { AtMostOneGuard(run[k], i, j); }
  }

  /** Whoever waits is not stuck: the ticket being served belongs to a caller that can enter or drop. */
  lemma WaitersCanProgress(s: State, i: nat)
    requires Inv(s) && i < |s.callers| && s.callers[i].Waiting?
    ensures exists j: nat, s' :: Step(s, s', j, Enter) || Step(s, s', j, Drop)
  {
    assert Owns(s.callers[i], s.callers[i].ticket);
    assert Owned(s, s.serving);
    var j :| 0 <= j < |s.callers| && Owns(s.callers[j], s.serving);
    var p := s.callers[j];
    if p.Waiting? {
      assert Step(s, Moved(s, j, Holding(p.ticket)).(grants := s.grants + [p.ticket]), j, Enter);
    } else {
      assert Step(s, Moved(s, j, Idle).(serving := s.serving + 1), j, Drop);
    }
  }

  /** How many drops a waiting caller still has to see. */
  function Ahead(s: State, i: nat): (n: int)
    requires i < |s.callers| && s.callers[i].Waiting?
  {
    s.callers[i].ticket - s.serving
  }

  /**
    Nobody overtakes: no step of another caller moves a waiter back, each drop moves it up, and only
    at the front does it enter.
   */
  lemma NobodyOvertakes(s: State, s': State, j: nat, a: Action, i: nat)
    requires Inv(s) && Step(s, s', j, a) && i < |s.callers| && s.callers[i].Waiting?
    ensures Ahead(s, i) >= 0
    ensures s'.callers[i].Waiting? ==> Ahead(s', i) == Ahead(s, i) - if a.Drop? then 1 else 0
    ensures !s'.callers[i].Waiting? ==> i == j && a.Enter? && Ahead(s, i) == 0
  {
    assert Owns(s.callers[i], s.callers[i].ticket);
  }
}
