/**
  The cooperative scheduler. Each tick dispatches at most one task, the counters are exact until
  they saturate, limits hold, and a task that is always due runs within one round of ticks.
 */
module Scheduler {
  import opened Bytes
  import opened JobQueue

  const MAX_TASKS: nat := 8

  type Counter = c: nat | c < U64

  datatype Task = Task(period: nat, maxRuns: nat, runs: Counter, active: bool)

  /** The scheduler's fields, its task list cut at `task_count`. */
  datatype Sched = Sched(tasks: seq<Task>, cursor: nat, tick: nat, dispatches: nat)

  /** `saturating_add(1)` on 64 bits. */
  function Bump(c: nat): (r: Counter) { if c >= U64 - 1 then U64 - 1 else c + 1 }

  predicate Exhausted(t: Task) { t.maxRuns != 0 && t.runs >= t.maxRuns }

  /** What a visit does to a task: whether it runs, and what it then is. */
  function Visit(t: Task, tick: nat): (r: (Task, bool))
    requires t.period > 0
  {
    if !t.active || tick % t.period != 0 then (t, false)
    else if Exhausted(t) then (t.(active := false), false)
    else
      var u := t.(runs := Bump(t.runs));
      (u.(active := !Exhausted(u)), true)
  }

  ghost predicate Valid(s: Sched) {
    && (forall i :: 0 <= i < |s.tasks| ==> s.tasks[i].period > 0)
    && (s.cursor < |s.tasks| || (s.tasks == [] && s.cursor == 0))
  }

  /** The visit at the cursor, which moves on; the index if a task ran. */
  function VisitNext(s: Sched, tick: nat): (r: (Sched, Option<nat>))
    requires Valid(s) && |s.tasks| > 0
    ensures Valid(r.0) && |r.0.tasks| == |s.tasks|
    ensures r.1.Some? ==> r.1.value < |s.tasks|
  {
    var i, n := s.cursor, |s.tasks|;
    var (t, ran) := Visit(s.tasks[i], tick);
    var s1 := s.(tasks := s.tasks[i := t], cursor := Slot(n, i, 1));
    if ran then (s1.(dispatches := Bump(s.dispatches)), Some(i)) else (s1, None)
  }

  /** Up to `k` visits from the cursor on, ending with the first task that runs. */
  function Scan(s: Sched, tick: nat, k: nat): (r: (Sched, Option<nat>))
    requires Valid(s) && |s.tasks| > 0
    ensures Valid(r.0) && |r.0.tasks| == |s.tasks|
    ensures r.1.Some? ==> r.1.value < |s.tasks|
    decreases k
  {
    if k == 0 then (s, None)
    else
      var (s1, ran) := VisitNext(s, tick);
      if ran.Some? then (s1, ran) else Scan(s1, tick, k - 1)
  }

  function Ticked(s: Sched, tick: nat): (r: (Sched, Option<nat>))
    requires Valid(s)
    ensures Valid(r.0) && |r.0.tasks| == |s.tasks|
    ensures r.1.Some? ==> r.1.value < |s.tasks|
  {
    var s0 := s.(tick := tick);
    if s.tasks == [] then (s0, None) else Scan(s0, tick, |s.tasks|)
  }

  /** The static task array is kept as the list of its first `task_count` entries. */
  class TaskScheduler {
    var tasks: seq<Task>
    var cursor: nat
    var tick: nat
    var dispatches: nat

    ghost predicate Ok()
      reads this
    {
      |tasks| <= MAX_TASKS && Valid(Now())
    }

    ghost function Now(): (s: Sched)
      reads this
    {
      Sched(tasks, cursor, tick, dispatches)
    }

    constructor ()
      ensures Ok() && Now() == Sched([], 0, 0, 0)
    {
      tasks, cursor, tick, dispatches := [], 0, 0, 0;
    }

    /** A task beyond the eighth is dropped. */
    method Add(t: Task)
      requires Ok() && t.period > 0
      modifies this
      ensures Ok()
      ensures Now() == if |old(tasks)| < MAX_TASKS then old(Now()).(tasks := old(tasks) + [t]) else old(Now())
    {
      if |tasks| < MAX_TASKS { tasks := tasks + [t]; }
    }

    /** One turn of the loop. */
    method VisitAtCursor(currentTick: nat, ghost was: Sched) returns (idx: nat, ran: bool)
      requires Ok() && |tasks| > 0 && was == Now()
      modifies this
      ensures Ok() && |tasks| == |was.tasks| && Now() == VisitNext(was, currentTick).0
      ensures VisitNext(was, currentTick).1 == if ran then Some(idx) else None
    {
      Wrapped(|tasks|, cursor);
      Within(|tasks|, cursor);
      idx := cursor % |tasks|;
      cursor := (cursor + 1) % |tasks|;
      var (t, runs) := Visit(tasks[idx], currentTick);
      tasks := tasks[idx := t];
      ran := runs;
      if ran { dispatches := Bump(dispatches); }
    }

    method OnTick(currentTick: nat) returns (ghost ran: Option<nat>)
      requires Ok()
      modifies this
      ensures Ok() && Now() == Ticked(old(Now()), currentTick).0 && ran == Ticked(old(Now()), currentTick).1
    {
      ran := None;
      tick := currentTick;
      if tasks == [] { return; }
      ran := Round(currentTick, Now());
    }

    /** The loop: at most one round of visits. */
    method Round(currentTick: nat, ghost start: Sched) returns (ghost ran: Option<nat>)
      requires Ok() && |tasks| > 0 && start == Now()
      modifies this
      ensures Ok() && Ends(start, currentTick, |start.tasks|, Now(), ran)
    {
      ran := None;
      ghost var here := start;
      var n := |tasks|;
      for k := 0 to n
        invariant Ok() && |tasks| == n && here == Now() && ran == None && SameEnd(start, currentTick, n, here, n - k)
      {
        var idx, dispatched := VisitAtCursor(currentTick, here);
        VisitEnds(start, currentTick, n, here, n - k);
        here := Now();
        if dispatched {
          ran := Some(idx);
          break;
        }
      }
    }
  }

  ghost predicate Ends(s: Sched, tick: nat, k: nat, end: Sched, ran: Option<nat>) {
    Valid(s) && |s.tasks| > 0 && Scan(s, tick, k).0 == end && Scan(s, tick, k).1 == ran
  }

  ghost predicate SameEnd(s: Sched, tick: nat, k: nat, here: Sched, left: nat) {
    Valid(s) && |s.tasks| > 0 && Valid(here) && |here.tasks| > 0 && Scan(s, tick, k) == Scan(here, tick, left)
  }

  lemma VisitEnds(s: Sched, tick: nat, k: nat, here: Sched, left: nat)
    requires SameEnd(s, tick, k, here, left) && left > 0
    ensures var (next, ran) := VisitNext(here, tick);
            if ran.Some? then Ends(s, tick, k, next, ran) else SameEnd(s, tick, k, next, left - 1)
  {
    ScanStep(here, tick, left);
  }

  lemma ScanStep(s: Sched, tick: nat, k: nat)
    requires Valid(s) && |s.tasks| > 0 && k > 0
    ensures Scan(s, tick, k)
            == if VisitNext(s, tick).1.Some? then VisitNext(s, tick) else Scan(VisitNext(s, tick).0, tick, k - 1)
  {
  }

  lemma Within(n: nat, k: nat)
    requires k < n
    ensures k % n == k
  {
  }

  // ---- One tick --------------------------------------------------------------------------------------------

  /** The task has runs left: it has no limit, or has not reached it. */
  ghost predicate RunsLeft(t: Task) { t.maxRuns == 0 || t.runs < t.maxRuns }

  /** The runs of one task changed by one, those of all others not at all; none is retired that has runs left. */
  ghost predicate OneRan(before: seq<Task>, after: seq<Task>, ran: Option<nat>) {
    && |before| == |after| && (ran.Some? ==> ran.value < |before|)
    && forall i {:trigger after[i]} :: 0 <= i < |before| ==>
         after[i].runs == (if ran == Some(i) then Bump(before[i].runs) else before[i].runs)
             && after[i].period == before[i].period && after[i].maxRuns == before[i].maxRuns
             && (after[i].active ==> before[i].active) && (before[i].active && RunsLeft(after[i]) ==> after[i].active)
  }

  lemma {:induction false} ScanRunsOne(s: Sched, tick: nat, k: nat)
    requires Valid(s) && |s.tasks| > 0
    ensures var (s', ran) := Scan(s, tick, k);
            OneRan(s.tasks, s'.tasks, ran) && s'.dispatches == if ran.Some? then Bump(s.dispatches) else s.dispatches
    decreases k
  {
    if k > 0 {
      var i, n := s.cursor, |s.tasks|;
      var (t, ran) := Visit(s.tasks[i], tick);
      var s1 := s.(tasks := s.tasks[i := t], cursor := Slot(n, i, 1));
      if !ran { ScanRunsOne(s1, tick, k - 1); }
    }
  }

  /** At most one task runs in a tick, and the dispatch counter says whether one did. */
  lemma TickRunsOne(s: Sched, tick: nat)
    requires Valid(s)
    ensures var (s', ran) := Ticked(s, tick);
            OneRan(s.tasks, s'.tasks, ran) && s'.dispatches == if ran.Some? then Bump(s.dispatches) else s.dispatches
  {
    if s.tasks != [] { ScanRunsOne(s.(tick := tick), tick, |s.tasks|); }
  }

  /** May run at this tick. */
  ghost predicate Ready(t: Task, tick: nat) { t.active && t.period > 0 && tick % t.period == 0 && RunsLeft(t) }

  ghost predicate NoneReadyWithin(s: Sched, tick: nat, d: nat)
    requires s.cursor < |s.tasks|
  {
    forall j {:trigger s.tasks[j]} :: 0 <= j < |s.tasks| && Distance(s, j) < d ==> !Ready(s.tasks[j], tick)
  }

  lemma {:induction false} ScanRunsFirstReady(s: Sched, tick: nat, k: nat)
    requires Valid(s) && 0 < |s.tasks| && k <= |s.tasks|
    ensures var ran := Scan(s, tick, k).1;
            if ran.Some? then Ready(s.tasks[ran.value], tick) && Distance(s, ran.value) < k
                && NoneReadyWithin(s, tick, Distance(s, ran.value))
            else NoneReadyWithin(s, tick, k)
    decreases k
  {
    if k > 0 {
      var (s1, ran) := VisitNext(s, tick);
      var i := s.cursor;
      if ran.None? {
        assert !Ready(s.tasks[i], tick);
        ScanRunsFirstReady(s1, tick, k - 1);
        forall j {:trigger s.tasks[j]} | 0 <= j < |s.tasks| && j != i
            ensures s1.tasks[j] == s.tasks[j] && Distance(s, j) == Distance(s1, j) + 1 { }
        assert Distance(s, i) == 0 && Distance(s1, i) == |s.tasks| - 1;
      }
    }
  }

  /** A tick runs the first ready task from the cursor on, and none only when none is ready. */
  lemma TickRunsFirstReady(s: Sched, tick: nat)
    requires Valid(s) && s.tasks != []
    ensures var ran := Ticked(s, tick).1;
            && (ran.None? <==> forall j :: 0 <= j < |s.tasks| ==> !Ready(s.tasks[j], tick))
            && (ran.Some? ==> Ready(s.tasks[ran.value], tick) && NoneReadyWithin(s, tick, Distance(s, ran.value)))
  {
    var s0 := s.(tick := tick);
    ScanRunsFirstReady(s0, tick, |s.tasks|);
    forall j {:trigger s.tasks[j]} | 0 <= j < |s.tasks|
        ensures s0.tasks[j] == s.tasks[j] && Distance(s0, j) == Distance(s, j) < |s.tasks| { }
  }

  // ---- Whole runs ------------------------------------------------------------------------------------------------

  function After(s: Sched, ticks: seq<nat>): (r: Sched)
    requires Valid(s)
    ensures Valid(r) && |r.tasks| == |s.tasks|
  {
    if ticks == [] then s else Ticked(After(s, ticks[..|ticks| - 1]), ticks[|ticks| - 1]).0
  }

  /** How often task `i` was dispatched over the ticks. */
  function Count(s: Sched, ticks: seq<nat>, i: nat): (n: nat)
    requires Valid(s)
  {
    if ticks == [] then 0
    else
      var before := ticks[..|ticks| - 1];
      Count(s, before, i) + if Ticked(After(s, before), ticks[|ticks| - 1]).1 == Some(i) then 1 else 0
  }

  /** Dispatches of the first `n` tasks together. */
  function Total(s: Sched, ticks: seq<nat>, n: nat): (t: nat)
    requires Valid(s)
  {
    if n == 0 then 0 else Total(s, ticks, n - 1) + Count(s, ticks, n - 1)
  }

  function Saturated(c: nat): (r: nat) { if c >= U64 then U64 - 1 else c }

  /** A scheduler that has not run anything yet. */
  ghost predicate Unused(s: Sched) {
    Valid(s) && s.dispatches == 0 && forall i :: 0 <= i < |s.tasks| ==> s.tasks[i].runs == 0
  }

  lemma {:induction false} TotalGrows(s: Sched, ticks: seq<nat>, n: nat)
    requires Valid(s) && ticks != []
    ensures var ran := Ticked(After(s, ticks[..|ticks| - 1]), ticks[|ticks| - 1]).1;
            Total(s, ticks, n) == Total(s, ticks[..|ticks| - 1], n) + if ran.Some? && ran.value < n then 1 else 0
    decreases n
  {
    if n > 0 { TotalGrows(s, ticks, n - 1); }
  }

  lemma {:induction false} TotalOfNothing(s: Sched, n: nat)
    requires Valid(s)
    ensures Total(s, [], n) == 0
  {
    if n > 0 { TotalOfNothing(s, n - 1); }
  }

  /**
    In every run each task's counter and the dispatch counter are exact up to 64 bits: dispatches are
    the sum of runs.
   */
  lemma {:induction false} CountersAreExact(s: Sched, ticks: seq<nat>)
    requires Unused(s)
    ensures var r := After(s, ticks);
            && (forall i {:trigger r.tasks[i]} :: 0 <= i < |r.tasks| ==>
                r.tasks[i].runs == Saturated(Count(s, ticks, i)))
            && r.dispatches == Saturated(Total(s, ticks, |s.tasks|))
    decreases |ticks|
  {
    if ticks == [] {
      TotalOfNothing(s, |s.tasks|);
    } else {
      var before, tick := ticks[..|ticks| - 1], ticks[|ticks| - 1];
      CountersAreExact(s, before);
      TickRunsOne(After(s, before), tick);
      TotalGrows(s, ticks, |s.tasks|);
    }
  }

  /** The runs of the first `n` tasks together. */
  function SumRuns(tasks: seq<Task>, n: nat): (t: nat)
    requires n <= |tasks|
  {
    if n == 0 then 0 else SumRuns(tasks, n - 1) + tasks[n - 1].runs
  }

  lemma {:induction false} RunsAreCounts(s: Sched, ticks: seq<nat>, n: nat)
    requires Unused(s) && n <= |s.tasks| && Total(s, ticks, n) < U64
    ensures SumRuns(After(s, ticks).tasks, n) == Total(s, ticks, n)
    decreases n
  {
    if n > 0 {
      RunsAreCounts(s, ticks, n - 1);
      CountersAreExact(s, ticks);
      assert After(s, ticks).tasks[n - 1].runs == Saturated(Count(s, ticks, n - 1));
    }
  }

  /** The dispatch counter is the sum of the tasks' runs, for as long as it fits its 64 bits. */
  lemma DispatchesAreRuns(s: Sched, ticks: seq<nat>)
    requires Unused(s) && Total(s, ticks, |s.tasks|) < U64
    ensures After(s, ticks).dispatches == SumRuns(After(s, ticks).tasks, |s.tasks|)
  {
    CountersAreExact(s, ticks);
    RunsAreCounts(s, ticks, |s.tasks|);
  }

  ghost predicate WithinLimit(t: Task) { t.maxRuns != 0 ==> t.runs <= t.maxRuns }

  /** A limit that fits its field. */
  ghost predicate LimitsFit(s: Sched) {
    forall i :: 0 <= i < |s.tasks| ==> s.tasks[i].maxRuns < U64 && WithinLimit(s.tasks[i])
  }

  lemma {:induction false} ScanKeepsLimits(s: Sched, tick: nat, k: nat)
    requires Valid(s) && |s.tasks| > 0 && LimitsFit(s)
    ensures LimitsFit(Scan(s, tick, k).0)
    decreases k
  {
    if k > 0 {
      var (t, ran) := Visit(s.tasks[s.cursor], tick);
      var s1 := s.(tasks := s.tasks[s.cursor := t], cursor := Slot(|s.tasks|, s.cursor, 1));
      assert LimitsFit(s1);
      if !ran { ScanKeepsLimits(s1, tick, k - 1); }
    }
  }

  /** No task exceeds a limit other than zero. */
  lemma {:induction false} LimitsHold(s: Sched, ticks: seq<nat>)
    requires Valid(s) && LimitsFit(s)
    ensures LimitsFit(After(s, ticks))
    decreases |ticks|
  {
    if ticks != [] {
      var before := After(s, ticks[..|ticks| - 1]);
      LimitsHold(s, ticks[..|ticks| - 1]);
      if s.tasks != [] { ScanKeepsLimits(before.(tick := ticks[|ticks| - 1]), ticks[|ticks| - 1], |s.tasks|); }
    }
  }

  /** Active tasks have runs left. */
  ghost predicate ActiveHaveRunsLeft(tasks: seq<Task>) {
    forall i {:trigger tasks[i]} :: 0 <= i < |tasks| && tasks[i].active ==> RunsLeft(tasks[i])
  }

  lemma {:induction false} ScanRetires(s: Sched, tick: nat, k: nat)
    requires Valid(s) && |s.tasks| > 0 && ActiveHaveRunsLeft(s.tasks)
    ensures ActiveHaveRunsLeft(Scan(s, tick, k).0.tasks)
    ensures forall i {:trigger s.tasks[i]} :: 0 <= i < |s.tasks| && !s.tasks[i].active ==>
              !Scan(s, tick, k).0.tasks[i].active
    decreases k
  {
    if k > 0 {
      var (s1, ran) := VisitNext(s, tick);
      assert ActiveHaveRunsLeft(s1.tasks);
      if ran.None? { ScanRetires(s1, tick, k - 1); }
      var end := Scan(s, tick, k).0;
      forall i {:trigger s.tasks[i]} | 0 <= i < |s.tasks| && !s.tasks[i].active ensures !end.tasks[i].active {
        assert !s1.tasks[i].active;
      }
    }
  }

  /** A task is retired with its last run, and never comes back. */
  lemma {:induction false} ExhaustedRetire(s: Sched, ticks: seq<nat>)
    requires Valid(s) && ActiveHaveRunsLeft(s.tasks)
    ensures ActiveHaveRunsLeft(After(s, ticks).tasks)
    ensures forall i {:trigger s.tasks[i]} :: 0 <= i < |s.tasks| && !s.tasks[i].active ==>
              !After(s, ticks).tasks[i].active
    decreases |ticks|
  {
    if ticks != [] {
      var before := After(s, ticks[..|ticks| - 1]);
      ExhaustedRetire(s, ticks[..|ticks| - 1]);
      if s.tasks != [] { ScanRetires(before.(tick := ticks[|ticks| - 1]), ticks[|ticks| - 1], |s.tasks|); }
    }
  }

  ghost predicate ActiveIffLeft(start: seq<Task>, now: seq<Task>) {
    && |now| == |start|
    && forall i {:trigger now[i]} :: 0 <= i < |now| ==> (now[i].active <==> start[i].active && RunsLeft(now[i]))
  }

  /** After any run a task is active exactly if it was at the start and has runs left. */
  lemma {:induction false} ActiveExactly(s: Sched, ticks: seq<nat>)
    requires Valid(s) && ActiveHaveRunsLeft(s.tasks)
    ensures ActiveIffLeft(s.tasks, After(s, ticks).tasks)
    decreases |ticks|
  {
    ExhaustedRetire(s, ticks);
    if ticks != [] {
      var before, tick := After(s, ticks[..|ticks| - 1]), ticks[|ticks| - 1];
      ActiveExactly(s, ticks[..|ticks| - 1]);
      TickRunsOne(before, tick);
      FewerLeft(before, tick);
      var now := Ticked(before, tick).0.tasks;
      forall i {:trigger now[i]} | 0 <= i < |now| ensures now[i].active <==> s.tasks[i].active && RunsLeft(now[i]) {
        assert before.tasks[i].active <==> s.tasks[i].active && RunsLeft(before.tasks[i]);
      }
    }
  }

  /** A tick gives no task runs it had not left before. */
  lemma FewerLeft(s: Sched, tick: nat)
    requires Valid(s)
    ensures var now := Ticked(s, tick).0.tasks;
            forall i {:trigger now[i]} :: 0 <= i < |s.tasks| && RunsLeft(now[i]) ==> RunsLeft(s.tasks[i])
  {
    TickRunsOne(s, tick);
  }

  // ---- Fairness ------------------------------------------------------------------------------------------------

  /** A task that is due at every tick. */
  ghost predicate AlwaysDue(s: Sched, j: nat) {
    j < |s.tasks| && s.tasks[j].active && s.tasks[j].period == 1 && s.tasks[j].maxRuns == 0
  }

  /** How many visits away task `j` is. */
  function Distance(s: Sched, j: nat): (d: nat)
    requires s.cursor < |s.tasks| && j < |s.tasks|
  {
    if s.cursor <= j then j - s.cursor else j + |s.tasks| - s.cursor
  }

  /** Either task `j` runs, or the cursor has come closer to it. */
  lemma {:induction false} ScanComesCloser(s: Sched, tick: nat, k: nat, j: nat)
    requires Valid(s) && AlwaysDue(s, j) && Distance(s, j) < k
    ensures var (s', ran) := Scan(s, tick, k);
            AlwaysDue(s', j) && ran.Some? && (ran == Some(j) || Distance(s', j) < Distance(s, j))
    decreases k
  {
    var i, n := s.cursor, |s.tasks|;
    var (t, ran) := Visit(s.tasks[i], tick);
    var s1 := s.(tasks := s.tasks[i := t], cursor := Slot(n, i, 1));
    if i != j && !ran { ScanComesCloser(s1, tick, k - 1, j); }
  }

  /** A task due at every tick runs at least once in any `task_count` ticks, whatever else runs. */
  lemma {:induction false} DueTaskRuns(s: Sched, ticks: seq<nat>, j: nat) returns (k: nat)
    requires Valid(s) && AlwaysDue(s, j) && Distance(s, j) < |ticks|
    ensures k < |ticks| && Ticked(After(s, ticks[..k]), ticks[k]).1 == Some(j)
    decreases |ticks|
  {
    var s0 := s.(tick := ticks[0]);
    ScanComesCloser(s0, ticks[0], |s.tasks|, j);
    var (s1, ran) := Ticked(s, ticks[0]);
    if ran == Some(j) {
      k := 0;
    } else {
      var m := DueTaskRuns(s1, ticks[1..], j);
      k := m + 1;
      AfterFirst(s, ticks[..k]);
      assert ticks[..k][1..] == ticks[1..][..m];
    }
  }

  lemma {:induction false} AfterFirst(s: Sched, ticks: seq<nat>)
    requires Valid(s) && ticks != []
    ensures After(s, ticks) == After(Ticked(s, ticks[0]).0, ticks[1..])
    decreases |ticks|
  {
    if |ticks| == 1 {
      assert ticks[..0] == [] && ticks[1..] == [];
    } else {
      AfterFirst(s, ticks[..|ticks| - 1]);
      assert ticks[1..][..|ticks[1..]| - 1] == ticks[..|ticks| - 1][1..];
    }
  }

  /** From any point of any run: one round of ticks is enough. */
  lemma RunsWithinOneRound(s: Sched, before: seq<nat>, round: seq<nat>, j: nat)
    requires Valid(s) && AlwaysDue(After(s, before), j) && |round| == |s.tasks|
    ensures exists k :: 0 <= k < |round| && Ticked(After(After(s, before), round[..k]), round[k]).1 == Some(j)
  {
    var k := DueTaskRuns(After(s, before), round, j);
  }
}
