/**
  The work queues of the cores. A ring buffer is a queue when one caller uses it at a time; the
  global ring is used by many cores under the ticket lock, one memory access at a time, and still
  behaves as a queue: jobs leave in the order they came, none is lost or doubled.
 */
module JobQueue {
  import opened Bytes
  import opened TicketLock

  const GLOBAL_QUEUE_SIZE: nat := 64

  datatype Job = Job(func: nat, arg: nat, priority: nat, affinity: int)

  const EMPTY_JOB: Job := Job(0, 0, 2, -1)

  // ---- The ring as a value -----------------------------------------------------------------------------

  datatype Ring = Ring(jobs: seq<Job>, head: nat, tail: nat, count: nat)

  /** The index `i` places after `from` on a ring of `n`. */
  function Slot(n: nat, from: nat, i: nat): (k: nat)
    requires from < n && i <= n
    ensures k < n
  {
    if from + i < n then from + i else from + i - n
  }

  lemma Wrapped(n: nat, k: nat)
    requires k < n
    ensures (k + 1) % n == Slot(n, k, 1)
  {
    if k + 1 < n { assert (k + 1) % n == k + 1; } else { assert n % n == 0; }
  }

  /** The ring holds `q`, its first job at the head. */
  ghost predicate Represents(r: Ring, q: seq<Job>) {
    var n := |r.jobs|;
    && r.head < n && r.count == |q| <= n && r.tail == Slot(n, r.head, r.count)
    && forall i {:trigger q[i]} :: 0 <= i < |q| ==> r.jobs[Slot(n, r.head, i)] == q[i]
  }

  /** Filling the tail slot of a ring that is not full. */
  lemma Stores(r: Ring, q: seq<Job>, job: Job)
    requires Represents(r, q) && r.count < |r.jobs|
    ensures Represents(r.(jobs := r.jobs[r.tail := job]), q)
  {
    var s := r.(jobs := r.jobs[r.tail := job]);
    forall i {:trigger q[i]} | 0 <= i < |q| ensures s.jobs[Slot(|s.jobs|, s.head, i)] == q[i] { }
  }

  /** Slot filled, tail moved, count raised: the job is at the end. */
  lemma Appends(r: Ring, q: seq<Job>, job: Job)
    requires Represents(r, q) && r.count < |r.jobs| && r.jobs[r.tail] == job
    ensures Represents(r.(tail := Slot(|r.jobs|, r.tail, 1), count := r.count + 1), q + [job])
  {
    var s, p := r.(tail := Slot(|r.jobs|, r.tail, 1), count := r.count + 1), q + [job];
    forall i {:trigger p[i]} | 0 <= i < |p| ensures s.jobs[Slot(|s.jobs|, s.head, i)] == p[i] {
      if i < |q| { assert p[i] == q[i]; }
    }
  }

  /** Head moved, count lowered: the first job is gone. */
  lemma Removes(r: Ring, q: seq<Job>)
    requires Represents(r, q) && |q| > 0
    ensures r.jobs[r.head] == q[0]
    ensures Represents(r.(head := Slot(|r.jobs|, r.head, 1), count := r.count - 1), q[1..])
  {
    var s, p := r.(head := Slot(|r.jobs|, r.head, 1), count := r.count - 1), q[1..];
    assert r.jobs[Slot(|r.jobs|, r.head, 0)] == q[0];
    forall i {:trigger p[i]} | 0 <= i < |p| ensures s.jobs[Slot(|s.jobs|, s.head, i)] == p[i] {
      assert p[i] == q[i + 1];
    }
  }

  // ---- The ring as the source has it ------------------------------------------------------------------------

  /** `LocalQueue` and `SharedQueue`, which differ in their size only. */
  class Queue {
    const size: nat
    const jobs: array<Job>
    var head: nat
    var tail: nat
    var count: nat
    ghost var contents: seq<Job>

    ghost predicate Valid()
      reads this, jobs
    {
      jobs.Length == size && Represents(Ring(jobs[..], head, tail, count), contents)
    }

    constructor (n: nat)
      requires n > 0
      ensures Valid() && size == n && contents == []
    {
      size := n;
      jobs := new Job[n](_ => EMPTY_JOB);
      head, tail, count, contents := 0, 0, 0, [];
    }

    method Push(job: Job) returns (ok: bool)
      requires Valid()
      modifies this, jobs
      ensures Valid()
      ensures ok <==> |old(contents)| < size
      ensures contents == if ok then old(contents) + [job] else old(contents)
    {
      if count >= size { return false; }
      ghost var was := Ring(jobs[..], head, tail, count);
      Stores(was, contents, job);
      Appends(was.(jobs := was.jobs[tail := job]), contents, job);
      Wrapped(size, tail);
      jobs[tail] := job;
      tail := (tail + 1) % size;
      count := count + 1;
      contents := contents + [job];
      return true;
    }

    method Pop() returns (r: Option<Job>)
      requires Valid()
      modifies this
      ensures Valid()
      ensures r.None? <==> old(contents) == []
      ensures r.Some? ==> old(contents) == [r.value] + contents
      ensures r.None? ==> contents == old(contents)
    {
      if count == 0 { return None; }
      Removes(Ring(jobs[..], head, tail, count), contents);
      Wrapped(size, head);
      var job := jobs[head];
      head := (head + 1) % size;
      count := count - 1;
      contents := contents[1..];
      return Some(job);
    }
  }

  // ---- The global queue under the lock --------------------------------------------------------------------------

  datatype Op = Push(job: Job) | Pop
  datatype Stage = Begin | Stored | Moved | Done

  /** What a caller inside the lock is doing and how far it has come. */
  datatype Work = Work(op: Op, stage: Stage, got: Option<Job>)

  /** Lock, ring, the callers' work, and all jobs pushed and popped so far. */
  datatype Machine = Machine(lock: State, ring: Ring, work: seq<Work>, pushed: seq<Job>, popped: seq<Job>)

  datatype Event = Lock(action: Action, op: Op) | Access

  /** One access to the ring by the caller that is inside. */
  function AfterAccess(m: Machine, i: nat): (r: Machine)
    requires i < |m.work| && m.ring.tail < |m.ring.jobs| && m.ring.head < |m.ring.jobs|
  {
    var w, r, n := m.work[i], m.ring, |m.ring.jobs|;
    match (w.op, w.stage)
    case (Push(job), Begin) =>
      if r.count >= n then m.(work := m.work[i := w.(stage := Done)])
      else m.(ring := r.(jobs := r.jobs[r.tail := job]), work := m.work[i := w.(stage := Stored)])
    case (Push(job), Stored) => m.(ring := r.(tail := (r.tail + 1) % n), work := m.work[i := w.(stage := Moved)])
    case (Push(job), Moved) =>
      m.(ring := r.(count := r.count + 1), work := m.work[i := w.(stage := Done)], pushed := m.pushed + [job])
    case (Pop, Begin) =>
      if r.count == 0 then m.(work := m.work[i := w.(stage := Done)])
      else m.(work := m.work[i := w.(stage := Stored, got := Some(r.jobs[r.head]))])
    case (Pop, Stored) => m.(ring := r.(head := (r.head + 1) % n), work := m.work[i := w.(stage := Moved)])
    case (Pop, Moved) =>
      m.(ring := r.(count := if r.count > 0 then r.count - 1 else 0), work := m.work[i := w.(stage := Done)],
         popped := m.popped + (if w.got.Some? then [w.got.value] else []))
    case (_, Done) => m
  }

  /** A step of caller `i`: on the lock, or on the ring while inside; a guard is dropped once the work is done. */
  ghost predicate Move(m: Machine, m': Machine, i: nat, e: Event) {
    match e
    case Lock(a, op) =>
      && i < |m.work| && Step(m.lock, m'.lock, i, a) && (a.Drop? ==> m.work[i].stage.Done?)
      && m' == m.(lock := m'.lock, work := if a.Enter? || a.SwapOk? then m.work[i := Work(op, Begin, None)] else m.work)
    case Access =>
      && i < |m.work| && Holds(m.lock, i) && m.ring.tail < |m.ring.jobs| && m.ring.head < |m.ring.jobs|
        && m' == AfterAccess(m, i)
  }

  /** The ring while a caller works on it: what it held before the work, up to the half-made change. */
  ghost predicate During(r: Ring, w: Work, q: seq<Job>) {
    var n := |r.jobs|;
    match (w.op, w.stage)
    case (Push(job), Stored) => Represents(r, q) && r.count < n && r.jobs[r.tail] == job
    case (Push(job), Moved) =>
      n > 0 && exists t: nat ::
          t < n && r.tail == Slot(n, t, 1) && Represents(r.(tail := t), q) && r.count < n && r.jobs[t] == job
    case (Pop, Stored) => Represents(r, q) && |q| > 0 && w.got == Some(q[0])
    case (Pop, Moved) =>
      n > 0 && exists h: nat ::
          h < n && r.head == Slot(n, h, 1) && Represents(r.(head := h), q) && |q| > 0 && w.got == Some(q[0])
    case _ => Represents(r, q)
  }

  ghost function Queued(m: Machine): (q: seq<Job>)
    requires |m.popped| <= |m.pushed|
  {
    m.pushed[|m.popped|..]
  }

  ghost predicate RingFits(m: Machine)
    requires |m.popped| <= |m.pushed|
  {
    if Held(m.lock) then forall i: nat {:trigger Holds(m.lock, i)} :: i < |m.work| && Holds(m.lock, i) ==>
          During(m.ring, m.work[i], Queued(m))
    else Represents(m.ring, Queued(m))
  }

  ghost predicate Sound(m: Machine) {
    && Inv(m.lock) && |m.work| == |m.lock.callers| && |m.ring.jobs| == GLOBAL_QUEUE_SIZE
    && m.popped <= m.pushed && RingFits(m)
  }

  /** An access keeps the half-made change on track, and makes it count when it is complete. */
  lemma AccessOnTrack(m: Machine, i: nat)
    requires i < |m.work| && m.popped <= m.pushed && During(m.ring, m.work[i], Queued(m)) && m.ring.head < |m.ring.jobs|
             && m.ring.tail < |m.ring.jobs|
    ensures var m' := AfterAccess(m, i);
            m'.popped <= m'.pushed && |m'.ring.jobs| == |m.ring.jobs| && During(m'.ring, m'.work[i], Queued(m'))
  {
    var w, r, q := m.work[i], m.ring, Queued(m);
    var m' := AfterAccess(m, i);
    Wrapped(|r.jobs|, r.tail);
    Wrapped(|r.jobs|, r.head);
    match (w.op, w.stage) {
      case (Push(job), Begin) => if r.count < |r.jobs| { Stores(r, q, job); }
      case (Push(job), Stored) => assert r.tail < |r.jobs| && Represents(m'.ring.(tail := r.tail), q);
      case (Push(job), Moved) => PushCounts(m, i, job);
      case (Pop, Begin) => if r.count > 0 { Removes(r, q); }
      case (Pop, Stored) => assert r.head < |r.jobs| && Represents(m'.ring.(head := r.head), q);
      case (Pop, Moved) => PopCounts(m, i);
      case _ =>
    }
  }

  lemma PushCounts(m: Machine, i: nat, job: Job)
    requires i < |m.work| && m.popped <= m.pushed && m.work[i].op == Push(job) && m.work[i].stage == Moved
    requires During(m.ring, m.work[i], Queued(m)) && m.ring.head < |m.ring.jobs| && m.ring.tail < |m.ring.jobs|
    ensures var m' := AfterAccess(m, i); m'.popped <= m'.pushed && Represents(m'.ring, Queued(m'))
  {
    var r, q, m' := m.ring, Queued(m), AfterAccess(m, i);
    var t: nat :| t < |r.jobs| && r.tail == Slot(|r.jobs|, t, 1) && Represents(r.(tail := t), q) && r.count < |r.jobs|
        && r.jobs[t] == job;
    Appends(r.(tail := t), q, job);
    assert Queued(m') == q + [job];
    assert m'.ring == r.(tail := t).(tail := Slot(|r.jobs|, t, 1), count := r.count + 1);
  }

  lemma PopCounts(m: Machine, i: nat)
    requires i < |m.work| && m.popped <= m.pushed && m.work[i].op == Pop && m.work[i].stage == Moved
    requires During(m.ring, m.work[i], Queued(m)) && m.ring.head < |m.ring.jobs| && m.ring.tail < |m.ring.jobs|
    ensures var m' := AfterAccess(m, i); m'.popped <= m'.pushed && Represents(m'.ring, Queued(m'))
  {
    var r, q, m' := m.ring, Queued(m), AfterAccess(m, i);
    var h: nat :| h < |r.jobs| && r.head == Slot(|r.jobs|, h, 1) && Represents(r.(head := h), q) && |q| > 0
        && m.work[i].got == Some(q[0]);
    Removes(r.(head := h), q);
    assert m.pushed[|m.popped|] == q[0];
    assert Queued(m') == q[1..];
    assert m'.ring == r.(head := h).(head := Slot(|r.jobs|, h, 1), count := r.count - 1);
  }

  lemma AccessKeepsSound(m: Machine, m': Machine, i: nat)
    requires Sound(m) && Move(m, m', i, Access)
    ensures Sound(m')
  {
    assert Held(m.lock) && During(m.ring, m.work[i], Queued(m));
    AccessOnTrack(m, i);
    assert m'.lock == m.lock && |m'.work| == |m.work|;
    forall j: nat {:trigger Holds(m'.lock, j)} | j < |m'.work| && Holds(m'.lock, j)
        ensures During(m'.ring, m'.work[j], Queued(m')) {
      AtMostOneGuard(m.lock, i, j);
    }
  }

  /** A push finds no room exactly when the ring is full, a pop no job exactly when it is empty, and else the oldest. */
  lemma TurnedAwayExactly(m: Machine, m': Machine, i: nat)
    requires Sound(m) && Move(m, m', i, Access) && m.work[i].stage == Begin
    ensures m.work[i].op.Push? ==> (m'.work[i].stage == Done <==> |Queued(m)| == GLOBAL_QUEUE_SIZE)
    ensures m.work[i].op.Pop? ==> (m'.work[i].stage == Done <==> Queued(m) == [])
    ensures m.work[i].op.Pop? && Queued(m) != [] ==> m'.work[i].got == Some(Queued(m)[0])
  {
    assert Held(m.lock) && During(m.ring, m.work[i], Queued(m));
    if Queued(m) != [] { Removes(m.ring, Queued(m)); }
  }

  lemma LockKeepsSound(m: Machine, m': Machine, i: nat, a: Action, op: Op)
    requires Sound(m) && Move(m, m', i, Lock(a, op))
    ensures Sound(m')
  {
    StepKeepsInv(m.lock, m'.lock, i, a);
    HeldAfter(m.lock, m'.lock, i, a);
    var q := Queued(m);
    if a.Drop? {
      assert Holds(m.lock, i) && During(m.ring, m.work[i], q);
    } else if a.Enter? {
      NotYetHeld(m.lock, i, m.lock.callers[i].ticket);
      EnteredRing(m, m', i);
    } else if a.SwapOk? {
      assert PhaseFits(m.lock, m.lock.callers[i]);
      NobodyHolds(m.lock);
      EnteredRing(m, m', i);
    } else if Held(m.lock) {
      forall j: nat {:trigger Holds(m'.lock, j)} | j < |m'.work| && Holds(m'.lock, j)
          ensures During(m'.ring, m'.work[j], q) {
        assert Holds(m.lock, j);
      }
    }
  }

  lemma EnteredRing(m: Machine, m': Machine, i: nat)
    requires Sound(m) && !Held(m.lock) && i < |m.work| && Inv(m'.lock) && Holds(m'.lock, i)
    requires m'.ring == m.ring && m'.pushed == m.pushed && m'.popped == m.popped && |m'.work| == |m.work|
             && m'.work[i].stage == Begin
    ensures RingFits(m')
  {
    forall j: nat {:trigger Holds(m'.lock, j)} | j < |m'.work| && Holds(m'.lock, j)
        ensures During(m'.ring, m'.work[j], Queued(m')) {
      AtMostOneGuard(m'.lock, i, j);
    }
  }

  // ---- Whole runs ------------------------------------------------------------------------------------------------

  ghost predicate MoveExists(m: Machine, m': Machine) { exists i: nat, e :: Move(m, m', i, e) }

  ghost predicate Fresh(m: Machine) {
    && m.lock == Initial(|m.lock.callers|) && |m.work| == |m.lock.callers| && m.pushed == m.popped == []
    && |m.ring.jobs| == GLOBAL_QUEUE_SIZE && m.ring.head == m.ring.tail == m.ring.count == 0
  }

  ghost predicate IsQueueRun(run: seq<Machine>) {
    |run| > 0 && Fresh(run[0]) && forall k {:trigger run[k]} :: 0 < k < |run| ==> MoveExists(run[k - 1], run[k])
  }

  lemma FreshIsSound(m: Machine)
    requires Fresh(m)
    ensures Sound(m)
  {
    InitialInv(|m.lock.callers|);
    forall i: nat ensures !Holds(m.lock, i) { }
  }

  lemma {:induction false} RunsStaySound(run: seq<Machine>, k: nat)
    requires IsQueueRun(run) && k < |run|
    ensures Sound(run[k])
    decreases k
  {
    if k == 0 {
      FreshIsSound(run[0]);
    } else {
      RunsStaySound(run, k - 1);
      assert MoveExists(run[k - 1], run[k]);
      var i: nat, e :| Move(run[k - 1], run[k], i, e);
      match e {
        case Lock(a, op) => LockKeepsSound(run[k - 1], run[k], i, a, op);
        case Access => AccessKeepsSound(run[k - 1], run[k], i);
      }
    }
  }

  /**
    In every interleaving jobs leave in the order they were accepted, and while nobody is inside
    the accepted jobs are those that left followed by those in the ring.
   */
  lemma JobsLeaveInOrder(run: seq<Machine>, k: nat)
    requires IsQueueRun(run) && k < |run|
    ensures run[k].popped <= run[k].pushed
    ensures !Held(run[k].lock) ==>
              && |run[k].pushed| == |run[k].popped| + run[k].ring.count
              && exists q :: Represents(run[k].ring, q) && run[k].pushed == run[k].popped + q
  {
    RunsStaySound(run, k);
    var m := run[k];
    if !Held(m.lock) { assert Represents(m.ring, Queued(m)) && m.pushed == m.popped + Queued(m); }
  }
}
