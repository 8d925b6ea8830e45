/**
  The wall clock kept in milliseconds from a tick counter. Ticks and changes of the tick rate
  never turn it back, and with each change it falls behind the exact time by less than one
  millisecond.
 */
module WallClock {
  import opened Bytes

  const I64_MAX: int := 0x7FFF_FFFF_FFFF_FFFF

  /** `TICKS`, `TICK_US`, `WALL_CLOCK_BASE_UNIX_MS` and `WALL_CLOCK_BASE_TICKS`. */
  datatype Time = Time(ticks: nat, tickUs: nat, baseMs: int, baseTicks: nat)

  const BOOT_TIME: Time := Time(0, 10_000, 1_780_531_200_000, 0)

  function SatSub(a: nat, b: nat): (r: nat) { if a < b then 0 else a - b }

  function SatMul(a: nat, b: nat): (r: nat) { if a * b >= U64 then U64 - 1 else a * b }

  function SatAdd(a: int, b: nat): (r: int) { if a + b > I64_MAX then I64_MAX else a + b }

  /** `elapsed_ms_since`; the result fits a signed word, so the cast that follows is exact. */
  function ElapsedMs(t: Time): (r: nat)
    ensures r <= I64_MAX
  {
    SatMul(SatSub(t.ticks, t.baseTicks), t.tickUs) / 1000
  }

  /** `wall_clock_unix_millis`. */
  function Wall(t: Time): (ms: int) { SatAdd(t.baseMs, ElapsedMs(t)) }

  datatype Event = Tick | InitPolling(ms: nat) | SetHz(hz: nat)

  function Clamp(v: nat, lo: nat, hi: nat): (r: nat)
    requires lo <= hi
    ensures lo <= r <= hi
  {
    if v < lo then lo else if v > hi then hi else v
  }

  /** The tick length a rate change asks for. */
  function TickUsOf(e: Event): (us: nat)
    requires !e.Tick?
    ensures us >= 1000
  {
    match e
    case InitPolling(ms) => SatMul(Max(ms, 1), 1000)
    case SetHz(hz) => 1_000_000 / Clamp(hz, 18, 1000)
  }

  /** The rate the timer can be set to. */
  ghost function NearestHz(hz: nat): (r: nat) { if hz < 18 then 18 else if hz > 1000 then 1000 else hz }

  /** A tick of a polling period is that many milliseconds, at least one; of a rate, whole microseconds. */
  lemma TickLength(ms: nat, hz: nat)
    ensures ms * 1000 < U64 ==> TickUsOf(InitPolling(ms)) == 1000 * (if ms == 0 then 1 else ms)
    ensures ms * 1000 >= U64 ==> TickUsOf(InitPolling(ms)) == U64 - 1
    ensures var us := TickUsOf(SetHz(hz)); us * NearestHz(hz) <= 1_000_000 < (us + 1) * NearestHz(hz)
  {
    var f := NearestHz(hz);
    assert 1_000_000 == 1_000_000 / f * f + 1_000_000 % f;
  }

  function After(t: Time, e: Event): (r: Time) {
    if e.Tick? then t.(ticks := if t.ticks == U64 - 1 then 0 else t.ticks + 1)
    else Time(0, TickUsOf(e), Wall(t), 0)
  }

  class Clock {
    var ticks: nat
    var tickUs: nat
    var baseMs: int
    var baseTicks: nat

    ghost function Now(): (t: Time)
      reads this
    {
      Time(ticks, tickUs, baseMs, baseTicks)
    }

    constructor ()
      ensures Now() == BOOT_TIME
    {
      ticks, tickUs, baseMs, baseTicks := 0, 10_000, 1_780_531_200_000, 0;
    }

    /**
      The base and the whole milliseconds that have passed since, as long as nothing is out of range.
     */
    method UnixMillis() returns (ms: int)
      ensures ms == Wall(Now())
      ensures InRange(Now()) ==> 1000 * (ms - baseMs) <= (ticks - baseTicks) * tickUs < 1000 * (ms - baseMs) + 1000
      ensures baseMs <= I64_MAX ==> baseMs <= ms <= I64_MAX
    {
      assert InRange(Now()) ==> 1000 * (Wall(Now()) - baseMs) + Fraction(Now()) == (ticks - baseTicks) * tickUs by {
        if InRange(Now()) { ShownAndHidden(Now()); }
      }
      var elapsed := SatMul(SatSub(ticks, baseTicks), tickUs) / 1000;
      return SatAdd(baseMs, elapsed);
    }

    method PreserveAroundReset()
      modifies this`baseMs, this`baseTicks
      ensures baseMs == old(Wall(Now())) && baseTicks == 0
    {
      var now := UnixMillis();
      baseMs := now;
      baseTicks := 0;
    }

    method OnTick()
      modifies this
      ensures Now() == After(old(Now()), Tick)
    {
      ticks := if ticks == U64 - 1 then 0 else ticks + 1;
    }

    method InitPolling(ms: nat)
      modifies this
      ensures Now() == After(old(Now()), Event.InitPolling(ms))
      ensures ms * 1000 < U64 ==> tickUs == 1000 * (if ms == 0 then 1 else ms)
      ensures old(baseMs) <= I64_MAX ==> Wall(Now()) == old(Wall(Now()))
    {
      PreserveAroundReset();
      ticks := 0;
      tickUs := SatMul(Max(ms, 1), 1000);
    }

    method SetIrqTickHz(hz: nat)
      modifies this
      ensures Now() == After(old(Now()), SetHz(hz))
      ensures tickUs * NearestHz(hz) <= 1_000_000 < (tickUs + 1) * NearestHz(hz)
      ensures old(baseMs) <= I64_MAX ==> Wall(Now()) == old(Wall(Now()))
    {
      var safe := Clamp(hz, 18, 1000);
      PreserveAroundReset();
      ticks := 0;
      tickUs := 1_000_000 / safe;
      TickLength(0, hz);
    }

    /** Setting the clock is exact at that moment. */
    method SetUnixMillis(ms: int)
      requires ms <= I64_MAX
      modifies this
      ensures Wall(Now()) == ms && ticks == old(ticks) && tickUs == old(tickUs) && baseTicks <= ticks
    {
      baseMs := ms;
      baseTicks := ticks;
    }
  }

  // ---- Never backwards -----------------------------------------------------------------------------------

  /** What every state the kernel reaches satisfies: no tick length below a millisecond is ever set. */
  ghost predicate Ok(t: Time) { t.baseTicks <= t.ticks < U64 && t.baseMs <= I64_MAX && t.tickUs >= 1000 }

  lemma MoreTicks(a: nat, b: nat, us: nat)
    requires a <= b
    ensures a * us <= b * us
  {
  }

  /** The event is a tick that wraps the counter while the clock shows more than its base. */
  predicate TurnsBack(t: Time, e: Event) {
    e.Tick? && t.ticks == U64 - 1 && t.baseTicks < t.ticks && t.baseMs < I64_MAX
  }

  /** Exactly such a tick turns the clock back; a change of the rate leaves the time shown as it is. */
  lemma BackwardsIffWrap(t: Time, e: Event)
    requires Ok(t)
    ensures Wall(After(t, e)) >= Wall(t) <==> !TurnsBack(t, e)
    ensures !e.Tick? ==> Wall(After(t, e)) == Wall(t)
  {
    if e.Tick? {
      if t.ticks < U64 - 1 {
        MoreTicks(t.ticks - t.baseTicks, t.ticks + 1 - t.baseTicks, t.tickUs);
      } else if t.baseTicks < t.ticks {
        MoreTicks(1, t.ticks - t.baseTicks, t.tickUs);
      }
    }
  }

  /** The last tick before the counter wraps takes the clock back to its base. */
  lemma WrapTurnsBack()
    ensures var t := BOOT_TIME.(ticks := U64 - 1);
            Ok(t) && TurnsBack(t, Tick) && Wall(After(t, Tick)) == t.baseMs < Wall(t)
  {
    BackwardsIffWrap(BOOT_TIME.(ticks := U64 - 1), Tick);
  }

  // ---- Runs --------------------------------------------------------------------------------------------------

  function AfterAll(t: Time, es: seq<Event>): (r: Time) {
    if es == [] then t else After(AfterAll(t, es[..|es| - 1]), es[|es| - 1])
  }

  /** No tick of the run wraps the counter. */
  predicate NeverWraps(t: Time, es: seq<Event>) {
    forall k :: 0 <= k < |es| && es[k].Tick? ==> AfterAll(t, es[..k]).ticks < U64 - 1
  }

  /** Over any run on which the counter does not wrap, later is never earlier. */
  lemma {:induction false} NeverBackwards(t: Time, es: seq<Event>, i: nat)
    requires Ok(t) && NeverWraps(t, es) && i <= |es|
    ensures Ok(AfterAll(t, es)) && Wall(AfterAll(t, es[..i])) <= Wall(AfterAll(t, es))
    decreases |es|
  {
    if i == |es| {
      assert es[..i] == es;
    }
    if es != [] {
      var init, last := es[..|es| - 1], es[|es| - 1];
      forall k | 0 <= k < |init| && init[k].Tick? ensures AfterAll(t, init[..k]).ticks < U64 - 1 {
        assert init[..k] == es[..k];
      }
      NeverBackwards(t, init, if i < |es| then i else |init|);
      BackwardsIffWrap(AfterAll(t, init), last);
      assert i < |es| ==> init[..i] == es[..i];
    }
  }

  // ---- The lag ---------------------------------------------------------------------------------------------

  /** The exact time since the base of `t`, in microseconds: what had elapsed, and each tick with its length. */
  function ExactUs(t: Time, es: seq<Event>): (us: nat)
  {
    if es == [] then SatSub(t.ticks, t.baseTicks) * t.tickUs
    else ExactUs(t, es[..|es| - 1]) + if es[|es| - 1].Tick? then AfterAll(t, es[..|es| - 1]).tickUs else 0
  }

  function Resets(es: seq<Event>): (k: nat) {
    if es == [] then 0 else Resets(es[..|es| - 1]) + if es[|es| - 1].Tick? then 0 else 1
  }

  /** Nothing saturates or wraps: the time since the last reset and the wall clock stay within their words. */
  ghost predicate InRange(t: Time) {
    Ok(t) && (t.ticks - t.baseTicks) * t.tickUs < U64 && t.baseMs + (t.ticks - t.baseTicks) * t.tickUs / 1000 <= I64_MAX
  }

  ghost predicate StaysInRange(t: Time, es: seq<Event>) { forall k :: 0 <= k <= |es| ==> InRange(AfterAll(t, es[..k])) }

  lemma ShorterStays(t: Time, es: seq<Event>)
    requires es != [] && StaysInRange(t, es)
    ensures StaysInRange(t, es[..|es| - 1]) && InRange(AfterAll(t, es[..|es| - 1])) && InRange(AfterAll(t, es))
  {
    var init := es[..|es| - 1];
    forall k | 0 <= k <= |init| ensures InRange(AfterAll(t, init[..k])) { assert init[..k] == es[..k]; }
    assert init[..|init|] == init && es[..|es|] == es;
  }

  /** The fraction of a millisecond the clock does not show. */
  function Fraction(t: Time): (us: nat) { SatSub(t.ticks, t.baseTicks) * t.tickUs % 1000 }

  lemma ShownAndHidden(t: Time)
    requires InRange(t)
    ensures 1000 * (Wall(t) - t.baseMs) + Fraction(t) == (t.ticks - t.baseTicks) * t.tickUs
  {
    var us := (t.ticks - t.baseTicks) * t.tickUs;
    assert us == 1000 * (us / 1000) + us % 1000;
  }

  /** The counter cannot wrap while the times are in range. */
  lemma NoWrap(t: Time)
    requires InRange(t) && InRange(After(t, Tick))
    ensures t.ticks < U64 - 1
  {
    if t.ticks == U64 - 1 { MoreUs(t.ticks, 1000, t.tickUs); }
  }

  lemma MoreUs(n: nat, a: nat, b: nat)
    requires a <= b
    ensures n * a <= n * b
  {
  }

  lemma OneTickMore(n: nat, us: nat)
    ensures (n + 1) * us == n * us + us
  {
  }

  /** A tick adds its length to what is shown and the fraction. */
  lemma TickShows(t: Time)
    requires InRange(t) && InRange(After(t, Tick))
    ensures var r := After(t, Tick); 1000 * Wall(r) + Fraction(r) == 1000 * Wall(t) + Fraction(t) + t.tickUs
  {
    ShownAndHidden(t);
    ShownAndHidden(After(t, Tick));
    NoWrap(t);
    OneTickMore(t.ticks - t.baseTicks, t.tickUs);
  }

  /** A reset forgets the fraction. */
  lemma ResetHides(t: Time, e: Event)
    requires InRange(t) && !e.Tick?
    ensures var r := After(t, e); Wall(r) == Wall(t) && Fraction(r) == 0 && Fraction(t) < 1000
  {
  }

  /** The exact time is the shown time, the fraction now, and less than a millisecond for each reset. */
  lemma {:induction false} LagIsSmall(t: Time, es: seq<Event>)
    requires StaysInRange(t, es)
    ensures var shown := 1000 * (Wall(AfterAll(t, es)) - t.baseMs);
            var hidden := ExactUs(t, es) - shown - Fraction(AfterAll(t, es));
            0 <= hidden <= 999 * Resets(es)
    decreases |es|
  {
    assert InRange(AfterAll(t, es[..|es|])) && es[..|es|] == es;
    if es != [] {
      var before := AfterAll(t, es[..|es| - 1]);
      ShorterStays(t, es);
      LagIsSmall(t, es[..|es| - 1]);
      if es[|es| - 1].Tick? { TickShows(before); } else { ResetHides(before, es[|es| - 1]); }
    }
  }

  /**
    Over any run with `k` rate changes the clock lags the exact time by less than `k + 1`
    milliseconds, and never leads.
   */
  lemma LagsLessThanResets(t: Time, es: seq<Event>)
    requires StaysInRange(t, es)
    ensures var shown := 1000 * (Wall(AfterAll(t, es)) - t.baseMs);
            shown <= ExactUs(t, es) < shown + 1000 * (Resets(es) + 1)
  {
    LagIsSmall(t, es);
  }
}
