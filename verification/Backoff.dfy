/** The reconnect policy of broker/broker.go: Fibonacci delays up to a cap, a few retries
    at the cap, then silence until the broker reports "_.ready" again. */
module Backoff {
  import opened Wrappers
  import opened Fibonacci

  /** durationMax and overstayAttempts, in seconds and in attempts. */
  const DURATION_MAX: int := Fibonacci.BROKER_CAP as int
  const OVERSTAY_ATTEMPTS := 2

  /** The two counters of a Broker that decide about retries. */
  datatype Retry = Retry(duration: int, overstayCount: int)

  /** What a broker meets: a failed stream, with the answer its OwerstayingFunc would give
      and whether its context is still usable, or the "_.ready" event. */
  datatype Event =
    | Failure(handled: bool, live: bool)
    | Ready

  const FRESH := Retry(0, 0)

  /** One call of restart or one "_.ready": the new counters, and the wait it requests. */
  function Step(s: Retry, e: Event): (Retry, Option<int>) {
    match e
    case Ready => (FRESH, None)
    case Failure(handled, live) =>
      var atMax := s.duration == DURATION_MAX;
      var count := if atMax then s.overstayCount + 1 else s.overstayCount;
      if (atMax && (count > OVERSTAY_ATTEMPTS || handled)) || !live then
        (Retry(s.duration, count), None)
      else
        var d := Delay(s.duration, DURATION_MAX);
        (Retry(d, count), Some(d))
  }

  /** The waits requested over a whole sequence of events. */
  function Waits(s: Retry, es: seq<Event>): seq<int>
    decreases |es|
  {
    if es == [] then []
    else
      var (s', w) := Step(s, es[0]);
      match w
      case None => Waits(s', es[1..])
      case Some(d) => [d] + Waits(s', es[1..])
  }

  function After(s: Retry, es: seq<Event>): Retry
    decreases |es|
  {
    if es == [] then s else After(Step(s, es[0]).0, es[1..])
  }

  function Sum(ws: seq<int>): int {
    if ws == [] then 0 else ws[0] + Sum(ws[1..])
  }

  lemma SumOfFirst(s: Retry, es: seq<Event>)
    requires es != []
    ensures var (s', w) := Step(s, es[0]);
      && |Waits(s, es)| == (if w.Some? then 1 else 0) + |Waits(s', es[1..])|
      && Sum(Waits(s, es)) == (if w.Some? then w.value else 0) + Sum(Waits(s', es[1..]))
  {
    var (s', w) := Step(s, es[0]);
    if w.Some? {
      assert Waits(s, es)[1..] == Waits(s', es[1..]);
    }
  }

  // ----- the orbit of delays -----

  /** A stage of the backoff: the waits and the seconds still ahead before the cap is held. */
  datatype Stage = Stage(waits: nat, seconds: nat)

  /** The delays a broker can hold, each with its stage. */
  function StageOf(d: int): Option<Stage> {
    match d
    case 0 => Some(Stage(8, 77))
    case 1 => Some(Stage(7, 76))
    case 2 => Some(Stage(6, 74))
    case 3 => Some(Stage(5, 71))
    case 5 => Some(Stage(4, 66))
    case 8 => Some(Stage(3, 58))
    case 13 => Some(Stage(2, 45))
    case 21 => Some(Stage(1, 24))
    case 24 => Some(Stage(0, 0))
    case _ => None
  }

  ghost predicate OnOrbit(s: Retry) {
    StageOf(s.duration).Some? && s.overstayCount >= 0
  }

  lemma DelayIs(k: nat, x: nat)
    requires k >= 2 && x < Fib(k) && (k == 2 || Fib(k - 1) <= x)
    ensures Delay(x, DURATION_MAX) == Min(Fib(k), DURATION_MAX)
  {
    FirstAboveIsLeast(k, x);
    assert LeastFibAbove(x, FibAbove(x));
  }

  lemma SmallFibs()
    ensures Fib(1) == 1 && Fib(2) == 1 && Fib(3) == 2 && Fib(4) == 3 && Fib(5) == 5
    ensures Fib(6) == 8 && Fib(7) == 13 && Fib(8) == 21 && Fib(9) == 34
  {
  }

  /** From any delay on the orbit, fibo moves one stage ahead; at the cap it stays. */
  lemma OrbitStep(d: int)
    requires StageOf(d).Some?
    ensures var n, here := Delay(d, DURATION_MAX), StageOf(d).value;
      if d == DURATION_MAX then n == d
      else StageOf(n) == Some(Stage(here.waits - 1, here.seconds - n)) && n > 0
  {
    SmallFibs();
    match d
    case 0 => DelayIs(2, 0);
    case 1 => DelayIs(3, 1);
    case 2 => DelayIs(4, 2);
    case 3 => DelayIs(5, 3);
    case 5 => DelayIs(6, 5);
    case 8 => DelayIs(7, 8);
    case 13 => DelayIs(8, 13);
    case 21 => DelayIs(9, 21);
    case _ => DelayIs(9, 24);
  }

  // ----- the measure -----

  function RetriesLeft(s: Retry): nat {
    if s.overstayCount < OVERSTAY_ATTEMPTS then OVERSTAY_ATTEMPTS - s.overstayCount else 0
  }

  /** Waits a broker may still request before it gives up. */
  function WaitsLeft(s: Retry): nat
    requires OnOrbit(s)
  {
    StageOf(s.duration).value.waits + RetriesLeft(s)
  }

  /** Seconds those waits add up to. */
  function TimeLeft(s: Retry): nat
    requires OnOrbit(s)
  {
    StageOf(s.duration).value.seconds + DURATION_MAX * RetriesLeft(s)
  }

  /** A failure keeps the orbit, and every wait it requests is paid for by the measure;
      a live failure lowers the measure unless the broker has already given up. */
  lemma FailurePays(s: Retry, e: Event)
    requires OnOrbit(s) && e.Failure?
    ensures var (s', w) := Step(s, e);
      && OnOrbit(s')
      && WaitsLeft(s') + (if w.Some? then 1 else 0) <= WaitsLeft(s)
      && TimeLeft(s') + (if w.Some? then w.value else 0) <= TimeLeft(s)
      && (e.live && WaitsLeft(s) > 0 ==> WaitsLeft(s') < WaitsLeft(s))
  {
    OrbitStep(s.duration);
  }

  /** When a failure makes the broker wait, and what it leaves of the counters. */
  lemma WaitsExactly(s: Retry, handled: bool, live: bool)
    ensures var (s', w) := Step(s, Failure(handled, live));
      && (w.Some? <==> live && !(s.duration == 24 && (s.overstayCount >= 2 || handled)))
      && (w.Some? ==> w == Some(s'.duration) && s'.duration == Delay(s.duration, 24))
      && (w == None ==> s'.duration == s.duration)
      && s'.overstayCount == s.overstayCount + (if s.duration == 24 then 1 else 0)
  {
  }

  // ----- whole runs -----

  lemma {:induction false} RunPays(s: Retry, es: seq<Event>)
    requires OnOrbit(s) && Ready !in es
    ensures OnOrbit(After(s, es))
    ensures WaitsLeft(After(s, es)) + |Waits(s, es)| <= WaitsLeft(s)
    ensures TimeLeft(After(s, es)) + Sum(Waits(s, es)) <= TimeLeft(s)
    decreases |es|
  {
    if es == [] {
    } else {
      assert es[0] in es;
      FailurePays(s, es[0]);
      SumOfFirst(s, es);
      RunPays(Step(s, es[0]).0, es[1..]);
    }
  }

  lemma FreshBudget()
    ensures OnOrbit(FRESH) && WaitsLeft(FRESH) == 10 && TimeLeft(FRESH) == 125
  {
  }

  /** Whatever OwerstayingFunc answers and whenever contexts end, failures without a
      "_.ready" in between request at most 10 waits, 125 seconds in all. */
  lemma RetriesBounded(es: seq<Event>)
    requires Ready !in es
    ensures |Waits(FRESH, es)| <= 10
    ensures Sum(Waits(FRESH, es)) <= 125
  {
    FreshBudget();
    RunPays(FRESH, es);
  }

  function Readies(es: seq<Event>): nat {
    if es == [] then 0 else (if es[0].Ready? then 1 else 0) + Readies(es[1..])
  }

  /** Over a whole life of the broker, each "_.ready" renews the budget exactly once. */
  lemma {:induction false} LifetimeBounded(s: Retry, es: seq<Event>)
    requires OnOrbit(s)
    ensures |Waits(s, es)| <= WaitsLeft(s) + 10 * Readies(es)
    ensures Sum(Waits(s, es)) <= TimeLeft(s) + 125 * Readies(es)
    decreases |es|
  {
    if es == [] {
    } else {
      FreshBudget();
      if es[0].Failure? {
        FailurePays(s, es[0]);
      }
      SumOfFirst(s, es);
      LifetimeBounded(Step(s, es[0]).0, es[1..]);
    }
  }

  function LiveFailures(es: seq<Event>): nat {
    if es == [] then 0
    else (if es[0].Failure? && es[0].live then 1 else 0) + LiveFailures(es[1..])
  }

  lemma {:induction false} LiveFailuresUseBudget(s: Retry, es: seq<Event>)
    requires OnOrbit(s) && Ready !in es
    ensures OnOrbit(After(s, es))
    ensures WaitsLeft(After(s, es)) <= WaitsLeft(s)
    ensures WaitsLeft(After(s, es)) == 0 || WaitsLeft(After(s, es)) + LiveFailures(es) <= WaitsLeft(s)
    decreases |es|
  {
    if es == [] {
    } else {
      assert es[0] in es;
      FailurePays(s, es[0]);
      LiveFailuresUseBudget(Step(s, es[0]).0, es[1..]);
    }
  }

  /** After ten live failures without "_.ready" the broker is silent: no later failure,
      however it is answered, makes it wait or reconnect again. */
  lemma GivesUp(es: seq<Event>, later: seq<Event>)
    requires Ready !in es && LiveFailures(es) >= 10 && Ready !in later
    ensures Waits(After(FRESH, es), later) == []
  {
    FreshBudget();
    LiveFailuresUseBudget(FRESH, es);
    RunPays(After(FRESH, es), later);
  }

  lemma UnhandledSpends(s: Retry)
    requires OnOrbit(s)
    ensures var (s', w) := Step(s, Failure(false, true));
      && OnOrbit(s')
      && (w.Some? <==> WaitsLeft(s) > 0)
      && WaitsLeft(s') + (if w.Some? then 1 else 0) == WaitsLeft(s)
      && TimeLeft(s') + (if w.Some? then w.value else 0) == TimeLeft(s)
  {
    OrbitStep(s.duration);
  }

  /** The bounds are reached: while every context stays live and OwerstayingFunc never takes
      over, all waits of the budget are requested, for all of its time. */
  lemma {:induction false} BudgetIsSpent(s: Retry, es: seq<Event>)
    requires OnOrbit(s) && |es| >= WaitsLeft(s)
    requires forall i :: 0 <= i < |es| ==> es[i] == Failure(false, true)
    ensures |Waits(s, es)| == WaitsLeft(s) && Sum(Waits(s, es)) == TimeLeft(s)
    decreases |es|
  {
    if es == [] {
    } else {
      UnhandledSpends(s);
      SumOfFirst(s, es);
      BudgetIsSpent(Step(s, es[0]).0, es[1..]);
    }
  }

  /** Ten waits and 125 seconds are exact, not only upper bounds. */
  lemma BoundIsReached(es: seq<Event>)
    requires |es| >= 10 && forall i :: 0 <= i < |es| ==> es[i] == Failure(false, true)
    ensures |Waits(FRESH, es)| == 10 && Sum(Waits(FRESH, es)) == 125
  {
    FreshBudget();
    BudgetIsSpent(FRESH, es);
  }

  /** A broker whose context is cancelled, or that is marked done, never waits again, however
      often it fails. */
  lemma {:induction false} DeadIsSilent(s: Retry, es: seq<Event>)
    requires forall i :: 0 <= i < |es| ==> es[i].Failure? && !es[i].live
    ensures Waits(s, es) == [] && After(s, es).duration == s.duration
    decreases |es|
  {
    if es == [] {
    } else {
      WaitsExactly(s, es[0].handled, es[0].live);
      DeadIsSilent(Step(s, es[0]).0, es[1..]);
    }
  }

  /** At the cap, no failure that OwerstayingFunc handles makes the broker wait. */
  lemma {:induction false} HandledIsSilent(s: Retry, es: seq<Event>)
    requires s.duration == 24 && forall i :: 0 <= i < |es| ==> es[i].Failure? && es[i].handled
    ensures Waits(s, es) == [] && After(s, es) == Retry(24, s.overstayCount + |es|)
    decreases |es|
  {
    if es == [] {
    } else {
      WaitsExactly(s, es[0].handled, es[0].live);
      HandledIsSilent(Step(s, es[0]).0, es[1..]);
    }
  }

  /** What OwerstayingFunc answers is not asked below the cap. */
  lemma HandledBelowCap(s: Retry, live: bool)
    requires s.duration != 24
    ensures Step(s, Failure(true, live)) == Step(s, Failure(false, live))
  {
  }
}
