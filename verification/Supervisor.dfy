/**
 The restart loop of pulse/task_supervisor.go. The verifier's answers, the
 command's exits and the cancellation of the context are arbitrary; what the
 loop does is recorded as a trace of events.
 */
module Supervisor {
  import opened Sequences

  datatype Domain = Service | StoppableService | RapidService

  type Duration = x: int | -0x8000_0000_0000_0000 <= x < 0x8000_0000_0000_0000

  datatype Task = Task(domain: Domain, minDelay: Duration, maxDelay: Duration, maxAttempts: int)

  datatype Verdict = Verified | Rejected | VerifierFailed

  /** What happens in the n-th round; in the interval [0, horizon) the context may still be alive. */
  datatype World = World(
    cancelledAtStart: nat -> bool,
    verdict: nat -> Verdict,
    exitCode: nat -> int,
    runnerFails: nat -> bool,
    cancelledAfterRun: nat -> bool,
    sleepInterrupted: nat -> bool,
    horizon: nat)

  datatype Event = Checked(verdict: Verdict) | Ran(failed: bool) | Slept(delay: Duration)

  // ----- the delay

  /** Doubling wraps like a 64-bit integer. */
  function Double(d: Duration): Duration {
    if 2 * d >= 0x8000_0000_0000_0000 then 2 * d - 0x1_0000_0000_0000_0000
    else if 2 * d < -0x8000_0000_0000_0000 then 2 * d + 0x1_0000_0000_0000_0000
    else 2 * d
  }

  function NextDelay(d: Duration, max: Duration): Duration {
    if Double(d) > max then max else Double(d)
  }

  /** At most n capped doublings, none once the maximum is reached. */
  function DelayAfter(d: Duration, max: Duration, n: nat): Duration
    decreases n
  {
    if n == 0 || d >= max then d else DelayAfter(NextDelay(d, max), max, n - 1)
  }

  /** The delay after the k-th failure. */
  function Delay(t: Task, k: nat): Duration
    requires k >= 1
  {
    DelayAfter(t.minDelay, t.maxDelay, k - 1)
  }

  function Pow2(n: nat): nat {
    if n == 0 then 1 else 2 * Pow2(n - 1)
  }

  function Min(a: int, b: int): int { if a < b then a else b }

  /** The first of d, 2d, 4d, ... that reaches max. */
  function FirstReach(d: int, max: int): int
    requires d > 0
    decreases max - d
  {
    if d >= max then d else FirstReach(2 * d, max)
  }

  /** While the doublings stay below 2^63 the delay is the capped exponential. */
  lemma {:induction false} BackoffExact(d: Duration, max: Duration, n: nat)
    requires 0 < d <= max && FirstReach(d, max) < 0x8000_0000_0000_0000
    ensures DelayAfter(d, max, n) == Min(d * Pow2(n), max)
    decreases n
  {
    Pow2Positive(n);
    if n == 0 {
    } else if d >= max {
      Scale(d, Pow2(n));
    } else {
      FirstReachGrows(2 * d, max);
      Pow2Positive(n - 1);
      Scale(2 * d, Pow2(n - 1));
      assert d * Pow2(n) == 2 * d * Pow2(n - 1) by { DoubleProduct(d, Pow2(n - 1)); }
      if 2 * d <= max {
        BackoffExact(2 * d, max, n - 1);
      } else {
        assert NextDelay(d, max) == max;
      }
    }
  }

  lemma Scale(d: int, p: nat)
    requires d > 0 && p >= 1
    ensures d * p >= d
  {
  }

  lemma DoubleProduct(d: int, p: int)
    ensures d * (2 * p) == 2 * d * p
  {
  }

  lemma {:induction false} Pow2Positive(n: nat)
    ensures Pow2(n) >= 1
  {
    if n > 0 { Pow2Positive(n - 1); }
  }

  lemma {:induction false} FirstReachGrows(d: int, max: int)
    requires d > 0
    ensures FirstReach(d, max) >= d && FirstReach(d, max) >= max
    decreases max - d
  {
    if d < max { FirstReachGrows(2 * d, max); }
  }

  lemma FirstReachAt(d: int, max: int)
    requires 0 < d <= max < 2 * d
    ensures FirstReach(d, max) <= 2 * d
  {
  }

  /** Once a doubling reaches 2^63 below the maximum, the delay after that many failures is negative. */
  lemma {:induction false} BackoffWraps(d: Duration, max: Duration) returns (n: nat)
    requires 0 < d <= max && FirstReach(d, max) >= 0x8000_0000_0000_0000
    ensures DelayAfter(d, max, n) < 0
    decreases max - d
  {
    if 2 * d >= 0x8000_0000_0000_0000 {
      n := 1;
      assert DelayAfter(NextDelay(d, max), max, 0) < 0;
    } else if 2 * d <= max {
      var m := BackoffWraps(2 * d, max);
      n := m + 1;
    } else {
      n := 0;
      FirstReachAt(d, max);
    }
  }

  /** The smaller of min * 2^(k-1) and max. */
  function Capped(t: Task, k: nat): int
    requires k >= 1
  {
    Min(t.minDelay * Pow2(k - 1), t.maxDelay)
  }

  lemma CappedPositive(t: Task, k: nat)
    requires k >= 1 && 0 < t.minDelay <= t.maxDelay
    ensures Capped(t, k) > 0
  {
    Pow2Positive(k - 1);
    Scale(t.minDelay, Pow2(k - 1));
  }

  /**
   For a positive minimum not above the maximum the delay after every k-th failure
   is the smaller of min * 2^(k-1) and max, exactly when the doublings of the
   minimum reach the maximum below 2^63.
   */
  lemma BackoffIff(t: Task)
    requires 0 < t.minDelay <= t.maxDelay
    ensures (forall k :: k >= 1 ==> Delay(t, k) == Capped(t, k))
            <==> FirstReach(t.minDelay, t.maxDelay) < 0x8000_0000_0000_0000
  {
    if FirstReach(t.minDelay, t.maxDelay) < 0x8000_0000_0000_0000 {
      forall k | k >= 1 ensures Delay(t, k) == Capped(t, k) {
        BackoffExact(t.minDelay, t.maxDelay, k - 1);
      }
    } else {
      var n := BackoffWraps(t.minDelay, t.maxDelay);
      CappedPositive(t, n + 1);
      assert Delay(t, n + 1) < 0;
    }
  }

  /** With a minimum of 2^62 nanoseconds and a maximum one above it, the second delay is negative. */
  lemma SecondDelayWraps(domain: Domain, maxAttempts: int)
    ensures var t := Task(domain, 0x4000_0000_0000_0000, 0x4000_0000_0000_0001, maxAttempts);
            Delay(t, 1) == 0x4000_0000_0000_0000 && Delay(t, 2) == -0x8000_0000_0000_0000
  {
    var t := Task(domain, 0x4000_0000_0000_0000, 0x4000_0000_0000_0001, maxAttempts);
    assert NextDelay(t.minDelay, t.maxDelay) == -0x8000_0000_0000_0000;
    assert DelayAfter(NextDelay(t.minDelay, t.maxDelay), t.maxDelay, 0) == -0x8000_0000_0000_0000;
  }

  /** A maximum of at most 2^62 nanoseconds, about 146 years, is always enough. */
  lemma {:induction false} BackoffSafeBelow(d: int, max: int)
    requires 0 < d < 0x8000_0000_0000_0000 && max <= 0x4000_0000_0000_0000
    ensures FirstReach(d, max) < 0x8000_0000_0000_0000
    decreases max - d
  {
    if d < max { BackoffSafeBelow(2 * d, max); }
  }

  // ----- the trace

  function Runs(trace: seq<Event>): nat {
    if trace == [] then 0
    else Runs(trace[..|trace| - 1]) + if trace[|trace| - 1].Ran? then 1 else 0
  }

  function Delays(trace: seq<Event>): seq<Duration> {
    if trace == [] then []
    else
      var front, last := Delays(trace[..|trace| - 1]), trace[|trace| - 1];
      if last.Slept? then front + [last.delay] else front
  }

  lemma TraceSnoc(trace: seq<Event>, e: Event)
    ensures Runs(trace + [e]) == Runs(trace) + if e.Ran? then 1 else 0
    ensures Delays(trace + [e]) == if e.Slept? then Delays(trace) + [e.delay] else Delays(trace)
  {
    assert (trace + [e])[..|trace|] == trace;
  }

  /** k rounds that failed and were followed by a delay. */
  function Rounds(t: Task, k: nat): seq<Event> {
    if k == 0 then [] else Rounds(t, k - 1) + [Checked(Verified), Ran(true), Slept(Delay(t, k))]
  }

  /** The last round: nothing, a verification, or a verification that succeeded and a run. */
  predicate LastRound(tail: seq<Event>) {
    || tail == []
    || (|tail| == 1 && tail[0].Checked?)
    || (|tail| == 2 && tail[0] == Checked(Verified) && tail[1].Ran?)
  }

  /** The allowed number of restarts. */
  function Allowed(t: Task): nat { if t.maxAttempts > 0 then t.maxAttempts else 0 }

  /** The trace of a service that is not rapid: k failed rounds, no more than allowed, and a last one. */
  predicate ServiceTrace(t: Task, trace: seq<Event>, k: nat) {
    && k <= Allowed(t)
    && Rounds(t, k) <= trace
    && LastRound(trace[|Rounds(t, k)|..])
  }

  /** Every run directly follows a successful verification. */
  predicate RunsVerified(trace: seq<Event>) {
    forall i :: 0 <= i < |trace| && trace[i].Ran? ==> i > 0 && trace[i - 1] == Checked(Verified)
  }

  predicate Backoff(t: Task, delays: seq<Duration>) {
    forall i :: 0 <= i < |delays| ==> delays[i] == Delay(t, i + 1)
  }

  /** One more failed round. */
  lemma RoundsNext(r: seq<Event>, d: Duration)
    ensures var s := r + [Checked(Verified), Ran(true), Slept(d)];
            Runs(s) == Runs(r) + 1 && Delays(s) == Delays(r) + [d]
  {
    TraceSnoc(r, Checked(Verified));
    TraceSnoc(r + [Checked(Verified)], Ran(true));
    TraceSnoc(r + [Checked(Verified)] + [Ran(true)], Slept(d));
    assert r + [Checked(Verified), Ran(true), Slept(d)] == r + [Checked(Verified)] + [Ran(true)] + [Slept(d)];
  }

  lemma {:induction false} RoundsCount(t: Task, k: nat)
    ensures Runs(Rounds(t, k)) == k && |Delays(Rounds(t, k))| == k && Backoff(t, Delays(Rounds(t, k)))
  {
    if k > 0 {
      RoundsCount(t, k - 1);
      RoundsNext(Rounds(t, k - 1), Delay(t, k));
    }
  }

  lemma {:induction false} RoundsVerified(t: Task, k: nat)
    ensures var r := Rounds(t, k);
            && RunsVerified(r)
            && forall i :: 0 <= i < |r| ==> r[i] != Ran(false) && (r[i].Checked? ==> r[i] == Checked(Verified))
  {
    if k > 0 { RoundsVerified(t, k - 1); }
  }

  /**
   Over a whole run the command is started at most RestartMaxAttempts plus one
   times, and the delay after the k-th failure is Delay(t, k).
   */
  lemma RestartsBounded(t: Task, trace: seq<Event>, k: nat)
    requires ServiceTrace(t, trace, k)
    ensures Runs(trace) <= Allowed(t) + 1
    ensures Backoff(t, Delays(trace)) && |Delays(trace)| == k
  {
    var r := Rounds(t, k);
    RoundsCount(t, k);
    LastRoundCounts(r, trace[|r|..]);
    assert trace == r + trace[|r|..];
  }

  lemma LastRoundCounts(r: seq<Event>, tail: seq<Event>)
    requires LastRound(tail)
    ensures Runs(r + tail) <= Runs(r) + 1 && Delays(r + tail) == Delays(r)
  {
    if |tail| == 0 {
      assert r + tail == r;
    } else if |tail| == 1 {
      TraceSnoc(r, tail[0]);
      assert r + tail == r + [tail[0]];
    } else {
      TraceSnoc(r, tail[0]);
      TraceSnoc(r + [tail[0]], tail[1]);
      assert r + tail == r + [tail[0]] + [tail[1]];
    }
  }

  /** Every start directly follows a successful verification; after a clean exit or a refusal nothing follows. */
  lemma RunsAreVerified(t: Task, trace: seq<Event>, k: nat)
    requires ServiceTrace(t, trace, k)
    ensures RunsVerified(trace)
    ensures forall i :: 0 <= i < |trace| - 1 ==> trace[i] != Ran(false) && (trace[i].Checked? ==> trace[i] == Checked(Verified))
  {
    var r := Rounds(t, k);
    RoundsVerified(t, k);
    var tail := trace[|r|..];
    assert forall i :: 0 <= i < |r| ==> trace[i] == r[i];
    assert forall i :: |r| <= i < |trace| ==> trace[i] == tail[i - |r|];
  }

  method ComputeDelay(t: Task, attempts: nat) returns (delay: Duration)
    requires attempts >= 1
    ensures delay == Delay(t, attempts)
  {
    delay := t.minDelay;
    var i := 1;
    while i < attempts && delay < t.maxDelay
      invariant 1 <= i <= attempts
      invariant DelayAfter(delay, t.maxDelay, attempts - i) == Delay(t, attempts)
    {
      delay := Double(delay);
      if delay > t.maxDelay {
        delay := t.maxDelay;
      }
      i := i + 1;
    }
  }

  // ----- what the world decides

  /** The context is alive and the verifier accepts: the command is started in round n. */
  predicate Starts(w: World, n: nat) {
    !w.cancelledAtStart(n) && w.verdict(n) == Verified
  }

  predicate Fails(w: World, n: nat) {
    w.runnerFails(n) || w.exitCode(n) != 0
  }

  /** Round n of a service is followed by another one. */
  predicate Again(t: Task, w: World, n: nat) {
    Starts(w, n) && Fails(w, n) && !w.cancelledAfterRun(n) && n < Allowed(t) && !w.sleepInterrupted(n)
  }

  /** What round n of a service does; n failures came before. */
  function RoundEvents(t: Task, w: World, n: nat): seq<Event> {
    if w.cancelledAtStart(n) then []
    else if w.verdict(n) != Verified then [Checked(w.verdict(n))]
    else if w.cancelledAfterRun(n) || !Fails(w, n) || n >= Allowed(t) then [Checked(Verified), Ran(Fails(w, n))]
    else [Checked(Verified), Ran(true), Slept(Delay(t, n + 1))]
  }

  function TraceFrom(t: Task, w: World, n: nat): seq<Event>
    decreases Allowed(t) - n
  {
    RoundEvents(t, w, n) + if Again(t, w, n) then TraceFrom(t, w, n + 1) else []
  }

  /** The trace of a whole run of a service. */
  function TraceOf(t: Task, w: World): seq<Event> { TraceFrom(t, w, 0) }

  lemma {:induction false} RunsSum(a: seq<Event>, b: seq<Event>)
    ensures Runs(a + b) == Runs(a) + Runs(b)
    decreases |b|
  {
    if b == [] {
      assert a + b == a;
    } else {
      assert (a + b)[..|a + b| - 1] == a + b[..|b| - 1];
      RunsSum(a, b[..|b| - 1]);
    }
  }

  function One(e: Event): nat { if e.Ran? then 1 else 0 }

  lemma RunsOfFew(a: Event, b: Event, c: Event)
    ensures Runs([a]) == One(a) && Runs([a, b]) == One(a) + One(b) && Runs([a, b, c]) == One(a) + One(b) + One(c)
  {
    TraceSnoc([], a);
    TraceSnoc([a], b);
    TraceSnoc([a, b], c);
    assert [] + [a] == [a] && [a] + [b] == [a, b] && [a, b] + [c] == [a, b, c];
  }

  lemma RunsOfRound(t: Task, w: World, n: nat)
    ensures Runs(RoundEvents(t, w, n)) == if Starts(w, n) then 1 else 0
  {
    RunsOfFew(Checked(w.verdict(n)), Ran(Fails(w, n)), Slept(Delay(t, n + 1)));
  }

  lemma RunsFrom(t: Task, w: World, n: nat)
    ensures Runs(TraceFrom(t, w, n)) ==
            (if Starts(w, n) then 1 else 0) + if Again(t, w, n) then Runs(TraceFrom(t, w, n + 1)) else 0
  {
    RunsOfRound(t, w, n);
    RunsSum(RoundEvents(t, w, n), if Again(t, w, n) then TraceFrom(t, w, n + 1) else []);
  }

  predicate AllAgain(t: Task, w: World, n: nat, j: nat) {
    forall i :: n <= i < j ==> Again(t, w, i)
  }

  /** From round n on, the command is started in round j exactly when it may start there and all rounds before are followed by another. */
  lemma {:induction false} StartsFrom(t: Task, w: World, n: nat, j: nat)
    requires n <= j
    ensures Runs(TraceFrom(t, w, n)) > j - n <==> AllAgain(t, w, n, j) && Starts(w, j)
    decreases j - n
  {
    RunsFrom(t, w, n);
    if n < j && Again(t, w, n) {
      StartsFrom(t, w, n + 1, j);
      assert AllAgain(t, w, n, j) <==> AllAgain(t, w, n + 1, j);
    } else if n == j && Again(t, w, n) {
      assert Starts(w, n);
    }
  }

  /** In round i the command ran and failed, by its exit code or its runner, nothing was cancelled and a restart was left. */
  predicate Retried(t: Task, w: World, i: nat) {
    && !w.cancelledAtStart(i) && w.verdict(i) == Verified
    && (w.exitCode(i) != 0 || w.runnerFails(i))
    && !w.cancelledAfterRun(i) && i < t.maxAttempts && !w.sleepInterrupted(i)
  }

  /**
   A service is started more than j times exactly when in round j the context is alive
   and the verifier accepts, and each earlier round was followed by a restart.
   */
  lemma StartsIff(t: Task, w: World, j: nat)
    ensures Runs(TraceOf(t, w)) > j <==>
            !w.cancelledAtStart(j) && w.verdict(j) == Verified && forall i :: 0 <= i < j ==> Retried(t, w, i)
  {
    StartsFrom(t, w, 0, j);
    forall i: nat ensures Retried(t, w, i) <==> Again(t, w, i) {}
  }

  /** The event as the world decides it in round n. */
  function TrueEvent(e: Event, w: World, n: nat): Event {
    match e
    case Checked(_) => Checked(w.verdict(n))
    case Ran(_) => Ran(w.exitCode(n) != 0 || w.runnerFails(n))
    case Slept(delay) => Slept(delay)
  }

  /** Every verdict and exit in the trace is that of its round; n runs came before. */
  predicate Truthful(trace: seq<Event>, w: World, n: nat) {
    trace == [] || (trace[0] == TrueEvent(trace[0], w, n) && Truthful(trace[1..], w, n + One(trace[0])))
  }

  lemma TruthfulCons(e: Event, rest: seq<Event>, w: World, n: nat)
    requires e == TrueEvent(e, w, n) && Truthful(rest, w, n + One(e))
    ensures Truthful([e] + rest, w, n)
  {
    assert ([e] + rest)[1..] == rest;
  }

  lemma TruthfulRound(t: Task, w: World, n: nat, rest: seq<Event>)
    requires if Again(t, w, n) then Truthful(rest, w, n + 1) else rest == []
    ensures Truthful(RoundEvents(t, w, n) + rest, w, n)
  {
    var checked, ran, slept := Checked(w.verdict(n)), Ran(Fails(w, n)), Slept(Delay(t, n + 1));
    var last := if |RoundEvents(t, w, n)| == 3 then [slept] + rest else rest;
    if |RoundEvents(t, w, n)| == 3 { TruthfulCons(slept, rest, w, n + 1); }
    if Starts(w, n) { TruthfulCons(ran, last, w, n); }
    if !w.cancelledAtStart(n) { TruthfulCons(checked, if Starts(w, n) then [ran] + last else [], w, n); }
    assert RoundEvents(t, w, n) + rest ==
           if w.cancelledAtStart(n) then [] else if Starts(w, n) then [checked] + ([ran] + last) else [checked] + [];
  }

  /** The verdicts and exits in a trace are those of the rounds that they come from. */
  lemma {:induction false} TraceReports(t: Task, w: World, n: nat)
    ensures Truthful(TraceFrom(t, w, n), w, n)
    decreases Allowed(t) - n
  {
    if Again(t, w, n) { TraceReports(t, w, n + 1); }
    TruthfulRound(t, w, n, TraceRest(t, w, n + 1, Again(t, w, n)));
  }

  /** Nothing is cancelled, the check passes and the run fails. */
  predicate FailsUndisturbed(w: World, n: nat) {
    Starts(w, n) && Fails(w, n) && !w.cancelledAfterRun(n) && !w.sleepInterrupted(n)
  }

  /** When that is so in every round, the service is started exactly RestartMaxAttempts plus one times. */
  lemma FailingServiceStarts(t: Task, w: World)
    requires forall n :: FailsUndisturbed(w, n)
    ensures Runs(TraceOf(t, w)) == Allowed(t) + 1
  {
    forall i | 0 <= i < Allowed(t) ensures Again(t, w, i) { assert FailsUndisturbed(w, i); }
    assert FailsUndisturbed(w, Allowed(t));
    StartsFrom(t, w, 0, Allowed(t));
    StartsFrom(t, w, 0, Allowed(t) + 1);
    assert !Again(t, w, Allowed(t));
  }

  /** What follows when round n is, or is not, the next one. */
  function TraceRest(t: Task, w: World, n: nat, again: bool): seq<Event> {
    if again then TraceFrom(t, w, n) else []
  }

  lemma TraceNext(t: Task, w: World, n: nat, before: seq<Event>)
    ensures before + TraceFrom(t, w, n) == (before + RoundEvents(t, w, n)) + TraceRest(t, w, n + 1, Again(t, w, n))
  {
    Associative(before, RoundEvents(t, w, n), TraceRest(t, w, n + 1, Again(t, w, n)));
  }

  lemma RoundOrTail(t: Task, w: World, n: nat)
    requires n <= Allowed(t)
    ensures Again(t, w, n) ==> Rounds(t, n) + RoundEvents(t, w, n) == Rounds(t, n + 1)
    ensures exists k :: ServiceTrace(t, Rounds(t, n) + RoundEvents(t, w, n), k)
  {
    var ev := RoundEvents(t, w, n);
    if |ev| == 3 {
      RoundAdded(t, Rounds(t, n), ev, n);
    } else {
      TailAdded(t, Rounds(t, n), ev, n);
    }
  }

  /** The trace has the form of k failed rounds and a last one. */
  lemma {:induction false} TraceHasForm(t: Task, w: World, n: nat)
    requires n <= Allowed(t)
    ensures exists k :: ServiceTrace(t, Rounds(t, n) + TraceFrom(t, w, n), k)
    decreases Allowed(t) - n
  {
    TraceNext(t, w, n, Rounds(t, n));
    RoundOrTail(t, w, n);
    if Again(t, w, n) {
      TraceHasForm(t, w, n + 1);
    } else {
      Unit(Rounds(t, n) + RoundEvents(t, w, n));
    }
  }

  lemma Unit(trace: seq<Event>)
    ensures trace + [] == trace && [] + trace == trace
  {
  }

  /** One round; again tells whether another one follows. */
  method RunRound(t: Task, w: World, n: nat) returns (events: seq<Event>, again: bool)
    requires t.domain != RapidService
    ensures events == RoundEvents(t, w, n) && again == Again(t, w, n)
  {
    if w.cancelledAtStart(n) { return [], false; }
    events := [Checked(w.verdict(n))];
    if w.verdict(n) != Verified { return events, false; }
    var failed := w.runnerFails(n) || w.exitCode(n) != 0;
    events := events + [Ran(failed)];
    if w.cancelledAfterRun(n) || !failed || n + 1 > t.maxAttempts { return events, false; }
    var delay := ComputeDelay(t, n + 1);
    events := events + [Slept(delay)];
    return events, !w.sleepInterrupted(n);
  }

  /** runService for a service or stoppable service; it ends whatever the world does. */
  method RunService(t: Task, w: World) returns (trace: seq<Event>)
    requires t.domain != RapidService
    ensures trace == TraceOf(t, w)
    ensures exists k :: ServiceTrace(t, trace, k)
  {
    trace := [];
    var attempts := 0;
    var again := true;
    Unit(TraceOf(t, w));
    while again
      invariant attempts <= Allowed(t)
      invariant trace + TraceRest(t, w, attempts, again) == TraceOf(t, w)
      decreases again, Allowed(t) - attempts
    {
      var events;
      TraceNext(t, w, attempts, trace);
      events, again := RunRound(t, w, attempts);
      trace := trace + events;
      if again { attempts := attempts + 1; }
    }
    Unit(trace);
    TraceHasForm(t, w, 0);
  }

  lemma RoundAdded(t: Task, trace: seq<Event>, events: seq<Event>, k: nat)
    requires k < Allowed(t) && trace == Rounds(t, k)
    requires events == [Checked(Verified), Ran(true), Slept(Delay(t, k + 1))]
    ensures trace + events == Rounds(t, k + 1) && ServiceTrace(t, trace + events, k + 1)
  {
  }

  lemma TailAdded(t: Task, trace: seq<Event>, events: seq<Event>, k: nat)
    requires k <= Allowed(t) && trace == Rounds(t, k) && LastRound(events)
    ensures ServiceTrace(t, trace + events, k)
  {
    assert (trace + events)[|trace|..] == events;
  }

  // ----- rapid services

  /** The context is cancelled at some time. */
  ghost predicate Ends(w: World) {
    forall n :: n >= w.horizon ==> w.cancelledAtStart(n)
  }

  /** Round n of a rapid service is followed by another one, whatever the exit. */
  predicate RapidAgain(w: World, n: nat) {
    Starts(w, n) && !w.cancelledAfterRun(n)
  }

  function RapidEvents(w: World, n: nat): seq<Event> {
    if w.cancelledAtStart(n) then []
    else if w.verdict(n) != Verified then [Checked(w.verdict(n))]
    else [Checked(Verified), Ran(Fails(w, n))]
  }

  ghost function RapidTraceFrom(w: World, n: nat): seq<Event>
    requires Ends(w)
    decreases w.horizon - n
  {
    RapidEvents(w, n) + if RapidAgain(w, n) then RapidTraceFrom(w, n + 1) else []
  }

  /** The trace of a whole run of a rapid service. */
  ghost function RapidTraceOf(w: World): seq<Event>
    requires Ends(w)
  {
    RapidTraceFrom(w, 0)
  }

  lemma RapidRunsFrom(w: World, n: nat)
    requires Ends(w)
    ensures Runs(RapidTraceFrom(w, n)) ==
            (if Starts(w, n) then 1 else 0) + if RapidAgain(w, n) then Runs(RapidTraceFrom(w, n + 1)) else 0
  {
    RunsOfRapidRound(w, n);
    RunsSum(RapidEvents(w, n), if RapidAgain(w, n) then RapidTraceFrom(w, n + 1) else []);
  }

  predicate AllRapidAgain(w: World, n: nat, j: nat) {
    forall i :: n <= i < j ==> RapidAgain(w, i)
  }

  lemma {:induction false} RapidStartsFrom(w: World, n: nat, j: nat)
    requires Ends(w) && n <= j
    ensures Runs(RapidTraceFrom(w, n)) > j - n <==> AllRapidAgain(w, n, j) && Starts(w, j)
    decreases j - n
  {
    RapidRunsFrom(w, n);
    if n < j && RapidAgain(w, n) {
      RapidStartsFrom(w, n + 1, j);
      assert AllRapidAgain(w, n, j) <==> AllRapidAgain(w, n + 1, j);
    }
  }

  lemma RunsOfRapidRound(w: World, n: nat)
    ensures Runs(RapidEvents(w, n)) == if Starts(w, n) then 1 else 0
  {
    RunsOfFew(Checked(w.verdict(n)), Ran(Fails(w, n)), Ran(Fails(w, n)));
  }

  /** A rapid service is started more than j times exactly when all checks up to round j pass and the context is alive until then: exits do not matter. */
  lemma RapidStartsIff(w: World, j: nat)
    requires Ends(w)
    ensures Runs(RapidTraceOf(w)) > j <==> AllRapidAgain(w, 0, j) && Starts(w, j)
  {
    RapidStartsFrom(w, 0, j);
  }

  /** It never sleeps, each start directly follows a successful verification, and a refusal comes last. */
  predicate RapidForm(trace: seq<Event>) {
    && RunsVerified(trace)
    && (forall i :: 0 <= i < |trace| ==> !trace[i].Slept?)
    && (forall i :: 0 <= i < |trace| - 1 && trace[i].Checked? ==> trace[i] == Checked(Verified))
  }

  lemma RapidRoundFirst(failed: bool, rest: seq<Event>)
    requires RapidForm(rest)
    ensures RapidForm([Checked(Verified), Ran(failed)] + rest)
  {
    var trace := [Checked(Verified), Ran(failed)] + rest;
    forall i | 2 <= i < |trace| && trace[i].Ran? ensures trace[i - 1] == Checked(Verified) { assert rest[i - 2].Ran?; }
  }

  lemma RapidOnce(w: World, n: nat)
    requires Ends(w) && RapidAgain(w, n) && RapidForm(RapidTraceFrom(w, n + 1))
    ensures RapidForm(RapidTraceFrom(w, n))
  {
    RapidRoundFirst(Fails(w, n), RapidTraceFrom(w, n + 1));
    assert RapidTraceFrom(w, n) == [Checked(Verified), Ran(Fails(w, n))] + RapidTraceFrom(w, n + 1);
  }

  lemma {:induction false} RapidRunsAreVerified(w: World, n: nat)
    requires Ends(w)
    ensures RapidForm(RapidTraceFrom(w, n))
    decreases w.horizon - n
  {
    if RapidAgain(w, n) {
      RapidRunsAreVerified(w, n + 1);
      RapidOnce(w, n);
    } else {
      RapidLast(w, n);
    }
  }

  lemma RapidLast(w: World, n: nat)
    requires Ends(w) && !RapidAgain(w, n)
    ensures RapidForm(RapidTraceFrom(w, n))
  {
    Unit(RapidEvents(w, n));
  }

  lemma RapidNext(w: World, n: nat, before: seq<Event>)
    requires Ends(w)
    ensures before + RapidTraceFrom(w, n) ==
            (before + RapidEvents(w, n)) + if RapidAgain(w, n) then RapidTraceFrom(w, n + 1) else []
  {
    Associative(before, RapidEvents(w, n), if RapidAgain(w, n) then RapidTraceFrom(w, n + 1) else []);
  }

  /** runService for a rapid service restarts after every completion, until the context is cancelled. */
  method RunRapidService(t: Task, w: World) returns (trace: seq<Event>)
    requires t.domain == RapidService && Ends(w)
    ensures trace == RapidTraceOf(w)
    ensures RapidForm(trace)
  {
    RapidRunsAreVerified(w, 0);
    trace := [];
    var n := 0;
    Unit(RapidTraceOf(w));
    while !w.cancelledAtStart(n)
      invariant trace + RapidTraceFrom(w, n) == RapidTraceOf(w)
      decreases w.horizon - n
    {
      RapidNext(w, n, trace);
      if w.verdict(n) != Verified {
        trace := trace + [Checked(w.verdict(n))];
        Unit(trace);
        return;
      }
      trace := trace + [Checked(Verified), Ran(w.runnerFails(n) || w.exitCode(n) != 0)];
      Unit(trace);
      if w.cancelledAfterRun(n) { return; }
      n := n + 1;
    }
    RapidNext(w, n, trace);
    Unit(trace);
  }
}
