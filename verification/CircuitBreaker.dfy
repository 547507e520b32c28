/**
 The circuit breaker (`common/circuit_breaker.py`) around calls that may overlap freely: a call is
 admitted or refused when it starts and records its outcome when it ends.
 */
module CircuitBreaker {
  import opened Basics

  datatype CircuitState = Closed | Open | HalfOpen

  datatype Config = Config(threshold: int, recovery: real)

  datatype Breaker = Breaker(state: CircuitState, failures: int, lastFailure: Option<real>)

  const FRESH := Breaker(Closed, 0, None)

  /** A failure time counts only when it is neither missing nor zero. */
  predicate Recovered(b: Breaker, cfg: Config, now: real) {
    b.lastFailure.Some? && b.lastFailure.value != 0.0 && now - b.lastFailure.value >= cfg.recovery
  }

  predicate Admits(b: Breaker, cfg: Config, now: real) {
    b.state != Open || Recovered(b, cfg, now)
  }

  function Asked(b: Breaker, cfg: Config, now: real): Breaker {
    if b.state == Open && Recovered(b, cfg, now) then b.(state := HalfOpen) else b
  }

  function Succeeded(b: Breaker): Breaker {
    if b.state == HalfOpen then FRESH else b.(failures := 0)
  }

  function Failed(b: Breaker, cfg: Config, now: real): Breaker {
    var counted := b.(failures := b.failures + 1, lastFailure := Some(now));
    if b.state == HalfOpen || counted.failures >= cfg.threshold then counted.(state := Open) else counted
  }

  class CircuitBreaker {
    const cfg: Config
    var state: CircuitState
    var failures: int
    var lastFailure: Option<real>

    constructor (cfg: Config)
      ensures this.cfg == cfg && Value() == FRESH
    {
      this.cfg := cfg;
      state, failures, lastFailure := Closed, 0, None;
    }

    ghost function Value(): Breaker
      reads this
    {
      Breaker(state, failures, lastFailure)
    }

    method CanExecute(now: real) returns (ok: bool)
      modifies this
      ensures ok == Admits(old(Value()), cfg, now) && Value() == Asked(old(Value()), cfg, now)
    {
      if state == Closed {
        return true;
      }
      if state == Open {
        if lastFailure.Some? && lastFailure.value != 0.0 && now - lastFailure.value >= cfg.recovery {
          state := HalfOpen;
          return true;
        }
        return false;
      }
      return true;
    }

    method RecordSuccess()
      modifies this
      ensures Value() == Succeeded(old(Value()))
    {
      if state == HalfOpen {
        state, failures, lastFailure := Closed, 0, None;
      } else {
        failures := 0;
      }
    }

    method RecordFailure(now: real)
      modifies this
      ensures Value() == Failed(old(Value()), cfg, now)
    {
      failures := failures + 1;
      lastFailure := Some(now);
      if state == HalfOpen {
        state := Open;
      } else if failures >= cfg.threshold {
        state := Open;
      }
    }
  }

  /** Breakers by name: the configuration of the first request for a name is the one that stays. */
  class Registry {
    var breakers: map<string, CircuitBreaker>

    constructor ()
      ensures breakers == map[]
    {
      breakers := map[];
    }

    method GetOrCreate(name: string, cfg: Config) returns (breaker: CircuitBreaker)
      modifies this
      ensures breakers == old(breakers)[name := breaker]
      ensures name in old(breakers) ==> breaker == old(breakers)[name]
      ensures name !in old(breakers) ==> fresh(breaker) && breaker.cfg == cfg && breaker.Value() == FRESH
    {
      if name !in breakers {
        var created := new CircuitBreaker(cfg);
        breakers := breakers[name := created];
      }
      breaker := breakers[name];
    }
  }

  // ---------------------------------------------------------------------------------------
  // Overlapping calls
  // ---------------------------------------------------------------------------------------

  datatype Outcome = Success | Failure(at: real)

  /** The breaker, the calls in flight, and every outcome recorded so far. */
  datatype State = State(breaker: Breaker, inFlight: set<nat>, log: seq<Outcome>)

  datatype Step =
    | Start(call: nat, now: real)
    | Succeed(call: nat)
    | Fail(call: nat, now: real)
    | Abandon(call: nat)  // cancelled, or an exception the breaker does not expect

  const INIT := State(FRESH, {}, [])

  ghost predicate Enabled(st: State, step: Step) {
    match step
    case Start(call, now) => call !in st.inFlight && now > 0.0
    case Succeed(call) => call in st.inFlight
    case Fail(call, now) => call in st.inFlight && now > 0.0
    case Abandon(call) => call in st.inFlight
  }

  function Next(st: State, cfg: Config, step: Step): State {
    match step
    case Start(call, now) =>
      State(Asked(st.breaker, cfg, now), if Admits(st.breaker, cfg, now) then st.inFlight + {call} else st.inFlight, st.log)
    case Succeed(call) => State(Succeeded(st.breaker), st.inFlight - {call}, st.log + [Success])
    case Fail(call, now) => State(Failed(st.breaker, cfg, now), st.inFlight - {call}, st.log + [Failure(now)])
    case Abandon(call) => st.(inFlight := st.inFlight - {call})
  }

  ghost predicate ValidRun(st: State, cfg: Config, steps: seq<Step>)
    decreases |steps|
  {
    steps != [] ==> Enabled(st, steps[0]) && ValidRun(Next(st, cfg, steps[0]), cfg, steps[1..])
  }

  function Run(st: State, cfg: Config, steps: seq<Step>): State
    decreases |steps|
  {
    if steps == [] then st else Run(Next(st, cfg, steps[0]), cfg, steps[1..])
  }

  /** Length of the run of failures at the end of the log. */
  function TrailingFailures(log: seq<Outcome>): nat {
    if log == [] || log[|log| - 1].Success? then 0 else 1 + TrailingFailures(log[..|log| - 1])
  }

  function LatestFailure(log: seq<Outcome>): Option<real> {
    if log == [] then None
    else if log[|log| - 1].Failure? then Some(log[|log| - 1].at)
    else LatestFailure(log[..|log| - 1])
  }

  /** The consecutive failures it takes to open: a threshold below one acts as one. */
  function Needed(cfg: Config): nat {
    if cfg.threshold < 1 then 1 else cfg.threshold
  }

  ghost predicate Inv(st: State, cfg: Config) {
    var b := st.breaker;
    && b.failures == TrailingFailures(st.log)
    && (b.state == Closed ==> b.failures < Needed(cfg))
    && (b.state != Closed ==> b.lastFailure.Some?)
    && (b.lastFailure.Some? ==> b.lastFailure == LatestFailure(st.log) && b.lastFailure.value > 0.0)
  }

  lemma NextInv(st: State, cfg: Config, step: Step)
    requires Inv(st, cfg) && Enabled(st, step)
    ensures Inv(Next(st, cfg, step), cfg)
  {
    var log := Next(st, cfg, step).log;
    if log != st.log { assert log[..|log| - 1] == st.log; }
  }

  /** In every run with any overlap: the count is the trailing run of failures, a closed breaker is below the
      failures needed, and any other breaker remembers the latest recorded failure. */
  lemma {:induction false} RunInv(st: State, cfg: Config, steps: seq<Step>)
    requires Inv(st, cfg) && ValidRun(st, cfg, steps)
    ensures Inv(Run(st, cfg, steps), cfg)
    decreases |steps|
  {
    if steps != [] {
      NextInv(st, cfg, steps[0]);
      RunInv(Next(st, cfg, steps[0]), cfg, steps[1..]);
    }
  }

  lemma {:induction false} RunAppend(st: State, cfg: Config, steps: seq<Step>, step: Step)
    requires ValidRun(st, cfg, steps + [step])
    ensures ValidRun(st, cfg, steps) && Enabled(Run(st, cfg, steps), step)
    ensures Run(st, cfg, steps + [step]) == Next(Run(st, cfg, steps), cfg, step)
    decreases |steps|
  {
    var all := steps + [step];
    if steps == [] {
      assert all[1..] == [];
    } else {
      assert all[1..] == steps[1..] + [step];
      RunAppend(Next(st, cfg, steps[0]), cfg, steps[1..], step);
    }
  }

  lemma {:induction false} TrailingAtLeast(log: seq<Outcome>, n: nat)
    ensures TrailingFailures(log) >= n <==>
            |log| >= n && forall i :: |log| - n <= i < |log| ==> log[i].Failure?
  {
    if n > 0 && log != [] && log[|log| - 1].Failure? {
      var front := log[..|log| - 1];
      TrailingAtLeast(front, n - 1);
      assert forall i :: 0 <= i < |front| ==> front[i] == log[i];
    }
  }

  /** The breaker leaves Closed exactly when a failure completes the consecutive recorded failures its threshold needs. */
  lemma LeavesClosedIff(cfg: Config, steps: seq<Step>, step: Step)
    requires ValidRun(INIT, cfg, steps + [step]) && Run(INIT, cfg, steps).breaker.state == Closed
    ensures var after := Run(INIT, cfg, steps + [step]);
            after.breaker.state != Closed <==>
              && step.Fail?
              && |after.log| >= Needed(cfg)
              && forall i :: |after.log| - Needed(cfg) <= i < |after.log| ==> after.log[i].Failure?
  {
    hide TrailingFailures, LatestFailure;
    var st := Run(INIT, cfg, steps);
    RunAppend(INIT, cfg, steps, step);
    assert Inv(INIT, cfg) by { InitInv(cfg); }
    RunInv(INIT, cfg, steps);
    NextInv(st, cfg, step);
    TrailingAtLeast(Next(st, cfg, step).log, Needed(cfg));
  }

  lemma InitInv(cfg: Config)
    ensures Inv(INIT, cfg)
  {
  }

  /** A start is refused exactly while the breaker is open and the latest recorded failure is more recent than
      the recovery timeout; when an open breaker admits it, it turns half-open. */
  lemma RefusedIffRecentFailure(cfg: Config, steps: seq<Step>, call: nat, now: real)
    requires ValidRun(INIT, cfg, steps + [Start(call, now)])
    ensures var before, after := Run(INIT, cfg, steps), Run(INIT, cfg, steps + [Start(call, now)]);
            && (call !in after.inFlight <==>
                before.breaker.state == Open && LatestFailure(before.log).Some? && now - LatestFailure(before.log).value < cfg.recovery)
            && (before.breaker.state == Open && call in after.inFlight <==>
                before.breaker.state == Open && after.breaker.state == HalfOpen)
            && after.log == before.log
  {
    RunAppend(INIT, cfg, steps, Start(call, now));
    RunInv(INIT, cfg, steps);
  }

  /** Only a start, at least the recovery timeout after the latest recorded failure, turns Open into HalfOpen, and
      nothing turns Open into Closed directly. */
  lemma LeavesOpenOnlyAfterRecovery(cfg: Config, steps: seq<Step>, step: Step)
    requires ValidRun(INIT, cfg, steps + [step]) && Run(INIT, cfg, steps).breaker.state == Open
    ensures var before, after := Run(INIT, cfg, steps), Run(INIT, cfg, steps + [step]);
            after.breaker.state != Open ==>
              && after.breaker.state == HalfOpen && step.Start?
              && LatestFailure(before.log).Some? && step.now - LatestFailure(before.log).value >= cfg.recovery
  {
    RunAppend(INIT, cfg, steps, step);
    RunInv(INIT, cfg, steps);
  }

  /** A half-open breaker closes exactly when a success is recorded and opens again exactly when a failure is; nothing else
      changes its state. */
  lemma LeavesHalfOpen(cfg: Config, steps: seq<Step>, step: Step)
    requires ValidRun(INIT, cfg, steps + [step]) && Run(INIT, cfg, steps).breaker.state == HalfOpen
    ensures var after := Run(INIT, cfg, steps + [step]).breaker;
            && (after.state == Closed <==> step.Succeed?) && (after.state == Open <==> step.Fail?)
            && (step.Succeed? ==> after == Breaker(Closed, 0, None))
  {
    RunAppend(INIT, cfg, steps, step);
  }

  /** The failure that follows a success counts as the first one: a closed breaker then opens only when one is enough. */
  lemma FirstFailureAfterSuccess(cfg: Config, steps: seq<Step>, c: nat, d: nat, now: real)
    requires ValidRun(INIT, cfg, steps + [Succeed(c)] + [Fail(d, now)]) && Run(INIT, cfg, steps).breaker.state != Open
    ensures var after := Run(INIT, cfg, steps + [Succeed(c)] + [Fail(d, now)]).breaker;
            after.failures == 1 && after.lastFailure == Some(now) && (after.state == Closed <==> cfg.threshold > 1)
  {
    RunAppend(INIT, cfg, steps + [Succeed(c)], Fail(d, now));
    RunAppend(INIT, cfg, steps, Succeed(c));
  }

  lemma {:induction false} HalfOpenStays(st: State, cfg: Config, steps: seq<Step>)
    requires st.breaker.state == HalfOpen && ValidRun(st, cfg, steps)
    requires forall i :: 0 <= i < |steps| ==> steps[i].Start?
    ensures st.inFlight <= Run(st, cfg, steps).inFlight
    ensures forall i :: 0 <= i < |steps| ==> steps[i].call in Run(st, cfg, steps).inFlight
    ensures Run(st, cfg, steps).breaker == st.breaker
    decreases |steps|
  {
    if steps != [] {
      HalfOpenStays(Next(st, cfg, steps[0]), cfg, steps[1..]);
    }
  }

  lemma {:induction false} RunConcat(st: State, cfg: Config, a: seq<Step>, b: seq<Step>)
    requires ValidRun(st, cfg, a) && ValidRun(Run(st, cfg, a), cfg, b)
    ensures ValidRun(st, cfg, a + b) && Run(st, cfg, a + b) == Run(Run(st, cfg, a), cfg, b)
    decreases |a|
  {
    hide Next, Enabled;
    if a == [] {
      assert a + b == b;
    } else {
      assert (a + b)[0] == a[0] && (a + b)[1..] == a[1..] + b;
      RunConcat(Next(st, cfg, a[0]), cfg, a[1..], b);
    }
  }

  /** `n` calls, one after the other, that all fail at the same moment. */
  function Failures(n: nat, at: real): seq<Step> {
    if n == 0 then [] else Failures(n - 1, at) + [Start(0, at), Fail(0, at)]
  }

  /** The breaker after `n` failures in a row. */
  function Failing(cfg: Config, n: nat, at: real): Breaker {
    Breaker(if n == Needed(cfg) then Open else Closed, n, if n == 0 then None else Some(at))
  }

  lemma OneMoreFailure(cfg: Config, n: nat, at: real, st: State)
    requires n < Needed(cfg) && at > 0.0 && st.inFlight == {} && st.breaker == Failing(cfg, n, at)
    ensures var two := [Start(0, at), Fail(0, at)];
            && ValidRun(st, cfg, two)
            && Run(st, cfg, two) == State(Failing(cfg, n + 1, at), {}, st.log + [Failure(at)])
  {
    var two, one := [Start(0, at), Fail(0, at)], [Fail(0, at)];
    var started := Next(st, cfg, two[0]);
    assert two[1..] == one && one[1..] == [];
    assert started == st.(inFlight := {0});
    var failed := Next(started, cfg, one[0]);
    assert failed == State(Failing(cfg, n + 1, at), {}, st.log + [Failure(at)]);
    hide Next;
    assert ValidRun(failed, cfg, []) && Run(failed, cfg, []) == failed;
    assert ValidRun(started, cfg, one) && Run(started, cfg, one) == failed;
  }

  lemma {:induction false} FailuresRun(cfg: Config, n: nat, at: real)
    requires n <= Needed(cfg) && at > 0.0
    ensures ValidRun(INIT, cfg, Failures(n, at))
    ensures var end := Run(INIT, cfg, Failures(n, at));
            end.inFlight == {} && |end.log| == n && end.breaker == Failing(cfg, n, at)
  {
    if n > 0 {
      FailuresRun(cfg, n - 1, at);
      var st, two := Run(INIT, cfg, Failures(n - 1, at)), [Start(0, at), Fail(0, at)];
      OneMoreFailure(cfg, n - 1, at, st);
      RunConcat(INIT, cfg, Failures(n - 1, at), two);
      hide Run, ValidRun;
      assert Failures(n, at) == Failures(n - 1, at) + two;
    }
  }

  /** Calls 0 to n - 1 start at one moment. */
  function Starts(n: nat, at: real): (steps: seq<Step>)
    ensures |steps| == n && forall i: nat :: i < n ==> steps[i] == Start(i, at)
  {
    seq(n, i requires 0 <= i < n => Start(i, at))
  }

  lemma {:induction false} StartsEnabled(st: State, cfg: Config, steps: seq<Step>)
    requires forall i: nat :: i < |steps| ==> steps[i].Start? && steps[i].now > 0.0 && steps[i].call !in st.inFlight
    requires forall i: nat, j: nat :: i < j < |steps| ==> steps[i].call != steps[j].call
    ensures ValidRun(st, cfg, steps)
    decreases |steps|
  {
    if steps != [] { StartsEnabled(Next(st, cfg, steps[0]), cfg, steps[1..]); }
  }

  /** Half-open is not a single probe: for every threshold, timeout and number there is a run after which the breaker is
      half-open, that many calls started since the last recorded outcome are in flight, and none was refused. */
  lemma HalfOpenAdmitsEveryone(cfg: Config, n: nat) returns (before: seq<Step>, starts: seq<Step>)
    requires n >= 1
    ensures ValidRun(INIT, cfg, before) && ValidRun(Run(INIT, cfg, before), cfg, starts)
    ensures |starts| == n && forall i: nat :: i < n ==> starts[i].Start? && starts[i].call == i
    ensures Run(INIT, cfg, before).breaker.state == Open && Run(INIT, cfg, before).inFlight == {}
    ensures var end := Run(Run(INIT, cfg, before), cfg, starts);
            end.breaker.state == HalfOpen && (forall i: nat :: i < n ==> i in end.inFlight)
  {
    before := Failures(Needed(cfg), 1.0);
    FailuresRun(cfg, Needed(cfg), 1.0);
    var st, at := Run(INIT, cfg, before), if cfg.recovery >= 0.0 then 1.0 + cfg.recovery else 1.0;
    starts := Starts(n, at);
    StartsEnabled(st, cfg, starts);
    hide Failures, Starts;
    var first := Next(st, cfg, starts[0]);
    assert first.breaker.state == HalfOpen && 0 in first.inFlight;
    assert forall i: nat :: i < n - 1 ==> starts[1..][i] == starts[i + 1];
    HalfOpenStays(first, cfg, starts[1..]);
    forall i: nat | i < n
      ensures i in Run(st, cfg, starts).inFlight
    {
      if i > 0 { assert starts[1..][i - 1].call == i; }
    }
  }
}
