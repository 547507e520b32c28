/**
 The sandbox flag of a context request, which neither service's cache key contains, nor the key of the in-flight map:
 exactly when an answer can be one that was computed for the other flag, and exactly when that makes it wrong.
 */
module ContextFlags {
  import opened Basics
  import opened TtlCache
  import opened ContextCache
  import SF = SingleFlight

  /** The calls of a run all come from the given pairs of a key and a flag. */
  ghost predicate CallsIn(steps: seq<Step>, allowed: iset<(Key, bool)>) {
    forall i | 0 <= i < |steps| && steps[i].Call? :: (steps[i].key, steps[i].sandbox) in allowed
  }

  function HandlerFlag(h: Handler): bool {
    if h.Looking? || h.Missed? then h.sandbox else h.reading.sandbox
  }

  ghost predicate CallersFlagged(allowed: iset<(Key, bool)>, st: State) {
    forall c | c in st.flight.callers :: c in st.flags && (st.flight.callers[c].key, st.flags[c]) in allowed
  }

  ghost predicate CacheFlagged(allowed: iset<(Key, bool)>, cache: map<Key, Stamped<Reading>>) {
    forall k | k in cache :: (k, cache[k].value.sandbox) in allowed
  }

  ghost predicate HandlersFlagged(allowed: iset<(Key, bool)>, st: State) {
    forall t | t in st.handlers :: t < |st.flight.tasks| && (st.flight.tasks[t].key, HandlerFlag(st.handlers[t])) in allowed
  }

  ghost predicate OutcomesFlagged(allowed: iset<(Key, bool)>, tasks: seq<SF.Task<Key, Reading>>) {
    forall t: nat | t < |tasks| && tasks[t].status.Done? && tasks[t].status.outcome.Value? ::
      (tasks[t].key, tasks[t].status.outcome.value.sandbox) in allowed
  }

  /** Both the caller's flag and the one its answer was computed for occur with the key. */
  ghost predicate EventsFlagged(allowed: iset<(Key, bool)>, events: seq<Event>) {
    forall i | 0 <= i < |events| && events[i].Returned? ::
      (events[i].key, events[i].reading.sandbox) in allowed && (events[i].key, events[i].sandbox) in allowed
  }

  ghost predicate FlagInv(allowed: iset<(Key, bool)>, st: State) {
    && SF.Inv(st.flight) && CallersFlagged(allowed, st)
    && CacheFlagged(allowed, st.client) && CacheFlagged(allowed, st.gateway)
    && HandlersFlagged(allowed, st) && OutcomesFlagged(allowed, st.flight.tasks) && EventsFlagged(allowed, st.events)
  }

  lemma CallersKeepKeys(st: SF.State<Key, Reading>, step: SF.Step<Key, Reading>, c: nat)
    requires SF.Enabled(st, step) && c in SF.Next(st, step).callers && !(step.Arrive? && step.caller == c)
    ensures c in st.callers && SF.Next(st, step).callers[c].key == st.callers[c].key
  {
  }

  lemma FlagCallers(cfg: Setting, allowed: iset<(Key, bool)>, st: State, step: Step)
    requires FlagInv(allowed, st) && Enabled(cfg, st, step) && (step.Call? ==> (step.key, step.sandbox) in allowed)
    ensures CallersFlagged(allowed, Next(cfg, st, step))
  {
    FlightEnabled(cfg, st, step);
    var next := Next(cfg, st, step);
    forall c | c in next.flight.callers
      ensures c in next.flags && (next.flight.callers[c].key, next.flags[c]) in allowed
    {
      var s := FlightStep(cfg, st, step);
      if s.Some? && !(s.value.Arrive? && s.value.caller == c) { CallersKeepKeys(st.flight, s.value, c); }
      if s.Some? && s.value.Arrive? { assert step.Call?; }
      hide SF.Inv, SF.Enabled;
    }
  }

  lemma FlagCaches(cfg: Setting, allowed: iset<(Key, bool)>, st: State, step: Step)
    requires FlagInv(allowed, st) && Enabled(cfg, st, step)
    ensures CacheFlagged(allowed, Next(cfg, st, step).client) && CacheFlagged(allowed, Next(cfg, st, step).gateway)
  {
    hide SF.Inv, SF.Next, SF.Enabled;
  }

  /** The flag of the handler that a step leaves behind. */
  lemma FlagMoved(cfg: Setting, allowed: iset<(Key, bool)>, st: State, step: Step, t: nat)
    requires FlagInv(allowed, st) && Enabled(cfg, st, step) && t in NextHandlers(cfg, st, step)
    ensures t < |st.flight.tasks| && (st.flight.tasks[t].key, HandlerFlag(NextHandlers(cfg, st, step)[t])) in allowed
  {
    if step.Start? {
      assert st.flight.tasks[step.task].owner in st.flight.callers;
    }
    hide SF.Inv, SF.Next, SF.Enabled, EventsFlagged, OutcomesFlagged;
    if t in st.handlers { assert t < |st.flight.tasks| && (st.flight.tasks[t].key, HandlerFlag(st.handlers[t])) in allowed; }
    hide HandlersFlagged, SF.DoneTask, Hit, FlightStep, Checked, Kept, Put;
  }

  lemma FlagHandlers(cfg: Setting, allowed: iset<(Key, bool)>, st: State, step: Step)
    requires FlagInv(allowed, st) && Enabled(cfg, st, step)
    ensures HandlersFlagged(allowed, Next(cfg, st, step))
  {
    Extended(cfg, st, step);
    hide Enabled, FlagInv, NextFlight, NextHandlers, NextClient, NextGateway, NextNegative, NextDone, NewEvents, Hit;
    var next := Next(cfg, st, step);
    forall t | t in next.handlers
      ensures t < |next.flight.tasks| && (next.flight.tasks[t].key, HandlerFlag(next.handlers[t])) in allowed
    {
      FlagMoved(cfg, allowed, st, step, t);
    }
  }

  lemma FlagOutcomes(cfg: Setting, allowed: iset<(Key, bool)>, st: State, step: Step)
    requires FlagInv(allowed, st) && Enabled(cfg, st, step)
    ensures OutcomesFlagged(allowed, Next(cfg, st, step).flight.tasks)
  {
    FlightEnabled(cfg, st, step);
    var tasks := Next(cfg, st, step).flight.tasks;
    hide SF.Next, SF.Enabled, SF.Inv;
    forall t: nat | t < |tasks| && tasks[t].status.Done? && tasks[t].status.outcome.Value?
      ensures (tasks[t].key, tasks[t].status.outcome.value.sandbox) in allowed
    {
      if FlightStep(cfg, st, step).Some? { NewlyDone(st.flight, FlightStep(cfg, st, step).value, t); }
    }
  }

  lemma FlagEvents(cfg: Setting, allowed: iset<(Key, bool)>, st: State, step: Step)
    requires FlagInv(allowed, st) && Enabled(cfg, st, step) && (step.Call? ==> (step.key, step.sandbox) in allowed)
    ensures EventsFlagged(allowed, Next(cfg, st, step).events)
  {
    if step.Flight? && step.step.Resume? {
      var c := step.step.caller;
      assert SF.CallerOk(c, st.flight.callers[c], st.flight.tasks);
    }
    hide SF.Inv, SF.Next, SF.Enabled;
  }

  lemma FlagStep(cfg: Setting, allowed: iset<(Key, bool)>, st: State, step: Step)
    requires FlagInv(allowed, st) && Enabled(cfg, st, step) && (step.Call? ==> (step.key, step.sandbox) in allowed)
    ensures FlagInv(allowed, Next(cfg, st, step))
  {
    FlagCallers(cfg, allowed, st, step);
    FlagCaches(cfg, allowed, st, step);
    FlagHandlers(cfg, allowed, st, step);
    FlagOutcomes(cfg, allowed, st, step);
    FlagEvents(cfg, allowed, st, step);
    FlightEnabled(cfg, st, step);
    hide SF.Inv, SF.Next, SF.Enabled, CallersFlagged, CacheFlagged, HandlersFlagged, OutcomesFlagged, EventsFlagged;
    if FlightStep(cfg, st, step).Some? { SF.InvStep(st.flight, FlightStep(cfg, st, step).value); }
  }

  lemma {:induction false} FlagRun(cfg: Setting, allowed: iset<(Key, bool)>, st: State, steps: seq<Step>)
    requires FlagInv(allowed, st) && ValidRun(cfg, st, steps) && CallsIn(steps, allowed)
    ensures FlagInv(allowed, Run(cfg, st, steps))
    decreases |steps|
  {
    hide FlagInv, Next, Enabled;
    if steps != [] {
      FlagStep(cfg, allowed, st, steps[0]);
      FlagRun(cfg, allowed, Next(cfg, st, steps[0]), steps[1..]);
    }
  }

  /** Whenever a set of calls never uses one key with both flags, every answer returned in a run over it was computed for
      the caller's own flag. */
  lemma OwnFlagAnswered(cfg: Setting, allowed: iset<(Key, bool)>, steps: seq<Step>, i: nat)
    requires ValidRun(cfg, Init(), steps) && CallsIn(steps, allowed)
    requires i < |Run(cfg, Init(), steps).events| && Run(cfg, Init(), steps).events[i].Returned?
    ensures var e := Run(cfg, Init(), steps).events[i];
            && (e.key, e.sandbox) in allowed && (e.key, e.reading.sandbox) in allowed
            && (!((e.key, true) in allowed && (e.key, false) in allowed) ==> e.reading.sandbox == e.sandbox)
  {
    FlagRun(cfg, allowed, Init(), steps);
    hide Run, ValidRun;
  }

  // ---------------------------------------------------------------------------------------
  // The flag an answer was computed for
  // ---------------------------------------------------------------------------------------

  ghost predicate AnswersOwnFlag(cfg: Setting, steps: seq<Step>)
    requires ValidRun(cfg, Init(), steps)
  {
    forall i | 0 <= i < |Run(cfg, Init(), steps).events| && Run(cfg, Init(), steps).events[i].Returned? ::
      Run(cfg, Init(), steps).events[i].reading.sandbox == Run(cfg, Init(), steps).events[i].sandbox
  }

  ghost predicate AlwaysOwnFlag(cfg: Setting, allowed: iset<(Key, bool)>) {
    forall steps | ValidRun(cfg, Init(), steps) && CallsIn(steps, allowed) :: AnswersOwnFlag(cfg, steps)
  }

  lemma {:induction false} RunAppend(cfg: Setting, st: State, a: seq<Step>, b: seq<Step>)
    requires ValidRun(cfg, st, a) && ValidRun(cfg, Run(cfg, st, a), b)
    ensures ValidRun(cfg, st, a + b) && Run(cfg, st, a + b) == Run(cfg, Run(cfg, st, a), b)
    decreases |a|
  {
    hide Next, Enabled;
    if a == [] {
      assert a + b == b;
    } else {
      RunAppend(cfg, Next(cfg, st, a[0]), a[1..], b);
      assert (a + b)[0] == a[0] && (a + b)[1..] == a[1..] + b;
    }
  }

  lemma OneMore(cfg: Setting, st: State, a: seq<Step>, step: Step)
    requires ValidRun(cfg, st, a) && Enabled(cfg, Run(cfg, st, a), step)
    ensures ValidRun(cfg, st, a + [step]) && Run(cfg, st, a + [step]) == Next(cfg, Run(cfg, st, a), step)
  {
    hide Next, Enabled;
    var end := Next(cfg, Run(cfg, st, a), step);
    assert ValidRun(cfg, end, []) && [step][1..] == [];
    RunAppend(cfg, st, a, [step]);
  }

  lemma FlightEnters(st: SF.State<Key, Reading>, c: nat, key: Key)
    requires st.running.None? && st.lock.None? && c !in st.callers
    requires key in st.inflight ==> st.inflight[key] < |st.tasks| && st.tasks[st.inflight[key]].status.Running?
    ensures SF.Enabled(st, SF.Arrive(c, key))
    ensures var s1 := SF.Next(st, SF.Arrive(c, key)); SF.Enabled(s1, SF.Acquire(c))
    ensures var s2 := SF.Next(SF.Next(st, SF.Arrive(c, key)), SF.Acquire(c)); SF.Enabled(s2, SF.Critical(c))
    ensures SF.Next(SF.Next(SF.Next(st, SF.Arrive(c, key)), SF.Acquire(c)), SF.Critical(c))
         == SF.State(SF.Registered(st.inflight, key, |st.tasks|),
                     if key in st.inflight then st.tasks else st.tasks + [SF.Task(key, c, SF.Running(false))],
                     st.callers[c := SF.Caller(key, SF.Waiting(SF.Joined(st.inflight, key, |st.tasks|)), false)], None, None)
  {
    var s3 := SF.Next(SF.Next(SF.Next(st, SF.Arrive(c, key)), SF.Acquire(c)), SF.Critical(c));
    assert s3.callers == st.callers[c := s3.callers[c]];
  }

  /** A call that misses waits for the fetch of its key. */
  lemma CallWaits(cfg: Setting, st: State, c: nat, key: Key, sandbox: bool) returns (steps: seq<Step>)
    requires st.flight.running.None? && st.flight.lock.None? && c !in st.flight.callers && st.client == map[]
    requires key in st.flight.inflight ==> Active(st, st.flight.inflight[key])
    ensures steps == [Call(c, key, sandbox), Flight(SF.Acquire(c)), Flight(SF.Critical(c))] && ValidRun(cfg, st, steps)
    ensures var end, t := Run(cfg, st, steps), SF.Joined(st.flight.inflight, key, |st.flight.tasks|);
            && end == st.(flight := end.flight, flags := st.flags[c := sandbox])
            && end.flight == SF.State(SF.Registered(st.flight.inflight, key, |st.flight.tasks|),
                                      if key in st.flight.inflight then st.flight.tasks else st.flight.tasks + [SF.Task(key, c, SF.Running(false))],
                                      st.flight.callers[c := SF.Caller(key, SF.Waiting(t), false)], None, None)
  {
    FlightEnters(st.flight, c, key);
    hide SF.Next, SF.Enabled, SF.Joined, SF.Registered;
    var s1 := Next(cfg, st, Call(c, key, sandbox));
    var s2 := Next(cfg, s1, Flight(SF.Acquire(c)));
    assert [Call(c, key, sandbox)] == [] + [Call(c, key, sandbox)];
    OneMore(cfg, st, [], Call(c, key, sandbox));
    OneMore(cfg, st, [Call(c, key, sandbox)], Flight(SF.Acquire(c)));
    steps := [Call(c, key, sandbox), Flight(SF.Acquire(c)), Flight(SF.Critical(c))];
    assert steps == [Call(c, key, sandbox)] + [Flight(SF.Acquire(c))] + [Flight(SF.Critical(c))];
    OneMore(cfg, st, [Call(c, key, sandbox)] + [Flight(SF.Acquire(c))], Flight(SF.Critical(c)));
  }

  lemma GatewayAnswers(cfg: Setting, st: State, t: nat)
    requires Active(st, t) && st.handlers == map[] && st.negative == map[] && st.gateway == map[]
    requires st.flight.tasks[t].owner in st.flags && cfg.delays.lookup >= 0.0
    ensures var steps := [Start(t)] + [GatewayLookup(t)] + [DatabaseLookup(t)] + [GatewayReply(t)];
            && ValidRun(cfg, st, steps)
            && var end := Run(cfg, st, steps);
               && end.now == st.now && end.flags == st.flags && end.flight == st.flight
               && t in end.handlers && end.handlers[t].Answered? && end.handlers[t].answeredAt == st.now
               && end.handlers[t].reading.sandbox == st.flags[st.flight.tasks[t].owner]
  {
    LookupMisses(cfg, st, t);
    var two := [Start(t)] + [GatewayLookup(t)];
    hide ValidRun, Run, Kept, SF.Next, SF.Enabled;
    var s2 := Run(cfg, st, two);
    var s3 := Next(cfg, s2, DatabaseLookup(t));
    OneMore(cfg, st, two, DatabaseLookup(t));
    OneMore(cfg, st, two + [DatabaseLookup(t)], GatewayReply(t));
  }

  lemma LookupMisses(cfg: Setting, st: State, t: nat)
    requires Active(st, t) && st.handlers == map[] && st.negative == map[] && st.gateway == map[] && st.flight.tasks[t].owner in st.flags
    ensures var steps := [Start(t)] + [GatewayLookup(t)];
            && ValidRun(cfg, st, steps)
            && var end := Run(cfg, st, steps);
               && end.now == st.now && end.flags == st.flags && end.flight == st.flight && end.gateway == map[]
               && end.handlers == map[t := Missed(st.flags[st.flight.tasks[t].owner], st.now)]
  {
    var s1 := Next(cfg, st, Start(t));
    assert [Start(t)] == [] + [Start(t)];
    OneMore(cfg, st, [], Start(t));
    OneMore(cfg, st, [Start(t)], GatewayLookup(t));
    hide ValidRun, Run, Kept, SF.Next, SF.Enabled;
  }

  lemma ReplyArrives(cfg: Setting, st: State, t: nat)
    requires Active(st, t) && t in st.handlers && st.handlers[t].Answered? && st.handlers[t].answeredAt == st.now && cfg.delays.reply >= 0.0
    ensures Enabled(cfg, st, Receive(t))
    ensures var end := Next(cfg, st, Receive(t));
            && end.now == st.now && end.flags == st.flags && end.flight.callers == st.flight.callers && end.flight.running.None?
            && SF.DoneTask(end.flight, t) && t in end.doneAt && end.doneAt[t] == st.now
            && end.flight.tasks[t].status.outcome == SF.Value(st.handlers[t].reading)
  {
    hide Kept;
  }

  /** A task started with empty caches answers for its owner's flag. */
  lemma TaskAnswers(cfg: Setting, st: State, t: nat) returns (steps: seq<Step>)
    requires Active(st, t) && st.handlers == map[] && st.negative == map[] && st.gateway == map[]
    requires st.flight.tasks[t].owner in st.flags && cfg.delays.lookup >= 0.0 && cfg.delays.reply >= 0.0
    ensures steps == [Start(t)] + [GatewayLookup(t)] + [DatabaseLookup(t)] + [GatewayReply(t)] + [Receive(t)] && ValidRun(cfg, st, steps)
    ensures var end := Run(cfg, st, steps);
            && end.now == st.now && end.flags == st.flags && end.flight.callers == st.flight.callers && end.flight.running.None?
            && SF.DoneTask(end.flight, t) && t in end.doneAt && end.doneAt[t] == st.now
            && end.flight.tasks[t].status.outcome.Value?
            && end.flight.tasks[t].status.outcome.value.sandbox == st.flags[st.flight.tasks[t].owner]
  {
    GatewayAnswers(cfg, st, t);
    var four := [Start(t)] + [GatewayLookup(t)] + [DatabaseLookup(t)] + [GatewayReply(t)];
    hide ValidRun, Run, Next, Enabled;
    ReplyArrives(cfg, Run(cfg, st, four), t);
    OneMore(cfg, st, four, Receive(t));
    steps := four + [Receive(t)];
  }

  /** A waiting caller returns the outcome of its finished task. */
  lemma CallerWakes(cfg: Setting, st: State, c: nat, t: nat) returns (steps: seq<Step>)
    requires st.flight.running.None? && c in st.flight.callers && c in st.flags
    requires !st.flight.callers[c].cancelled && st.flight.callers[c].phase == SF.Waiting(t)
    requires SF.DoneTask(st.flight, t) && st.flight.tasks[t].status.outcome.Value?
    requires t in st.doneAt && st.doneAt[t] == st.now && cfg.delays.wake >= 0.0
    ensures steps == [Flight(SF.Wake(c)), Flight(SF.Resume(c))] && ValidRun(cfg, st, steps)
    ensures Returned(st.flight.callers[c].key, st.flags[c], st.flight.tasks[t].status.outcome.value, st.now, false)
            in Run(cfg, st, steps).events
  {
    var s1 := Next(cfg, st, Flight(SF.Wake(c)));
    var s2 := Next(cfg, s1, Flight(SF.Resume(c)));
    steps := [Flight(SF.Wake(c)), Flight(SF.Resume(c))];
    assert [Flight(SF.Wake(c))] == [] + [Flight(SF.Wake(c))];
    assert steps == [Flight(SF.Wake(c))] + [Flight(SF.Resume(c))];
    OneMore(cfg, st, [], Flight(SF.Wake(c)));
    OneMore(cfg, st, [Flight(SF.Wake(c))], Flight(SF.Resume(c)));
    assert s2.events[|st.events|].Returned?;
  }

  /** Two calls of one key with different flags: the second joins the fetch of the first and gets its answer. */
  lemma JoinerGetsOtherFlag(cfg: Setting, key: Key, flag: bool) returns (steps: seq<Step>)
    requires cfg.delays.lookup >= 0.0 && cfg.delays.reply >= 0.0 && cfg.delays.wake >= 0.0
    ensures ValidRun(cfg, Init(), steps) && CallsIn(steps, iset{(key, flag), (key, !flag)}) && !AnswersOwnFlag(cfg, steps)
  {
    hide Next, Enabled, ValidRun, Run, SF.Enabled, SF.Next;
    var a := CallWaits(cfg, Init(), 0, key, flag);
    var s1 := Run(cfg, Init(), a);
    var b := CallWaits(cfg, s1, 1, key, !flag);
    var s2 := Run(cfg, s1, b);
    var d := TaskAnswers(cfg, s2, 0);
    var s3 := Run(cfg, s2, d);
    var e := CallerWakes(cfg, s3, 1, 0);
    var s4 := Run(cfg, s3, e);
    steps := a + b + d + e;
    RunAppend(cfg, Init(), a, b);
    RunAppend(cfg, Init(), a + b, d);
    RunAppend(cfg, Init(), a + b + d, e);
    var i :| 0 <= i < |s4.events| && s4.events[i] == Returned(key, !flag, s3.flight.tasks[0].status.outcome.value, s3.now, false);
    assert s4.events[i].reading.sandbox != s4.events[i].sandbox;
  }

  /** Exactly when: every answer was computed for its caller's own flag in all runs over a set of calls if and only if
      that set never uses one key with both flags. */
  lemma OwnFlagIff(cfg: Setting, allowed: iset<(Key, bool)>)
    requires cfg.delays.lookup >= 0.0 && cfg.delays.reply >= 0.0 && cfg.delays.wake >= 0.0
    ensures AlwaysOwnFlag(cfg, allowed) <==> forall k :: !((k, true) in allowed && (k, false) in allowed)
  {
    if k :| (k, true) in allowed && (k, false) in allowed {
      var steps := JoinerGetsOtherFlag(cfg, k, true);
      assert CallsIn(steps, allowed) && !AnswersOwnFlag(cfg, steps);
    } else {
      forall steps | ValidRun(cfg, Init(), steps) && CallsIn(steps, allowed)
        ensures AnswersOwnFlag(cfg, steps)
      {
        forall i | 0 <= i < |Run(cfg, Init(), steps).events| && Run(cfg, Init(), steps).events[i].Returned?
          ensures Run(cfg, Init(), steps).events[i].reading.sandbox == Run(cfg, Init(), steps).events[i].sandbox
        {
          OwnFlagAnswered(cfg, allowed, steps, i);
        }
      }
    }
  }

  // ---------------------------------------------------------------------------------------
  // The answer itself
  // ---------------------------------------------------------------------------------------

  /** The engine looks at the flag only for keys of this form. */
  predicate SandboxKey(key: Key) {
    "sandbox:" <= key.apiKey
  }

  /** For every other key, a lookup gives the same answer with either flag. */
  ghost predicate FlagBlind(world: World) {
    forall key, begun, ended | !SandboxKey(key) :: world(key, true, begun, ended) == world(key, false, begun, ended)
  }

  /** The answer is what a lookup with the caller's own flag gave. */
  ghost predicate OwnLookup(cfg: Setting, e: Event) {
    e.Returned? ==> exists end :: e.reading.begunAt <= end <= e.at && e.reading.answer == cfg.world(e.key, e.sandbox, e.reading.begunAt, end)
  }

  ghost predicate AnswersOwn(cfg: Setting, steps: seq<Step>)
    requires ValidRun(cfg, Init(), steps)
  {
    forall i | 0 <= i < |Run(cfg, Init(), steps).events| :: OwnLookup(cfg, Run(cfg, Init(), steps).events[i])
  }

  ghost predicate AlwaysAnswersOwn(cfg: Setting, allowed: iset<(Key, bool)>) {
    forall steps | ValidRun(cfg, Init(), steps) && CallsIn(steps, allowed) :: AnswersOwn(cfg, steps)
  }

  lemma RightAnswer(cfg: Setting, allowed: iset<(Key, bool)>, steps: seq<Step>, i: nat)
    requires ValidRun(cfg, Init(), steps) && CallsIn(steps, allowed) && FlagBlind(cfg.world)
    requires forall k | SandboxKey(k) :: !((k, true) in allowed && (k, false) in allowed)
    requires i < |Run(cfg, Init(), steps).events|
    ensures OwnLookup(cfg, Run(cfg, Init(), steps).events[i])
  {
    var e := Run(cfg, Init(), steps).events[i];
    if e.Returned? {
      BoundedStaleness(cfg, steps, i);
      OwnFlagAnswered(cfg, allowed, steps, i);
      hide Run, ValidRun, CallsIn;
      var end :| e.reading.begunAt <= end <= e.at && e.reading.answer == cfg.world(e.key, e.reading.sandbox, e.reading.begunAt, end);
      assert e.reading.answer == cfg.world(e.key, e.sandbox, e.reading.begunAt, end);
    }
  }

  /** Lookups that tell the flags apart for the keys where the engine does. */
  function TellingWorld(key: Key, sandbox: bool, begun: real, ended: real): Answer {
    Answer(SandboxKey(key) && sandbox, "")
  }

  lemma WrongAnswer(ttl: real, delays: Delays, key: Key) returns (steps: seq<Step>)
    requires delays.lookup >= 0.0 && delays.reply >= 0.0 && delays.wake >= 0.0 && SandboxKey(key)
    ensures var cfg := Setting(ttl, delays, TellingWorld);
            ValidRun(cfg, Init(), steps) && CallsIn(steps, iset{(key, true), (key, false)}) && !AnswersOwn(cfg, steps)
  {
    var cfg := Setting(ttl, delays, TellingWorld);
    hide Run, ValidRun, CallsIn;
    steps := JoinerGetsOtherFlag(cfg, key, true);
    assert iset{(key, true), (key, !true)} == iset{(key, true), (key, false)};
    var i :| 0 <= i < |Run(cfg, Init(), steps).events| && Run(cfg, Init(), steps).events[i].Returned?
             && Run(cfg, Init(), steps).events[i].reading.sandbox != Run(cfg, Init(), steps).events[i].sandbox;
    BoundedStaleness(cfg, steps, i);
    OwnFlagAnswered(cfg, iset{(key, true), (key, false)}, steps, i);
    assert !OwnLookup(cfg, Run(cfg, Init(), steps).events[i]);
  }

  ghost predicate RightInEveryWorld(ttl: real, delays: Delays, allowed: iset<(Key, bool)>) {
    forall world: World | FlagBlind(world) :: AlwaysAnswersOwn(Setting(ttl, delays, world), allowed)
  }

  /** Over all databases that look at the flag only where the engine does: every answer is what a lookup with the caller's
      own flag gave, in all runs over a set of calls, if and only if no sandbox key occurs with both flags. */
  lemma OwnAnswerIff(ttl: real, delays: Delays, allowed: iset<(Key, bool)>)
    requires delays.lookup >= 0.0 && delays.reply >= 0.0 && delays.wake >= 0.0
    ensures RightInEveryWorld(ttl, delays, allowed) <==> forall k | SandboxKey(k) :: !((k, true) in allowed && (k, false) in allowed)
  {
    hide SandboxKey;
    if k :| SandboxKey(k) && (k, true) in allowed && (k, false) in allowed {
      var cfg := Setting(ttl, delays, TellingWorld);
      var steps := WrongAnswer(ttl, delays, k);
      assert CallsIn(steps, allowed) && !AnswersOwn(cfg, steps);
      assert FlagBlind(TellingWorld) && !AlwaysAnswersOwn(cfg, allowed);
    } else {
      forall world: World | FlagBlind(world)
        ensures AlwaysAnswersOwn(Setting(ttl, delays, world), allowed)
      {
        var cfg := Setting(ttl, delays, world);
        forall steps | ValidRun(cfg, Init(), steps) && CallsIn(steps, allowed)
          ensures AnswersOwn(cfg, steps)
        {
          forall i | 0 <= i < |Run(cfg, Init(), steps).events|
            ensures OwnLookup(cfg, Run(cfg, Init(), steps).events[i])
          {
            RightAnswer(cfg, allowed, steps, i);
          }
        }
      }
    }
  }
}
