/**
 Context resolution across two services.  The data plane answers from its own cache; a miss goes through the
 single-flight map to one task, which posts to the gateway unless the connection failed less than five seconds ago; the
 gateway answers from its cache or looks the context up in the database.  Callers, tasks, gateway handlers and the clock
 interleave freely, and a handler outlives the fetch that gave up on it.
 Every answer carries the instant at which its database lookup began, which the program itself does not keep.
 */
module ContextCache {
  import opened Basics
  import opened TtlCache
  import SF = SingleFlight

  const GATEWAY_TTL := 10.0
  const NEGATIVE_TTL := 5.0

  datatype Key = Key(apiKey: string, model: string, modelType: string)

  datatype Answer = Answer(valid: bool, body: string)

  /** An answer, the flag it was computed for and the instant its database lookup began. */
  datatype Reading = Reading(answer: Answer, sandbox: bool, begunAt: real)

  // ---------------------------------------------------------------------------------------
  // The pieces of code that touch the shared maps
  // ---------------------------------------------------------------------------------------

  /** Both services store an answer only when it is valid. */
  function Kept<V>(cache: map<Key, Stamped<V>>, ttl: real, key: Key, valid: bool, value: V, now: real): map<Key, Stamped<V>> {
    if valid then Put(cache, ttl, key, value, now) else cache
  }

  /** A failure recorded less than five seconds ago refuses the connection; an older one is forgotten. */
  predicate Refuses(negative: map<Key, real>, key: Key, now: real) {
    key in negative && now - negative[key] < NEGATIVE_TTL
  }

  function Checked(negative: map<Key, real>, key: Key, now: real): map<Key, real> {
    if Refuses(negative, key, now) then negative else negative - {key}
  }

  class ApiGatewayClient<V> {
    const contextTtl: real
    var contextCache: map<Key, Stamped<V>>
    var inflight: map<Key, nat>
    var negativeCache: map<Key, real>
    var created: nat

    constructor (ttl: real)
      ensures contextTtl == ttl && contextCache == map[] && inflight == map[] && negativeCache == map[] && created == 0
    {
      contextTtl := ttl;
      contextCache, inflight, negativeCache, created := map[], map[], map[], 0;
    }

    /** `resolve_context` up to the point where it awaits: a cached answer, or the fetch to wait for. */
    method Enter(key: Key, now: real) returns (hit: Option<V>, task: nat, isOwner: bool)
      modifies this`inflight, this`created
      ensures hit == Get(contextCache, contextTtl, key, now)
      ensures hit.Some? ==> inflight == old(inflight) && created == old(created)
      ensures hit.None? ==>
                && task == SF.Joined(old(inflight), key, old(created)) && (isOwner <==> key !in old(inflight))
                && inflight == SF.Registered(old(inflight), key, old(created))
                && created == old(created) + (if isOwner then 1 else 0)
    {
      task, isOwner := 0, false;
      hit := Get(contextCache, contextTtl, key, now);
      if hit.Some? {
        return;
      }
      isOwner := key !in inflight;
      if isOwner {
        task := created;
        created := created + 1;
        inflight := inflight[key := task];
      } else {
        task := inflight[key];
        assert inflight == inflight[key := task];
      }
    }

    /** The `finally` block of the owner. */
    method Cleanup(key: Key, task: nat)
      modifies this`inflight
      ensures inflight == SF.Popped(old(inflight), key, task)
    {
      if key in inflight && inflight[key] == task {
        inflight := inflight - {key};
      }
    }

    method CheckNegativeCache(key: Key, now: real) returns (refused: bool)
      modifies this`negativeCache
      ensures refused == Refuses(old(negativeCache), key, now) && negativeCache == Checked(old(negativeCache), key, now)
      ensures refused <==> key in old(negativeCache) && now < old(negativeCache)[key] + 5.0
      ensures key in negativeCache <==> refused
      ensures forall k | k != key || refused :: k in negativeCache <==> k in old(negativeCache)
      ensures forall k | k in negativeCache :: negativeCache[k] == old(negativeCache)[k]
    {
      refused := false;
      if key in negativeCache {
        if now - negativeCache[key] < NEGATIVE_TTL {
          refused := true;
        } else {
          negativeCache := negativeCache - {key};
        }
      }
      assert key !in old(negativeCache) ==> old(negativeCache) - {key} == old(negativeCache);
    }

    method SetNegativeCache(key: Key, now: real)
      modifies this`negativeCache
      ensures negativeCache == old(negativeCache)[key := now]
    {
      negativeCache := negativeCache[key := now];
    }

    /** The end of `_resolve_context_uncached` on an answer. */
    method Received(key: Key, valid: bool, data: V, now: real)
      modifies this`contextCache
      ensures contextCache == Kept(old(contextCache), contextTtl, key, valid, data, now)
    {
      if valid {
        contextCache := Put(contextCache, contextTtl, key, data, now);
      }
    }
  }

  // ---------------------------------------------------------------------------------------
  // The two services as a step system
  // ---------------------------------------------------------------------------------------

  /** A gateway request handler, numbered like the fetch that posted it. */
  datatype Handler =
    | Looking(sandbox: bool)
    | Missed(sandbox: bool, begunAt: real)
    | Read(reading: Reading)
    | Answered(reading: Reading, answeredAt: real)

  datatype Event =
    | Returned(key: Key, sandbox: bool, reading: Reading, at: real, hit: bool)
    | Posted(key: Key, at: real)
    | Failed(key: Key, at: real)

  datatype State = State(now: real, flight: SF.State<Key, Reading>, client: map<Key, Stamped<Reading>>, negative: map<Key, real>,
                         gateway: map<Key, Stamped<Reading>>, handlers: map<nat, Handler>,
                         flags: map<nat, bool>, doneAt: map<nat, real>, events: seq<Event>)

  /** The longest a lookup takes from its first query to the gateway's cache, a reply takes to reach the data plane,
      and a caller takes to wake up once its task is done. */
  datatype Delays = Delays(lookup: real, reply: real, wake: real)

  /** What the database held: the answer of a lookup that begins and ends at the given instants. */
  type World = (Key, bool, real, real) -> Answer

  datatype Setting = Setting(clientTtl: real, delays: Delays, world: World)

  datatype Step =
    | Tick(now: real)
    | Call(caller: nat, key: Key, sandbox: bool)
    | Flight(step: SF.Step<Key, Reading>)
    | Start(task: nat)
    | GatewayLookup(task: nat)
    | DatabaseLookup(task: nat)
    | GatewayReply(task: nat)
    | Receive(task: nat)
    | ConnectionFailed(task: nat)
    | Rejected(task: nat)
    | CancelTask(task: nat)

  function Init(): State {
    State(0.0, SF.Init(), map[], map[], map[], map[], map[], map[], [])
  }

  predicate Active(st: State, t: nat) {
    st.flight.running.None? && t < |st.flight.tasks| && st.flight.tasks[t].status == SF.Running(false)
  }

  ghost predicate Enabled(cfg: Setting, st: State, step: Step) {
    match step
    case Tick(now) => st.flight.running.None? && st.now <= now
    case Call(c, _, _) => st.flight.running.None? && c !in st.flight.callers
    case Flight(s) =>
      && !s.Arrive? && !s.Complete? && SF.Enabled(st.flight, s)
      && (s.Resume? ==> Task(st, s.caller) in st.doneAt && st.now - st.doneAt[Task(st, s.caller)] <= cfg.delays.wake)
    case Start(t) => Active(st, t) && t !in st.handlers && st.flight.tasks[t].owner in st.flags
    case GatewayLookup(t) => t < |st.flight.tasks| && t in st.handlers && st.handlers[t].Looking?
    case DatabaseLookup(t) => t < |st.flight.tasks| && t in st.handlers && st.handlers[t].Missed?
    case GatewayReply(t) =>
      t < |st.flight.tasks| && t in st.handlers && st.handlers[t].Read? && st.now - st.handlers[t].reading.begunAt <= cfg.delays.lookup
    case Receive(t) =>
      Active(st, t) && t in st.handlers && st.handlers[t].Answered? && st.now - st.handlers[t].answeredAt <= cfg.delays.reply
    case ConnectionFailed(t) => Active(st, t) && t in st.handlers
    case Rejected(t) => Active(st, t) && t in st.handlers
    case CancelTask(t) => st.flight.running.None? && t < |st.flight.tasks| && st.flight.tasks[t].status.Running?
  }

  /** The fetch a waiting caller awaits. */
  ghost function Task(st: State, c: nat): nat {
    if c in st.flight.callers && st.flight.callers[c].phase.Waiting? then st.flight.callers[c].phase.task else 0
  }

  ghost function Hit(cfg: Setting, st: State, key: Key): Option<Reading> {
    Get(st.client, cfg.clientTtl, key, st.now)
  }

  /** The single-flight step that a step performs, if any. */
  ghost function FlightStep(cfg: Setting, st: State, step: Step): Option<SF.Step<Key, Reading>>
    requires Enabled(cfg, st, step)
  {
    match step
    case Call(c, key, _) => if Hit(cfg, st, key).None? then Some(SF.Arrive(c, key)) else None
    case Flight(s) => Some(s)
    case Start(t) => if Refuses(st.negative, st.flight.tasks[t].key, st.now) then Some(SF.Complete(t, SF.Raised)) else None
    case Receive(t) => Some(SF.Complete(t, SF.Value(st.handlers[t].reading)))
    case ConnectionFailed(t) => Some(SF.Complete(t, SF.Raised))
    case Rejected(t) => Some(SF.Complete(t, SF.Raised))
    case CancelTask(t) => Some(SF.Complete(t, SF.Cancelled))
    case _ => None
  }

  ghost function NextFlight(cfg: Setting, st: State, step: Step): SF.State<Key, Reading>
    requires Enabled(cfg, st, step)
  {
    var s := FlightStep(cfg, st, step);
    if s.Some? then SF.Next(st.flight, s.value) else st.flight
  }

  ghost function NextClient(cfg: Setting, st: State, step: Step): map<Key, Stamped<Reading>>
    requires Enabled(cfg, st, step)
  {
    if !step.Receive? then st.client
    else
      var reading := st.handlers[step.task].reading;
      Kept(st.client, cfg.clientTtl, st.flight.tasks[step.task].key, reading.answer.valid, reading, st.now)
  }

  ghost function NextNegative(cfg: Setting, st: State, step: Step): map<Key, real>
    requires Enabled(cfg, st, step)
  {
    match step
    case Start(t) => Checked(st.negative, st.flight.tasks[t].key, st.now)
    case ConnectionFailed(t) => st.negative[st.flight.tasks[t].key := st.now]
    case _ => st.negative
  }

  ghost function NextGateway(cfg: Setting, st: State, step: Step): map<Key, Stamped<Reading>>
    requires Enabled(cfg, st, step)
  {
    if !step.GatewayReply? then st.gateway
    else
      var reading := st.handlers[step.task].reading;
      Kept(st.gateway, GATEWAY_TTL, st.flight.tasks[step.task].key, reading.answer.valid, reading, st.now)
  }

  ghost function NextHandlers(cfg: Setting, st: State, step: Step): map<nat, Handler>
    requires Enabled(cfg, st, step)
  {
    match step
    case Start(t) =>
      var task := st.flight.tasks[t];
      if Refuses(st.negative, task.key, st.now) then st.handlers else st.handlers[t := Looking(st.flags[task.owner])]
    case GatewayLookup(t) =>
      var found := Get(st.gateway, GATEWAY_TTL, st.flight.tasks[t].key, st.now);
      st.handlers[t := if found.Some? then Answered(found.value, st.now) else Missed(st.handlers[t].sandbox, st.now)]
    case DatabaseLookup(t) =>
      var h := st.handlers[t];
      st.handlers[t := Read(Reading(cfg.world(st.flight.tasks[t].key, h.sandbox, h.begunAt, st.now), h.sandbox, h.begunAt))]
    case GatewayReply(t) => st.handlers[t := Answered(st.handlers[t].reading, st.now)]
    case _ => st.handlers
  }

  ghost function NextDone(cfg: Setting, st: State, step: Step): map<nat, real>
    requires Enabled(cfg, st, step)
  {
    var s := FlightStep(cfg, st, step);
    if s.Some? && s.value.Complete? then st.doneAt[s.value.task := st.now] else st.doneAt
  }

  /** The answer a resuming caller returns: nothing when its task raised or either of them was cancelled. */
  ghost function Resumed(st: State, c: nat): Option<Reading> {
    if c in st.flight.callers && !st.flight.callers[c].cancelled && SF.DoneTask(st.flight, Task(st, c))
       && st.flight.tasks[Task(st, c)].status.outcome.Value?
    then Some(st.flight.tasks[Task(st, c)].status.outcome.value) else None
  }

  ghost function NewEvents(cfg: Setting, st: State, step: Step): seq<Event>
    requires Enabled(cfg, st, step)
  {
    match step
    case Call(_, key, sandbox) =>
      var hit := Hit(cfg, st, key);
      if hit.Some? then [Returned(key, sandbox, hit.value, st.now, true)] else []
    case Flight(s) =>
      if s.Resume? && Resumed(st, s.caller).Some? && s.caller in st.flags
      then [Returned(st.flight.callers[s.caller].key, st.flags[s.caller], Resumed(st, s.caller).value, st.now, false)]
      else []
    case Start(t) =>
      var key := st.flight.tasks[t].key;
      if Refuses(st.negative, key, st.now) then [] else [Posted(key, st.now)]
    case ConnectionFailed(t) => [Failed(st.flight.tasks[t].key, st.now)]
    case _ => []
  }

  ghost function Next(cfg: Setting, st: State, step: Step): State
    requires Enabled(cfg, st, step)
  {
    State(if step.Tick? then step.now else st.now, NextFlight(cfg, st, step), NextClient(cfg, st, step), NextNegative(cfg, st, step),
          NextGateway(cfg, st, step), NextHandlers(cfg, st, step),
          if step.Call? && Hit(cfg, st, step.key).None? then st.flags[step.caller := step.sandbox] else st.flags,
          NextDone(cfg, st, step), st.events + NewEvents(cfg, st, step))
  }

  ghost predicate ValidRun(cfg: Setting, st: State, steps: seq<Step>)
    decreases |steps|
  {
    steps != [] ==> Enabled(cfg, st, steps[0]) && ValidRun(cfg, Next(cfg, st, steps[0]), steps[1..])
  }

  ghost function Run(cfg: Setting, st: State, steps: seq<Step>): State
    requires ValidRun(cfg, st, steps)
    decreases |steps|
  {
    if steps == [] then st else Run(cfg, Next(cfg, st, steps[0]), steps[1..])
  }

  // ---------------------------------------------------------------------------------------
  // What every step keeps
  // ---------------------------------------------------------------------------------------

  /** The reading is what a lookup for the key gave that began at `begunAt`, and is at most `age` old at `at`. */
  ghost predicate Fresh(cfg: Setting, key: Key, r: Reading, at: real, age: real) {
    && r.begunAt <= at <= r.begunAt + age
    && exists end :: r.begunAt <= end <= at && r.answer == cfg.world(key, r.sandbox, r.begunAt, end)
  }

  ghost function GatewayAge(cfg: Setting): real {
    GATEWAY_TTL + cfg.delays.lookup
  }

  ghost function ClientAge(cfg: Setting): real {
    GatewayAge(cfg) + cfg.delays.reply
  }

  ghost predicate CacheInv(cfg: Setting, cache: map<Key, Stamped<Reading>>, now: real, age: real) {
    forall k | k in cache ::
      cache[k].storedAt <= now && cache[k].value.answer.valid && Fresh(cfg, k, cache[k].value, cache[k].storedAt, age)
  }

  ghost predicate HandlerOk(cfg: Setting, key: Key, h: Handler, now: real) {
    match h
    case Looking(_) => true
    case Missed(_, begunAt) => begunAt <= now
    case Read(r) => r.begunAt <= now && Fresh(cfg, key, r, now, now - r.begunAt)
    case Answered(r, at) => at <= now && Fresh(cfg, key, r, at, GatewayAge(cfg))
  }

  ghost predicate HandlerInv(cfg: Setting, st: State) {
    forall t | t in st.handlers :: t < |st.flight.tasks| && HandlerOk(cfg, st.flight.tasks[t].key, st.handlers[t], st.now)
  }

  ghost predicate OutcomeInv(cfg: Setting, st: State) {
    forall t: nat | t < |st.flight.tasks| && st.flight.tasks[t].status.Done? ::
      && t in st.doneAt && st.doneAt[t] <= st.now
      && (st.flight.tasks[t].status.outcome.Value? ==>
            Fresh(cfg, st.flight.tasks[t].key, st.flight.tasks[t].status.outcome.value, st.doneAt[t], ClientAge(cfg)))
  }

  /** A returned answer that came from the cache is valid; the bound depends on where it came from. */
  ghost predicate EventOk(cfg: Setting, e: Event) {
    e.Returned? ==>
      && (e.hit ==> e.reading.answer.valid)
      && Fresh(cfg, e.key, e.reading, e.at, ClientAge(cfg) + if e.hit then cfg.clientTtl else cfg.delays.wake)
  }

  ghost predicate EventInv(cfg: Setting, st: State) {
    forall i | 0 <= i < |st.events| :: EventOk(cfg, st.events[i])
  }

  ghost predicate Inv(cfg: Setting, st: State) {
    && SF.Inv(st.flight)
    && CacheInv(cfg, st.gateway, st.now, cfg.delays.lookup)
    && CacheInv(cfg, st.client, st.now, ClientAge(cfg))
    && HandlerInv(cfg, st) && OutcomeInv(cfg, st) && EventInv(cfg, st)
  }

  lemma Older(cfg: Setting, key: Key, r: Reading, at: real, age: real, later: real, olderAge: real)
    requires Fresh(cfg, key, r, at, age) && at <= later <= r.begunAt + olderAge
    ensures Fresh(cfg, key, r, later, olderAge)
  {
    var end :| r.begunAt <= end <= at && r.answer == cfg.world(key, r.sandbox, r.begunAt, end);
    assert r.begunAt <= end <= later && r.answer == cfg.world(key, r.sandbox, r.begunAt, end);
  }

  lemma FlightEnabled(cfg: Setting, st: State, step: Step)
    requires Enabled(cfg, st, step)
    ensures FlightStep(cfg, st, step).Some? ==> SF.Enabled(st.flight, FlightStep(cfg, st, step).value)
  {
  }

  lemma KeptInv(cfg: Setting, cache: map<Key, Stamped<Reading>>, ttl: real, key: Key, r: Reading, now: real, age: real)
    requires CacheInv(cfg, cache, now, age) && Fresh(cfg, key, r, now, age)
    ensures CacheInv(cfg, Kept(cache, ttl, key, r.answer.valid, r, now), now, age)
  {
    hide Fresh;
  }

  lemma GatewayStep(cfg: Setting, st: State, step: Step)
    requires Inv(cfg, st) && Enabled(cfg, st, step)
    ensures CacheInv(cfg, Next(cfg, st, step).gateway, Next(cfg, st, step).now, cfg.delays.lookup)
  {
    hide Fresh, SF.Inv, SF.Enabled, SF.Next, EventInv, OutcomeInv, FlightStep;
    if step.GatewayReply? {
      var h, key := st.handlers[step.task], st.flight.tasks[step.task].key;
      assert HandlerOk(cfg, key, h, st.now);
      Older(cfg, key, h.reading, st.now, st.now - h.reading.begunAt, st.now, cfg.delays.lookup);
      KeptInv(cfg, st.gateway, GATEWAY_TTL, key, h.reading, st.now, cfg.delays.lookup);
    }
  }

  lemma ClientStep(cfg: Setting, st: State, step: Step)
    requires Inv(cfg, st) && Enabled(cfg, st, step)
    ensures CacheInv(cfg, Next(cfg, st, step).client, Next(cfg, st, step).now, ClientAge(cfg))
  {
    hide Fresh, SF.Inv, SF.Enabled, SF.Next, EventInv, OutcomeInv, FlightStep;
    if step.Receive? {
      ReceivedFresh(cfg, st, step.task);
      KeptInv(cfg, st.client, cfg.clientTtl, st.flight.tasks[step.task].key, st.handlers[step.task].reading, st.now, ClientAge(cfg));
    }
  }

  lemma ReceivedFresh(cfg: Setting, st: State, t: nat)
    requires HandlerInv(cfg, st) && Enabled(cfg, st, Receive(t))
    ensures Fresh(cfg, st.flight.tasks[t].key, st.handlers[t].reading, st.now, ClientAge(cfg))
  {
    var h, key := st.handlers[t], st.flight.tasks[t].key;
    assert HandlerOk(cfg, key, h, st.now);
    Older(cfg, key, h.reading, h.answeredAt, GatewayAge(cfg), st.now, ClientAge(cfg));
  }

  lemma Extended(cfg: Setting, st: State, step: Step)
    requires Enabled(cfg, st, step)
    ensures SF.Extends(st.flight.tasks, NextFlight(cfg, st, step).tasks)
  {
    FlightEnabled(cfg, st, step);
    if FlightStep(cfg, st, step).Some? { SF.NextExtends(st.flight, FlightStep(cfg, st, step).value); }
    hide SF.Next, SF.Enabled;
  }

  lemma HandlerLater(cfg: Setting, key: Key, h: Handler, now: real, later: real)
    requires HandlerOk(cfg, key, h, now) && now <= later
    ensures HandlerOk(cfg, key, h, later)
  {
    if h.Read? { Older(cfg, key, h.reading, now, now - h.reading.begunAt, later, later - h.reading.begunAt); }
  }

  /** The handler that a gateway step leaves behind. */
  lemma HandlerMoves(cfg: Setting, st: State, step: Step)
    requires HandlerInv(cfg, st) && CacheInv(cfg, st.gateway, st.now, cfg.delays.lookup) && Enabled(cfg, st, step)
    requires step.GatewayLookup? || step.DatabaseLookup? || step.GatewayReply?
    ensures HandlerOk(cfg, st.flight.tasks[step.task].key, NextHandlers(cfg, st, step)[step.task], st.now)
  {
    var key, h := st.flight.tasks[step.task].key, st.handlers[step.task];
    assert HandlerOk(cfg, key, h, st.now);
    match step
    case GatewayLookup(t) =>
      if Get(st.gateway, GATEWAY_TTL, key, st.now).Some? {
        var e := st.gateway[key];
        Older(cfg, key, e.value, e.storedAt, cfg.delays.lookup, st.now, GatewayAge(cfg));
      }
    case DatabaseLookup(t) =>
      var r := NextHandlers(cfg, st, step)[t].reading;
      assert r.begunAt <= st.now <= st.now && r.answer == cfg.world(key, r.sandbox, r.begunAt, st.now);
    case GatewayReply(t) =>
      Older(cfg, key, h.reading, st.now, st.now - h.reading.begunAt, st.now, GatewayAge(cfg));
  }

  lemma HandlerStep(cfg: Setting, st: State, step: Step)
    requires Inv(cfg, st) && Enabled(cfg, st, step)
    ensures HandlerInv(cfg, Next(cfg, st, step))
  {
    hide SF.Next, SF.Enabled, SF.Inv, EventInv, OutcomeInv;
    Extended(cfg, st, step);
    var next := Next(cfg, st, step);
    if step.GatewayLookup? || step.DatabaseLookup? || step.GatewayReply? { HandlerMoves(cfg, st, step); }
    forall t | t in next.handlers
      ensures t < |next.flight.tasks| && HandlerOk(cfg, next.flight.tasks[t].key, next.handlers[t], next.now)
    {
      if t in st.handlers && next.handlers[t] == st.handlers[t] {
        HandlerLater(cfg, st.flight.tasks[t].key, st.handlers[t], st.now, next.now);
      }
      hide HandlerOk, NextFlight;
    }
  }

  /** Only `Complete` finishes a task. */
  lemma NewlyDone(st: SF.State<Key, Reading>, step: SF.Step<Key, Reading>, t: nat)
    requires SF.Enabled(st, step) && t < |SF.Next(st, step).tasks| && SF.Next(st, step).tasks[t].status.Done?
    ensures t < |st.tasks|
    ensures if step.Complete? && step.task == t then SF.Next(st, step).tasks[t].status.outcome == step.outcome
            else st.tasks[t].status == SF.Next(st, step).tasks[t].status
    ensures SF.Next(st, step).tasks[t].key == st.tasks[t].key
  {
  }

  /** A task that finishes with an answer got it fresh from its handler. */
  lemma CompletedFresh(cfg: Setting, st: State, step: Step)
    requires HandlerInv(cfg, st) && Enabled(cfg, st, step)
    requires FlightStep(cfg, st, step).Some? && FlightStep(cfg, st, step).value.Complete? && FlightStep(cfg, st, step).value.outcome.Value?
    ensures var done := FlightStep(cfg, st, step).value;
            done.task < |st.flight.tasks| && Fresh(cfg, st.flight.tasks[done.task].key, done.outcome.value, st.now, ClientAge(cfg))
  {
    hide Fresh, SF.Next, SF.Enabled, HandlerInv;
    ReceivedFresh(cfg, st, step.task);
  }

  ghost predicate OutcomeOk(cfg: Setting, task: SF.Task<Key, Reading>, doneAt: map<nat, real>, t: nat, now: real) {
    task.status.Done? ==>
      && t in doneAt && doneAt[t] <= now
      && (task.status.outcome.Value? ==> Fresh(cfg, task.key, task.status.outcome.value, doneAt[t], ClientAge(cfg)))
  }

  /** A task that a single-flight step finishes, and every other one. */
  lemma OutcomeAt(cfg: Setting, st: SF.State<Key, Reading>, s: SF.Step<Key, Reading>, doneAt: map<nat, real>, now: real, t: nat)
    requires SF.Enabled(st, s) && t < |SF.Next(st, s).tasks|
    requires forall u: nat | u < |st.tasks| :: OutcomeOk(cfg, st.tasks[u], doneAt, u, now)
    requires s.Complete? && s.outcome.Value? ==> s.task < |st.tasks| && Fresh(cfg, st.tasks[s.task].key, s.outcome.value, now, ClientAge(cfg))
    ensures OutcomeOk(cfg, SF.Next(st, s).tasks[t], if s.Complete? then doneAt[s.task := now] else doneAt, t, now)
  {
    if SF.Next(st, s).tasks[t].status.Done? {
      NewlyDone(st, s, t);
      assert OutcomeOk(cfg, st.tasks[t], doneAt, t, now);
    }
    hide Fresh, SF.Next, SF.Enabled, ClientAge;
  }

  /** How a step that moves the single flight changes the clock and the finishing times. */
  lemma StepShape(cfg: Setting, st: State, step: Step)
    requires Enabled(cfg, st, step)
    ensures var s, next := FlightStep(cfg, st, step), Next(cfg, st, step);
            && (s.Some? ==> SF.Enabled(st.flight, s.value))
            && st.now <= next.now && (s.Some? ==> next.now == st.now)
            && next.flight == (if s.Some? then SF.Next(st.flight, s.value) else st.flight)
            && next.doneAt == (if s.Some? && s.value.Complete? then st.doneAt[s.value.task := st.now] else st.doneAt)
  {
    FlightEnabled(cfg, st, step);
    hide SF.Next, SF.Enabled, NextClient, NextGateway, NextNegative, NextHandlers, NewEvents;
  }

  lemma OutcomesAre(cfg: Setting, st: State)
    ensures OutcomeInv(cfg, st) <==> forall u: nat | u < |st.flight.tasks| :: OutcomeOk(cfg, st.flight.tasks[u], st.doneAt, u, st.now)
  {
    hide Fresh, ClientAge;
  }

  lemma OutcomeLater(cfg: Setting, task: SF.Task<Key, Reading>, doneAt: map<nat, real>, t: nat, now: real, later: real)
    requires OutcomeOk(cfg, task, doneAt, t, now) && now <= later
    ensures OutcomeOk(cfg, task, doneAt, t, later)
  {
    hide Fresh, ClientAge;
  }

  lemma OutcomeStep(cfg: Setting, st: State, step: Step)
    requires Inv(cfg, st) && Enabled(cfg, st, step)
    ensures OutcomeInv(cfg, Next(cfg, st, step))
  {
    assert HandlerInv(cfg, st) && OutcomeInv(cfg, st);
    hide *;
    StepShape(cfg, st, step);
    OutcomesAre(cfg, st);
    var s, next := FlightStep(cfg, st, step), Next(cfg, st, step);
    OutcomesAre(cfg, next);
    if s.Some? && s.value.Complete? && s.value.outcome.Value? { CompletedFresh(cfg, st, step); }
    forall t: nat | t < |next.flight.tasks|
      ensures OutcomeOk(cfg, next.flight.tasks[t], next.doneAt, t, next.now)
    {
      if s.Some? {
        OutcomeAt(cfg, st.flight, s.value, st.doneAt, st.now, t);
      } else {
        OutcomeLater(cfg, st.flight.tasks[t], st.doneAt, t, st.now, next.now);
      }
    }
  }

  lemma NewEventsOk(cfg: Setting, st: State, step: Step)
    requires Inv(cfg, st) && Enabled(cfg, st, step)
    ensures forall i | 0 <= i < |NewEvents(cfg, st, step)| :: EventOk(cfg, NewEvents(cfg, st, step)[i])
  {
    hide SF.Next, EventInv, HandlerInv;
    if step.Call? && Hit(cfg, st, step.key).Some? {
      var e := st.client[step.key];
      Older(cfg, step.key, e.value, e.storedAt, ClientAge(cfg), st.now, ClientAge(cfg) + cfg.clientTtl);
    }
    if step.Flight? && step.step.Resume? && Resumed(st, step.step.caller).Some? {
      var c := step.step.caller;
      var t := Task(st, c);
      assert SF.CallerOk(c, st.flight.callers[c], st.flight.tasks);
      Older(cfg, st.flight.tasks[t].key, Resumed(st, c).value, st.doneAt[t], ClientAge(cfg), st.now, ClientAge(cfg) + cfg.delays.wake);
    }
    hide Fresh, SF.Inv, SF.Enabled, CacheInv, OutcomeInv;
  }

  lemma InvStep(cfg: Setting, st: State, step: Step)
    requires Inv(cfg, st) && Enabled(cfg, st, step)
    ensures Inv(cfg, Next(cfg, st, step))
  {
    GatewayStep(cfg, st, step);
    ClientStep(cfg, st, step);
    HandlerStep(cfg, st, step);
    OutcomeStep(cfg, st, step);
    NewEventsOk(cfg, st, step);
    FlightEnabled(cfg, st, step);
    hide CacheInv, HandlerInv, OutcomeInv, EventOk, NewEvents, SF.Enabled, SF.Next, SF.Inv;
    if FlightStep(cfg, st, step).Some? { SF.InvStep(st.flight, FlightStep(cfg, st, step).value); }
  }

  lemma {:induction false} RunInv(cfg: Setting, st: State, steps: seq<Step>)
    requires Inv(cfg, st) && ValidRun(cfg, st, steps)
    ensures Inv(cfg, Run(cfg, st, steps))
    decreases |steps|
  {
    hide Inv, Next, Enabled;
    if steps != [] {
      InvStep(cfg, st, steps[0]);
      RunInv(cfg, Next(cfg, st, steps[0]), steps[1..]);
    }
  }

  // ---------------------------------------------------------------------------------------
  // Results over every interleaving
  // ---------------------------------------------------------------------------------------

  /** Bounded staleness: whatever the interleaving, an answer that the data plane returns is what a database lookup gave
      that began no earlier than the two lifetimes and the delays allow. */
  lemma BoundedStaleness(cfg: Setting, steps: seq<Step>, i: nat)
    requires ValidRun(cfg, Init(), steps) && i < |Run(cfg, Init(), steps).events| && Run(cfg, Init(), steps).events[i].Returned?
    ensures var e, d := Run(cfg, Init(), steps).events[i], cfg.delays;
            && e.reading.begunAt <= e.at
            && e.at - e.reading.begunAt <= 10.0 + d.lookup + d.reply + (if e.hit then cfg.clientTtl else d.wake)
            && exists end :: e.reading.begunAt <= end <= e.at && e.reading.answer == cfg.world(e.key, e.reading.sandbox, e.reading.begunAt, end)
  {
    InitInv(cfg);
    hide Inv, Run, ValidRun;
    RunInv(cfg, Init(), steps);
    InvEvent(cfg, Run(cfg, Init(), steps), i);
  }

  lemma InitInv(cfg: Setting)
    ensures Inv(cfg, Init())
  {
  }

  lemma InvEvent(cfg: Setting, st: State, i: nat)
    requires Inv(cfg, st) && i < |st.events|
    ensures EventOk(cfg, st.events[i])
  {
    hide SF.Inv, CacheInv, HandlerInv, OutcomeInv, EventOk;
  }

  /** No reachable state has an invalid answer in either cache. */
  lemma InvalidNeverStored(cfg: Setting, steps: seq<Step>, k: Key)
    requires ValidRun(cfg, Init(), steps)
    ensures var st := Run(cfg, Init(), steps);
            (k in st.client ==> st.client[k].value.answer.valid) && (k in st.gateway ==> st.gateway[k].value.answer.valid)
  {
    RunInv(cfg, Init(), steps);
  }

  /** At most one fetch of a key is running. */
  lemma OneFetchPerKey(cfg: Setting, steps: seq<Step>, t: nat, u: nat)
    requires ValidRun(cfg, Init(), steps)
    requires var st := Run(cfg, Init(), steps).flight;
             && t < |st.tasks| && u < |st.tasks| && st.tasks[t].key == st.tasks[u].key
             && st.tasks[t].status.Running? && st.tasks[u].status.Running?
    ensures t == u
  {
    InitInv(cfg);
    RunInv(cfg, Init(), steps);
    hide Run, ValidRun, CacheInv, HandlerInv, OutcomeInv, EventInv, SF.LockInv, SF.CallerInv, SF.MapInv;
    assert SF.TaskInv(Run(cfg, Init(), steps).flight);
  }

  // ---------------------------------------------------------------------------------------
  // The negative cache
  // ---------------------------------------------------------------------------------------

  /** Every failure is either five seconds old or still on record. */
  ghost predicate FailuresKept(st: State) {
    forall i | 0 <= i < |st.events| && st.events[i].Failed? ::
      var e := st.events[i];
      && e.at <= st.now
      && (e.at + NEGATIVE_TTL <= st.now || (e.key in st.negative && e.at <= st.negative[e.key] <= st.now))
  }

  ghost predicate Spaced(events: seq<Event>) {
    forall i, j | 0 <= i < j < |events| && events[i].Failed? && events[j].Posted? && events[i].key == events[j].key ::
      events[i].at + NEGATIVE_TTL <= events[j].at
  }

  lemma NegativeStep(cfg: Setting, st: State, step: Step)
    requires FailuresKept(st) && Spaced(st.events) && Enabled(cfg, st, step)
    ensures FailuresKept(Next(cfg, st, step)) && Spaced(Next(cfg, st, step).events)
  {
    hide SF.Next, SF.Enabled, NextFlight, NextClient, NextGateway, NextHandlers, NextDone, Resumed;
  }

  lemma {:induction false} NegativeRun(cfg: Setting, st: State, steps: seq<Step>)
    requires FailuresKept(st) && Spaced(st.events) && ValidRun(cfg, st, steps)
    ensures FailuresKept(Run(cfg, st, steps)) && Spaced(Run(cfg, st, steps).events)
    decreases |steps|
  {
    hide FailuresKept, Spaced, Next, Enabled;
    if steps != [] {
      NegativeStep(cfg, st, steps[0]);
      NegativeRun(cfg, Next(cfg, st, steps[0]), steps[1..]);
    }
  }

  /** After a connection failure for a key, the next post for that key comes at least five seconds later. */
  lemma PostsAvoidFailures(cfg: Setting, steps: seq<Step>, i: nat, j: nat)
    requires ValidRun(cfg, Init(), steps)
    requires var events := Run(cfg, Init(), steps).events;
             i < j < |events| && events[i].Failed? && events[j].Posted? && events[i].key == events[j].key
    ensures Run(cfg, Init(), steps).events[i].at + 5.0 <= Run(cfg, Init(), steps).events[j].at
  {
    NegativeRun(cfg, Init(), steps);
  }

  /** A connection failure of the key was logged less than five seconds before `now`. */
  ghost predicate FailedLately(events: seq<Event>, key: Key, now: real) {
    exists i | 0 <= i < |events| :: events[i].Failed? && events[i].key == key && now - events[i].at < 5.0
  }

  /** Every record on file was logged as a failure. */
  ghost predicate RecordsLogged(st: State) {
    forall key | key in st.negative :: Failed(key, st.negative[key]) in st.events
  }

  lemma RecordsStep(cfg: Setting, st: State, step: Step)
    requires RecordsLogged(st) && Enabled(cfg, st, step)
    ensures RecordsLogged(Next(cfg, st, step))
  {
    var next := Next(cfg, st, step);
    hide SF.Next, SF.Enabled, NextFlight, NextClient, NextGateway, NextHandlers, NextDone, Resumed;
    forall key | key in next.negative
      ensures Failed(key, next.negative[key]) in next.events
    {
      if key in st.negative && next.negative[key] == st.negative[key] {
        assert Failed(key, st.negative[key]) in st.events;
      } else {
        assert NewEvents(cfg, st, step) == [Failed(key, st.now)];
        assert next.events[|st.events|] == Failed(key, next.negative[key]);
      }
    }
  }

  lemma {:induction false} RecordsRun(cfg: Setting, st: State, steps: seq<Step>)
    requires RecordsLogged(st) && ValidRun(cfg, st, steps)
    ensures RecordsLogged(Run(cfg, st, steps))
    decreases |steps|
  {
    hide RecordsLogged, Next, Enabled;
    if steps != [] {
      RecordsStep(cfg, st, steps[0]);
      RecordsRun(cfg, Next(cfg, st, steps[0]), steps[1..]);
    }
  }

  lemma RefusesIff(st: State, key: Key)
    requires FailuresKept(st) && RecordsLogged(st)
    ensures Refuses(st.negative, key, st.now) <==> FailedLately(st.events, key, st.now)
  {
    if Refuses(st.negative, key, st.now) {
      var i :| 0 <= i < |st.events| && st.events[i] == Failed(key, st.negative[key]);
      assert st.events[i].Failed?;
    }
  }

  /** In every run, a fetch that starts is refused, raising at once, exactly when a connection failure of its key was
      logged less than five seconds before; otherwise it posts. */
  lemma StartRefusedIff(cfg: Setting, steps: seq<Step>, t: nat)
    requires ValidRun(cfg, Init(), steps) && Enabled(cfg, Run(cfg, Init(), steps), Start(t))
    ensures var before := Run(cfg, Init(), steps);
            var key, after := before.flight.tasks[t].key, Next(cfg, before, Start(t));
            if FailedLately(before.events, key, before.now) then
              && after.events == before.events && after.handlers == before.handlers
              && t < |after.flight.tasks| && after.flight.tasks[t].status == SF.Done(SF.Raised)
            else
              && after.events == before.events + [Posted(key, before.now)] && t in after.handlers
              && after.flight == before.flight
  {
    NegativeRun(cfg, Init(), steps);
    RecordsRun(cfg, Init(), steps);
    var before := Run(cfg, Init(), steps);
    hide *;
    RefusesIff(before, before.flight.tasks[t].key);
    StartDoes(cfg, before, t);
  }

  lemma StartDoes(cfg: Setting, st: State, t: nat)
    requires Enabled(cfg, st, Start(t))
    ensures t < |st.flight.tasks|
    ensures var key, after := st.flight.tasks[t].key, Next(cfg, st, Start(t));
            if Refuses(st.negative, key, st.now) then
              && after.events == st.events && after.handlers == st.handlers
              && t < |after.flight.tasks| && after.flight.tasks[t].status == SF.Done(SF.Raised)
            else
              after.events == st.events + [Posted(key, st.now)] && t in after.handlers && after.flight == st.flight
  {
    hide NextClient, NextGateway, NextDone, Resumed, Hit, Refuses;
  }

  // ---------------------------------------------------------------------------------------
  // What the two caches answer
  // ---------------------------------------------------------------------------------------

  /** The latest valid answer for the key that reached the data plane in a run, and when. */
  ghost function LastReceived(cfg: Setting, st: State, steps: seq<Step>, key: Key, known: Option<Stamped<Reading>>): Option<Stamped<Reading>>
    requires ValidRun(cfg, st, steps)
    decreases |steps|
  {
    if steps == [] then known
    else
      var s := steps[0];
      var isNew := s.Receive? && st.flight.tasks[s.task].key == key && st.handlers[s.task].reading.answer.valid;
      LastReceived(cfg, Next(cfg, st, s), steps[1..], key, if isNew then Some(Stamped(st.handlers[s.task].reading, st.now)) else known)
  }

  /** The latest valid answer for the key that the gateway gave in a run, and when. */
  ghost function LastReplied(cfg: Setting, st: State, steps: seq<Step>, key: Key, known: Option<Stamped<Reading>>): Option<Stamped<Reading>>
    requires ValidRun(cfg, st, steps)
    decreases |steps|
  {
    if steps == [] then known
    else
      var s := steps[0];
      var isNew := s.GatewayReply? && st.flight.tasks[s.task].key == key && st.handlers[s.task].reading.answer.valid;
      LastReplied(cfg, Next(cfg, st, s), steps[1..], key, if isNew then Some(Stamped(st.handlers[s.task].reading, st.now)) else known)
  }

  /** From now on, the cache answers for the key as the known entry does. */
  ghost predicate Knows(cache: map<Key, Stamped<Reading>>, ttl: real, key: Key, known: Option<Stamped<Reading>>, now: real) {
    && (key in cache ==> known == Some(cache[key]))
    && (known.Some? && now < known.value.storedAt + ttl ==> key in cache)
  }

  lemma KnowsPut(cache: map<Key, Stamped<Reading>>, ttl: real, key: Key, known: Option<Stamped<Reading>>, now: real, k: Key, r: Reading)
    requires Knows(cache, ttl, key, known, now)
    ensures Knows(Put(cache, ttl, k, r, now), ttl, key, if k == key then Some(Stamped(r, now)) else known, now)
  {
  }

  lemma {:induction false} ClientKnows(cfg: Setting, st: State, steps: seq<Step>, key: Key, known: Option<Stamped<Reading>>)
    requires ValidRun(cfg, st, steps) && Knows(st.client, cfg.clientTtl, key, known, st.now)
    ensures Knows(Run(cfg, st, steps).client, cfg.clientTtl, key, LastReceived(cfg, st, steps, key, known), Run(cfg, st, steps).now)
    decreases |steps|
  {
    if steps != [] {
      var s, next := steps[0], Next(cfg, st, steps[0]);
      if s.Receive? { KnowsPut(st.client, cfg.clientTtl, key, known, st.now, st.flight.tasks[s.task].key, st.handlers[s.task].reading); }
      var isNew := s.Receive? && st.flight.tasks[s.task].key == key && st.handlers[s.task].reading.answer.valid;
      var later := if isNew then Some(Stamped(st.handlers[s.task].reading, st.now)) else known;
      hide NextFlight, NextNegative, NextGateway, NextHandlers, NextDone, NewEvents, Put;
      assert Knows(next.client, cfg.clientTtl, key, later, next.now);
      hide Knows, Next, Enabled;
      ClientKnows(cfg, next, steps[1..], key, later);
    }
  }

  lemma {:induction false} GatewayKnows(cfg: Setting, st: State, steps: seq<Step>, key: Key, known: Option<Stamped<Reading>>)
    requires ValidRun(cfg, st, steps) && Knows(st.gateway, 10.0, key, known, st.now)
    ensures Knows(Run(cfg, st, steps).gateway, 10.0, key, LastReplied(cfg, st, steps, key, known), Run(cfg, st, steps).now)
    decreases |steps|
  {
    if steps != [] {
      var s, next := steps[0], Next(cfg, st, steps[0]);
      if s.GatewayReply? { KnowsPut(st.gateway, 10.0, key, known, st.now, st.flight.tasks[s.task].key, st.handlers[s.task].reading); }
      var isNew := s.GatewayReply? && st.flight.tasks[s.task].key == key && st.handlers[s.task].reading.answer.valid;
      var later := if isNew then Some(Stamped(st.handlers[s.task].reading, st.now)) else known;
      hide NextFlight, NextNegative, NextClient, NextHandlers, NextDone, NewEvents, Put;
      assert Knows(next.gateway, 10.0, key, later, next.now);
      hide Knows, Next, Enabled;
      GatewayKnows(cfg, next, steps[1..], key, later);
    }
  }

  /** In every run, a call is answered from the cache exactly when the latest valid answer for its key arrived less than the
      lifetime ago, and then by that answer; otherwise it goes on to the single-flight map. */
  lemma CallHitsIff(cfg: Setting, steps: seq<Step>, c: nat, key: Key, sandbox: bool)
    requires ValidRun(cfg, Init(), steps) && Enabled(cfg, Run(cfg, Init(), steps), Call(c, key, sandbox))
    ensures var before, last := Run(cfg, Init(), steps), LastReceived(cfg, Init(), steps, key, None);
            var after := Next(cfg, before, Call(c, key, sandbox));
            if last.Some? && before.now < last.value.storedAt + cfg.clientTtl then
              after.flight == before.flight && after.events == before.events + [Returned(key, sandbox, last.value.value, before.now, true)]
            else after.events == before.events && c in after.flight.callers && after.flight.callers[c] == SF.Caller(key, SF.Arrived, false)
  {
    ClientKnows(cfg, Init(), steps, key, None);
    hide Run, ValidRun, LastReceived, NextClient, NextNegative, NextGateway, NextHandlers, NextDone;
  }

  /** The same for the gateway's cache and its ten seconds: a handler answers from it or goes to the database. */
  lemma GatewayHitsIff(cfg: Setting, steps: seq<Step>, t: nat)
    requires ValidRun(cfg, Init(), steps) && Enabled(cfg, Run(cfg, Init(), steps), GatewayLookup(t))
    ensures var before := Run(cfg, Init(), steps);
            var last, after := LastReplied(cfg, Init(), steps, before.flight.tasks[t].key, None), Next(cfg, before, GatewayLookup(t));
            after.handlers == before.handlers[t := if last.Some? && before.now < last.value.storedAt + 10.0 then Answered(last.value.value, before.now)
                                                   else Missed(before.handlers[t].sandbox, before.now)]
  {
    GatewayKnows(cfg, Init(), steps, Run(cfg, Init(), steps).flight.tasks[t].key, None);
    hide Run, ValidRun, LastReplied, NextClient, NextNegative, NextGateway, NextFlight, NextDone;
  }
}
