/**
 The upstream concurrency limiter: an optional global semaphore and one semaphore per deployment, the latter
 kept in a cache that forgets it 300 seconds after its creation even while requests still hold it.
 A request may leave at any point, by timing out, by an exception in its body, by cancellation, or normally.
 */
module ConcurrencyLimiter {
  import opened Basics
  import opened TtlCache

  const SEMAPHORE_TTL := 300.0

  /** Limits of zero or less are switched off. */
  datatype Limits = Limits(global: int, perDeployment: int)

  // ---------------------------------------------------------------------------------------
  // The objects
  // ---------------------------------------------------------------------------------------

  class Semaphore {
    var free: int

    constructor (n: int)
      ensures free == n
    {
      free := n;
    }

    /** Waiting for a permit either takes one or times out. */
    method AcquireOrTimeout() returns (acquired: bool)
      modifies this
      ensures acquired <==> old(free) > 0
      ensures free == old(free) - (if acquired then 1 else 0)
    {
      acquired := free > 0;
      if acquired { free := free - 1; }
    }

    method Release()
      modifies this
      ensures free == old(free) + 1
    {
      free := free + 1;
    }
  }

  /** The local variables of `limit` between its two halves. */
  datatype Slot = Slot(acquiredGlobal: bool, deployment: Option<Semaphore>, acquiredDeployment: bool)

  class UpstreamConcurrencyLimiter {
    const limits: Limits
    var global: Option<Semaphore>
    var deployments: map<string, Stamped<Semaphore>>

    constructor (limits: Limits)
      ensures this.limits == limits && Valid() && deployments == map[]
      ensures global.Some? ==> fresh(global.value) && global.value.free == limits.global
    {
      this.limits := limits;
      deployments := map[];
      if limits.global > 0 {
        var s := new Semaphore(limits.global);
        global := Some(s);
      } else {
        global := None;
      }
    }

    ghost predicate Valid()
      reads this
    {
      && (global.Some? <==> limits.global > 0)
      && (global.Some? ==> forall k | k in deployments :: deployments[k].value != global.value)
    }

    method GetOrCreate(key: string, now: real) returns (s: Option<Semaphore>)
      requires Valid()
      modifies this`deployments
      ensures Valid()
      ensures limits.perDeployment <= 0 ==> s == None && deployments == old(deployments)
      ensures limits.perDeployment > 0 ==> s == Get(deployments, SEMAPHORE_TTL, key, now) && s.Some?
      ensures var found := Get(old(deployments), SEMAPHORE_TTL, key, now);
              limits.perDeployment > 0 ==>
                if found.Some? then deployments == old(deployments)
                else fresh(s.value) && s.value.free == limits.perDeployment && deployments == Put(old(deployments), SEMAPHORE_TTL, key, s.value, now)
    {
      if limits.perDeployment <= 0 {
        return None;
      }
      s := Get(deployments, SEMAPHORE_TTL, key, now);
      if s.None? {
        var created := new Semaphore(limits.perDeployment);
        deployments := Put(deployments, SEMAPHORE_TTL, key, created, now);
        s := Some(created);
      }
    }

    /** The first half of `limit`.  A refusal has already given back whatever it took. */
    method Enter(key: string, now: real) returns (admitted: bool, slot: Slot)
      requires Valid()
      modifies this`deployments, if global.Some? then {global.value} else {}, set k | k in deployments :: deployments[k].value
      ensures Valid() && global == old(global)
      ensures admitted <==>
                && (limits.global > 0 ==> old(global.value.free) > 0)
                && (limits.perDeployment > 0 && Get(old(deployments), SEMAPHORE_TTL, key, now).Some? ==> old(deployments[key].value.free) > 0)
      ensures !admitted ==>
                && (global.Some? ==> global.value.free == old(global.value.free))
                && (forall k | k in old(deployments) :: old(deployments)[k].value.free == old(deployments[k].value.free))
      ensures admitted ==>
                && slot.acquiredGlobal == global.Some?
                && slot.deployment == (if limits.perDeployment > 0 then Get(deployments, SEMAPHORE_TTL, key, now) else None)
                && slot.acquiredDeployment == slot.deployment.Some?
                && (global.Some? ==> old(global.value.free) > 0 && global.value.free == old(global.value.free) - 1)
                && (slot.deployment.Some? && key in old(deployments) && old(deployments)[key].value == slot.deployment.value ==>
                      slot.deployment.value.free == old(deployments[key].value.free) - 1)
                && (slot.deployment.Some? && Get(old(deployments), SEMAPHORE_TTL, key, now).None? ==>
                      slot.deployment.value.free == limits.perDeployment - 1)
    {
      slot := Slot(false, None, false);
      if global.Some? {
        var ok := global.value.AcquireOrTimeout();
        if !ok {
          return false, slot;
        }
        slot := slot.(acquiredGlobal := true);
      }
      var semaphore := GetOrCreate(key, now);
      slot := slot.(deployment := semaphore);
      if semaphore.Some? {
        var ok := semaphore.value.AcquireOrTimeout();
        if !ok {
          Exit(slot);
          return false, slot;
        }
        slot := slot.(acquiredDeployment := true);
      }
      admitted := true;
    }

    /** The `finally` block: every permit taken goes back to the semaphore it came from. */
    method Exit(slot: Slot)
      requires global.Some? && slot.deployment.Some? ==> global.value != slot.deployment.value
      requires slot.acquiredGlobal ==> global.Some?
      requires slot.acquiredDeployment ==> slot.deployment.Some?
      modifies if slot.acquiredGlobal then {global.value} else {}, if slot.acquiredDeployment then {slot.deployment.value} else {}
      ensures slot.acquiredGlobal ==> global.value.free == old(global.value.free) + 1
      ensures slot.acquiredDeployment ==> slot.deployment.value.free == old(slot.deployment.value.free) + 1
    {
      if slot.acquiredDeployment {
        slot.deployment.value.Release();
      }
      if slot.acquiredGlobal {
        global.value.Release();
      }
    }
  }

  // ---------------------------------------------------------------------------------------
  // Interleaved requests
  // ---------------------------------------------------------------------------------------

  /** One semaphore generation of a deployment. */
  datatype Sem = Sem(key: string, free: int, created: real)

  datatype Phase = WaitGlobal | NeedSemaphore | WaitSemaphore | Body

  /** A request inside `limit`, with its local variables. */
  datatype Task = Task(key: string, phase: Phase, hasGlobal: bool, sem: Option<nat>, hasSem: bool, fetchedAt: real)

  /** Every semaphore ever created for a deployment has a number; the cache maps a key to the current one. */
  datatype State = State(now: real, globalFree: int, cache: map<string, Stamped<nat>>, sems: seq<Sem>, tasks: map<nat, Task>)

  datatype Step =
    | Tick(now: real)
    | Arrive(task: nat, key: string)
    | TakeGlobal(task: nat)
    | Fetch(task: nat)
    | TakeSemaphore(task: nat)
    | Leave(task: nat)

  function Init(limits: Limits): State {
    State(0.0, limits.global, map[], [], map[])
  }

  ghost predicate Enabled(st: State, step: Step) {
    match step
    case Tick(now) => st.now <= now
    case Arrive(t, _) => t !in st.tasks
    case TakeGlobal(t) => t in st.tasks && st.tasks[t].phase == WaitGlobal && st.globalFree > 0
    case Fetch(t) => t in st.tasks && st.tasks[t].phase == NeedSemaphore
    case TakeSemaphore(t) =>
      && t in st.tasks && st.tasks[t].phase == WaitSemaphore && st.tasks[t].sem.Some?
      && st.tasks[t].sem.value < |st.sems| && st.sems[st.tasks[t].sem.value].free > 0
    case Leave(t) => t in st.tasks
  }

  /** The semaphore that a fetch finds in the cache, if it is still there. */
  function Cached(st: State, t: nat): Option<nat>
    requires t in st.tasks
  {
    Get(st.cache, SEMAPHORE_TTL, st.tasks[t].key, st.now)
  }

  predicate Creates(st: State, limits: Limits, step: Step)
    requires Enabled(st, step)
  {
    step.Fetch? && limits.perDeployment > 0 && Cached(st, step.task).None?
  }

  /** The acting task after the step. */
  function Moved(st: State, limits: Limits, step: Step): Task
    requires Enabled(st, step) && !step.Tick? && !step.Leave?
  {
    match step
    case Arrive(_, key) => Task(key, if limits.global > 0 then WaitGlobal else NeedSemaphore, false, None, false, st.now)
    case TakeGlobal(t) => st.tasks[t].(phase := NeedSemaphore, hasGlobal := true)
    case Fetch(t) =>
      if limits.perDeployment <= 0 then st.tasks[t].(phase := Body)
      else
        var id := if Cached(st, t).Some? then Cached(st, t).value else |st.sems|;
        st.tasks[t].(phase := WaitSemaphore, sem := Some(id), fetchedAt := st.now)
    case TakeSemaphore(t) => st.tasks[t].(phase := Body, hasSem := true)
  }

  function NextTasks(st: State, limits: Limits, step: Step): map<nat, Task>
    requires Enabled(st, step)
  {
    if step.Tick? then st.tasks
    else if step.Leave? then st.tasks - {step.task}
    else st.tasks[step.task := Moved(st, limits, step)]
  }

  function NextGlobal(st: State, step: Step): int
    requires Enabled(st, step)
  {
    if step.TakeGlobal? then st.globalFree - 1
    else if step.Leave? && st.tasks[step.task].hasGlobal then st.globalFree + 1
    else st.globalFree
  }

  function Adjust(sems: seq<Sem>, id: nat, delta: int): seq<Sem> {
    if id < |sems| then sems[id := sems[id].(free := sems[id].free + delta)] else sems
  }

  function NextSems(st: State, limits: Limits, step: Step): seq<Sem>
    requires Enabled(st, step)
  {
    if Creates(st, limits, step) then st.sems + [Sem(st.tasks[step.task].key, limits.perDeployment, st.now)]
    else if step.TakeSemaphore? then Adjust(st.sems, st.tasks[step.task].sem.value, -1)
    else if step.Leave? && st.tasks[step.task].hasSem && st.tasks[step.task].sem.Some? then Adjust(st.sems, st.tasks[step.task].sem.value, 1)
    else st.sems
  }

  function NextCache(st: State, limits: Limits, step: Step): map<string, Stamped<nat>>
    requires Enabled(st, step)
  {
    if Creates(st, limits, step) then Put(st.cache, SEMAPHORE_TTL, st.tasks[step.task].key, |st.sems|, st.now) else st.cache
  }

  function Next(st: State, limits: Limits, step: Step): State
    requires Enabled(st, step)
  {
    State(if step.Tick? then step.now else st.now, NextGlobal(st, step), NextCache(st, limits, step),
          NextSems(st, limits, step), NextTasks(st, limits, step))
  }

  ghost predicate ValidRun(st: State, limits: Limits, steps: seq<Step>)
    decreases |steps|
  {
    steps != [] ==> Enabled(st, steps[0]) && ValidRun(Next(st, limits, steps[0]), limits, steps[1..])
  }

  ghost function Run(st: State, limits: Limits, steps: seq<Step>): State
    requires ValidRun(st, limits, steps)
    decreases |steps|
  {
    if steps == [] then st else Run(Next(st, limits, steps[0]), limits, steps[1..])
  }

  lemma StepThen(st: State, limits: Limits, step: Step, rest: seq<Step>)
    requires Enabled(st, step) && ValidRun(Next(st, limits, step), limits, rest)
    ensures ValidRun(st, limits, [step] + rest) && Run(st, limits, [step] + rest) == Run(Next(st, limits, step), limits, rest)
  {
    hide Enabled, Next;
    assert ([step] + rest)[0] == step && ([step] + rest)[1..] == rest;
  }

  function GlobalHolders(tasks: map<nat, Task>): set<nat> {
    set t | t in tasks && tasks[t].hasGlobal
  }

  function Holders(tasks: map<nat, Task>, id: nat): set<nat> {
    set t | t in tasks && tasks[t].hasSem && tasks[t].sem == Some(id)
  }

  function InBody(tasks: map<nat, Task>): set<nat> {
    set t | t in tasks && tasks[t].phase == Body
  }

  /** A task's flags say what its phase implies. */
  ghost predicate TaskOk(task: Task, limits: Limits, sems: seq<Sem>) {
    && (task.hasGlobal <==> limits.global > 0 && task.phase != WaitGlobal)
    && (task.hasSem <==> limits.perDeployment > 0 && task.phase == Body)
    && (task.phase == WaitGlobal ==> limits.global > 0)
    && (task.phase == WaitSemaphore ==> limits.perDeployment > 0)
    && (task.phase == WaitSemaphore || task.hasSem ==> task.sem.Some?)
    && (task.sem.Some? ==> task.sem.value < |sems| && sems[task.sem.value].key == task.key)
  }

  ghost predicate TasksOk(st: State, limits: Limits) {
    forall t | t in st.tasks :: TaskOk(st.tasks[t], limits, st.sems)
  }

  /** Free permits plus holders make up the limit, for the global semaphore and for every generation. */
  ghost predicate Conserved(st: State, limits: Limits) {
    && (limits.global > 0 ==> st.globalFree >= 0 && st.globalFree + |GlobalHolders(st.tasks)| == limits.global)
    && (forall id: nat | id < |st.sems| :: st.sems[id].free >= 0 && st.sems[id].free + |Holders(st.tasks, id)| == limits.perDeployment)
  }

  /** Generations of a key are created at least a cache lifetime apart, the cache knows the last one while it lives,
      and a task fetched its semaphore while that was the current one. */
  ghost predicate Generations(st: State) {
    Created(st) && CacheNames(st) && LiveCached(st) && Apart(st) && FetchedLive(st)
  }

  ghost predicate Created(st: State) {
    forall id: nat | id < |st.sems| :: st.sems[id].created <= st.now
  }

  ghost predicate CacheNames(st: State) {
    forall k | k in st.cache ::
      st.cache[k].value < |st.sems| && st.sems[st.cache[k].value].key == k && st.sems[st.cache[k].value].created == st.cache[k].storedAt
  }

  ghost predicate LiveCached(st: State) {
    forall id: nat | id < |st.sems| && st.now < st.sems[id].created + SEMAPHORE_TTL ::
      st.sems[id].key in st.cache && st.cache[st.sems[id].key].value == id
  }

  ghost predicate Apart(st: State) {
    forall i: nat, j: nat | i < j < |st.sems| && st.sems[i].key == st.sems[j].key :: st.sems[i].created + SEMAPHORE_TTL <= st.sems[j].created
  }

  ghost predicate FetchedLive(st: State) {
    forall t | t in st.tasks && st.tasks[t].sem.Some? && st.tasks[t].sem.value < |st.sems| ::
      st.tasks[t].fetchedAt < st.sems[st.tasks[t].sem.value].created + SEMAPHORE_TTL
  }

  lemma HoldersChange(tasks: map<nat, Task>, t: nat, x: Task, id: nat)
    ensures GlobalHolders(tasks[t := x]) == GlobalHolders(tasks) - {t} + (if x.hasGlobal then {t} else {})
    ensures Holders(tasks[t := x], id) == Holders(tasks, id) - {t} + (if x.hasSem && x.sem == Some(id) then {t} else {})
    ensures GlobalHolders(tasks - {t}) == GlobalHolders(tasks) - {t}
    ensures Holders(tasks - {t}, id) == Holders(tasks, id) - {t}
  {
  }

  /** Generations keep their key and creation time; a step adds at most one. */
  lemma SemsGrow(st: State, limits: Limits, step: Step)
    requires Enabled(st, step)
    ensures var sems := NextSems(st, limits, step);
            && |st.sems| <= |sems| <= |st.sems| + 1
            && (|sems| > |st.sems| <==> Creates(st, limits, step))
            && (forall id: nat | id < |st.sems| :: sems[id].key == st.sems[id].key && sems[id].created == st.sems[id].created)
            && (Creates(st, limits, step) ==> sems[|st.sems|] == Sem(st.tasks[step.task].key, limits.perDeployment, st.now))
  {
  }

  lemma MovedOk(st: State, limits: Limits, step: Step)
    requires TasksOk(st, limits) && Generations(st) && Enabled(st, step) && !step.Tick? && !step.Leave?
    ensures TaskOk(Moved(st, limits, step), limits, NextSems(st, limits, step))
  {
    SemsGrow(st, limits, step);
    if !step.Arrive? { assert TaskOk(st.tasks[step.task], limits, st.sems); }
    hide NextSems;
  }

  lemma TasksOkStep(st: State, limits: Limits, step: Step)
    requires TasksOk(st, limits) && Generations(st) && Enabled(st, step)
    ensures TasksOk(Next(st, limits, step), limits)
  {
    SemsGrow(st, limits, step);
    if !step.Tick? && !step.Leave? { MovedOk(st, limits, step); }
    hide NextSems, Moved, Creates, Generations;
  }

  lemma FetchedSteady(st: State, limits: Limits, step: Step)
    requires TasksOk(st, limits) && Generations(st) && Enabled(st, step) && !Creates(st, limits, step)
    ensures FetchedLive(Next(st, limits, step))
  {
    SemsGrow(st, limits, step);
    var next := Next(st, limits, step);
    hide NextSems, Created, Apart, LiveCached;
    forall t | t in next.tasks && next.tasks[t].sem.Some? && next.tasks[t].sem.value < |next.sems|
      ensures next.tasks[t].fetchedAt < next.sems[next.tasks[t].sem.value].created + SEMAPHORE_TTL
    {
    }
  }

  /** What the passing of time and the bookkeeping of permits leave alone. */
  lemma GenerationsSteady(st: State, limits: Limits, step: Step)
    requires TasksOk(st, limits) && Generations(st) && Enabled(st, step) && !Creates(st, limits, step)
    ensures Generations(Next(st, limits, step))
  {
    SemsGrow(st, limits, step);
    FetchedSteady(st, limits, step);
    hide NextSems, NextTasks, TasksOk, Moved, FetchedLive, Cached;
  }

  lemma CreatedLater(st: State, t: nat)
    requires Generations(st) && t in st.tasks && Cached(st, t).None?
    ensures forall i: nat | i < |st.sems| && st.sems[i].key == st.tasks[t].key :: st.sems[i].created + SEMAPHORE_TTL <= st.now
  {
  }

  lemma CacheAfterCreate(st: State, limits: Limits, t: nat)
    requires Generations(st) && Enabled(st, Fetch(t)) && Creates(st, limits, Fetch(t))
    ensures var cache, key := NextCache(st, limits, Fetch(t)), st.tasks[t].key;
            && key in cache && cache[key] == Stamped(|st.sems|, st.now)
            && (forall k | k in cache && k != key :: k in st.cache && cache[k] == st.cache[k])
            && (forall k | k in st.cache && k != key && st.now < st.cache[k].storedAt + SEMAPHORE_TTL :: k in cache && cache[k] == st.cache[k])
  {
  }

  lemma CacheCreate(st: State, limits: Limits, t: nat)
    requires Generations(st) && Enabled(st, Fetch(t)) && Creates(st, limits, Fetch(t))
    ensures CacheNames(Next(st, limits, Fetch(t))) && LiveCached(Next(st, limits, Fetch(t)))
  {
    SemsGrow(st, limits, Fetch(t));
    CreatedLater(st, t);
    CacheAfterCreate(st, limits, t);
    hide NextSems, NextCache, NextTasks, Cached, Creates, Apart, FetchedLive;
  }

  lemma SemsCreate(st: State, limits: Limits, t: nat)
    requires Generations(st) && Enabled(st, Fetch(t)) && Creates(st, limits, Fetch(t))
    ensures Created(Next(st, limits, Fetch(t))) && Apart(Next(st, limits, Fetch(t)))
  {
    SemsGrow(st, limits, Fetch(t));
    CreatedLater(st, t);
    hide NextSems, NextCache, NextTasks, Cached, Creates, CacheNames, LiveCached, FetchedLive;
  }

  lemma FetchedCreate(st: State, limits: Limits, t: nat)
    requires TasksOk(st, limits) && Generations(st) && Enabled(st, Fetch(t)) && Creates(st, limits, Fetch(t))
    ensures FetchedLive(Next(st, limits, Fetch(t)))
  {
    SemsGrow(st, limits, Fetch(t));
    assert Moved(st, limits, Fetch(t)).fetchedAt == st.now && Moved(st, limits, Fetch(t)).sem == Some(|st.sems|);
    assert forall u | u in st.tasks && st.tasks[u].sem.Some? :: TaskOk(st.tasks[u], limits, st.sems);
    hide NextSems, NextCache, Cached, Creates, CacheNames, LiveCached, Apart, Moved;
  }

  lemma GenerationsCreate(st: State, limits: Limits, t: nat)
    requires TasksOk(st, limits) && Generations(st) && Enabled(st, Fetch(t)) && Creates(st, limits, Fetch(t))
    ensures Generations(Next(st, limits, Fetch(t)))
  {
    CacheCreate(st, limits, t);
    SemsCreate(st, limits, t);
    FetchedCreate(st, limits, t);
    hide Next, Created, Apart, CacheNames, LiveCached, FetchedLive, TasksOk, Creates;
  }

  lemma GlobalStep(st: State, limits: Limits, step: Step)
    requires TasksOk(st, limits) && Enabled(st, step) && limits.global > 0
    requires st.globalFree >= 0 && st.globalFree + |GlobalHolders(st.tasks)| == limits.global
    ensures NextGlobal(st, step) >= 0 && NextGlobal(st, step) + |GlobalHolders(NextTasks(st, limits, step))| == limits.global
  {
    if !step.Tick? {
      var t := step.task;
      HoldersChange(st.tasks, t, if step.Leave? then st.tasks[t] else Moved(st, limits, step), 0);
      assert t in GlobalHolders(st.tasks) <==> t in st.tasks && st.tasks[t].hasGlobal;
      hide GlobalHolders, Holders, Cached;
    }
  }

  lemma SemStep(st: State, limits: Limits, step: Step, id: nat)
    requires TasksOk(st, limits) && Enabled(st, step) && id < |st.sems|
    requires st.sems[id].free >= 0 && st.sems[id].free + |Holders(st.tasks, id)| == limits.perDeployment
    ensures var sems := NextSems(st, limits, step);
            |sems| >= |st.sems| && sems[id].free >= 0 && sems[id].free + |Holders(NextTasks(st, limits, step), id)| == limits.perDeployment
  {
    if !step.Tick? {
      var t := step.task;
      var held := t in st.tasks && st.tasks[t].hasSem && st.tasks[t].sem == Some(id);
      var holds := !step.Leave? && Moved(st, limits, step).hasSem && Moved(st, limits, step).sem == Some(id);
      HoldersChange(st.tasks, t, if step.Leave? then st.tasks[t] else Moved(st, limits, step), id);
      assert t in Holders(st.tasks, id) <==> held;
      assert t in st.tasks ==> TaskOk(st.tasks[t], limits, st.sems);
      hide GlobalHolders, Holders, Cached, TasksOk;
      assert NextSems(st, limits, step)[id].free == st.sems[id].free + (if held then 1 else 0) - (if holds then 1 else 0);
      hide NextSems, Moved;
    }
  }

  /** A generation that the step creates has all its permits. */
  lemma NewSem(st: State, limits: Limits, step: Step)
    requires TasksOk(st, limits) && Enabled(st, step) && Creates(st, limits, step)
    ensures Holders(NextTasks(st, limits, step), |st.sems|) == {}
  {
    HoldersChange(st.tasks, step.task, Moved(st, limits, step), |st.sems|);
    assert Holders(st.tasks, |st.sems|) == {};
  }

  lemma ConservedStep(st: State, limits: Limits, step: Step)
    requires TasksOk(st, limits) && Conserved(st, limits) && Enabled(st, step)
    ensures Conserved(Next(st, limits, step), limits)
  {
    SemsGrow(st, limits, step);
    if limits.global > 0 { GlobalStep(st, limits, step); }
    if Creates(st, limits, step) { NewSem(st, limits, step); }
    forall id: nat | id < |NextSems(st, limits, step)|
      ensures var sems := NextSems(st, limits, step);
              sems[id].free >= 0 && sems[id].free + |Holders(NextTasks(st, limits, step), id)| == limits.perDeployment
    {
      hide NextSems, NextTasks, Holders, GlobalHolders, TasksOk;
      if id < |st.sems| { SemStep(st, limits, step, id); }
    }
  }

  ghost predicate Inv(st: State, limits: Limits) {
    TasksOk(st, limits) && Generations(st) && Conserved(st, limits)
  }

  lemma {:induction false} RunInv(st: State, limits: Limits, steps: seq<Step>)
    requires Inv(st, limits) && ValidRun(st, limits, steps)
    ensures Inv(Run(st, limits, steps), limits)
    decreases |steps|
  {
    if steps != [] {
      TasksOkStep(st, limits, steps[0]);
      if Creates(st, limits, steps[0]) { GenerationsCreate(st, limits, steps[0].task); } else { GenerationsSteady(st, limits, steps[0]); }
      ConservedStep(st, limits, steps[0]);
      hide TasksOk, Generations, Conserved, Next;
      RunInv(Next(st, limits, steps[0]), limits, steps[1..]);
    }
  }

  lemma InitInv(limits: Limits)
    ensures Inv(Init(limits), limits)
  {
    assert GlobalHolders(map[]) == {};
  }

  /** Through timeouts, exceptions and cancellations, no permit is ever lost or made up: for the global semaphore and
      for every generation, free permits plus holders equals the limit. */
  lemma PermitsConserved(limits: Limits, steps: seq<Step>)
    requires ValidRun(Init(limits), limits, steps)
    ensures Conserved(Run(Init(limits), limits, steps), limits)
  {
    InitInv(limits);
    RunInv(Init(limits), limits, steps);
  }

  lemma OneStep(st: State, limits: Limits, step: Step)
    requires Enabled(st, step)
    ensures ValidRun(st, limits, [step]) && Run(st, limits, [step]) == Next(st, limits, step)
  {
    hide Enabled, Next;
    assert [step][1..] == [] && ValidRun(Next(st, limits, step), limits, []) && Run(Next(st, limits, step), limits, []) == Next(st, limits, step);
  }

  /** A request that needs its semaphore reaches its body when the current semaphore of its key has a free permit. */
  lemma FetchesAndEnters(st: State, limits: Limits, t: nat) returns (steps: seq<Step>)
    requires t in st.tasks && st.tasks[t].phase == NeedSemaphore
    requires var found := Cached(st, t);
             limits.perDeployment > 0 && found.Some? ==> found.value < |st.sems| && st.sems[found.value].free > 0
    ensures ValidRun(st, limits, steps) && t in Run(st, limits, steps).tasks && Run(st, limits, steps).tasks[t].phase == Body
  {
    var fetched := Next(st, limits, Fetch(t));
    if limits.perDeployment <= 0 {
      OneStep(st, limits, Fetch(t));
      steps := [Fetch(t)];
    } else {
      assert Enabled(fetched, TakeSemaphore(t));
      assert Next(fetched, limits, TakeSemaphore(t)).tasks[t].phase == Body;
      OneStep(fetched, limits, TakeSemaphore(t));
      hide Next, Enabled;
      StepThen(st, limits, Fetch(t), [TakeSemaphore(t)]);
      steps := [Fetch(t)] + [TakeSemaphore(t)];
    }
  }

  /** Room is never withheld: in every reachable state, a new request can reach its body when fewer requests than the global
      limit hold the global semaphore and fewer than the deployment's limit hold its current one, if there is one. */
  lemma RoomIsUsed(limits: Limits, before: seq<Step>, t: nat, key: string) returns (steps: seq<Step>)
    requires ValidRun(Init(limits), limits, before)
    requires var st := Run(Init(limits), limits, before);
             && t !in st.tasks && (limits.global > 0 ==> |GlobalHolders(st.tasks)| < limits.global)
             && var found := Get(st.cache, 300.0, key, st.now);
                limits.perDeployment > 0 && found.Some? ==> |Holders(st.tasks, found.value)| < limits.perDeployment
    ensures var st := Run(Init(limits), limits, before);
            ValidRun(st, limits, steps) && t in Run(st, limits, steps).tasks && Run(st, limits, steps).tasks[t].phase == Body
  {
    var st := Run(Init(limits), limits, before);
    InitInv(limits);
    RunInv(Init(limits), limits, before);
    assert Conserved(st, limits) && CacheNames(st);
    var came := Next(st, limits, Arrive(t, key));
    hide Run, ValidRun, Inv;
    if limits.global > 0 {
      var entered := Next(came, limits, TakeGlobal(t));
      assert Enabled(came, TakeGlobal(t)) && Cached(entered, t) == Get(st.cache, SEMAPHORE_TTL, key, st.now) && entered.sems == st.sems;
      hide Next, Enabled, GlobalHolders, Holders;
      steps := FetchesAndEnters(entered, limits, t);
      StepThen(came, limits, TakeGlobal(t), steps);
      steps := [TakeGlobal(t)] + steps;
    } else {
      assert Cached(came, t) == Get(st.cache, SEMAPHORE_TTL, key, st.now) && came.sems == st.sems;
      hide Next, Enabled, GlobalHolders, Holders;
      steps := FetchesAndEnters(came, limits, t);
    }
    assert Enabled(st, Arrive(t, key));
    StepThen(st, limits, Arrive(t, key), steps);
    steps := [Arrive(t, key)] + steps;
  }

  /** When every request has left, every permit is free again. */
  lemma AllLeft(limits: Limits, steps: seq<Step>)
    requires ValidRun(Init(limits), limits, steps) && Run(Init(limits), limits, steps).tasks == map[]
    ensures var st := Run(Init(limits), limits, steps);
            && (limits.global > 0 ==> st.globalFree == limits.global)
            && forall id: nat | id < |st.sems| :: st.sems[id].free == limits.perDeployment
  {
    PermitsConserved(limits, steps);
    var st := Run(Init(limits), limits, steps);
    assert GlobalHolders(st.tasks) == {};
    forall id: nat | id < |st.sems| ensures Holders(st.tasks, id) == {} {}
  }

  // ---------------------------------------------------------------------------------------
  // How many requests are in flight
  // ---------------------------------------------------------------------------------------

  /** Never more requests in flight than a positive global limit. */
  lemma GlobalBound(limits: Limits, steps: seq<Step>)
    requires limits.global > 0 && ValidRun(Init(limits), limits, steps)
    ensures |InBody(Run(Init(limits), limits, steps).tasks)| <= limits.global
  {
    InitInv(limits);
    RunInv(Init(limits), limits, steps);
    var st := Run(Init(limits), limits, steps);
    SubsetSize(InBody(st.tasks), GlobalHolders(st.tasks));
  }

  function InBodyFor(tasks: map<nat, Task>, key: string): set<nat> {
    set t | t in tasks && tasks[t].phase == Body && tasks[t].key == key
  }

  /** The generations of a deployment that some request still holds. */
  function HeldGenerations(st: State, key: string): set<nat> {
    set id: nat | id < |st.sems| && st.sems[id].key == key && Holders(st.tasks, id) != {}
  }

  function Part(owner: map<nat, nat>, id: nat): set<nat> {
    set t | t in owner && owner[t] == id
  }

  /** If everyone has one of `ids`, and no id more than `n` of them, there are at most `n` for each id. */
  function Times(n: nat, m: nat): nat {
    n * m
  }

  lemma {:induction false} PartsBound(owner: map<nat, nat>, ids: set<nat>, n: nat)
    requires forall t | t in owner :: owner[t] in ids
    requires forall id | id in ids :: |Part(owner, id)| <= n
    ensures |owner.Keys| <= Times(n, |ids|)
    decreases |ids|
  {
    hide Times, Part;
    if ids == {} {
      assert owner.Keys == {};
    } else {
      var id :| id in ids;
      var rest := WithoutPart(owner, ids, id);
      PartsBound(rest, ids - {id}, n);
      assert |ids| == |ids - {id}| + 1;
      OneMorePart(|owner.Keys|, |rest.Keys|, n, |ids - {id}|);
    }
  }

  lemma WithoutPart(owner: map<nat, nat>, ids: set<nat>, id: nat) returns (rest: map<nat, nat>)
    requires forall t | t in owner :: owner[t] in ids
    ensures |owner.Keys| == |rest.Keys| + |Part(owner, id)|
    ensures forall t | t in rest :: rest[t] in ids - {id}
    ensures forall other | other != id :: Part(rest, other) == Part(owner, other)
  {
    rest := owner - Part(owner, id);
    assert owner.Keys == rest.Keys + Part(owner, id);
    forall other | other != id ensures Part(rest, other) == Part(owner, other) {}
  }

  lemma OneMorePart(all: nat, rest: nat, n: nat, m: nat)
    requires all <= rest + n && rest <= Times(n, m)
    ensures all <= Times(n, m + 1)
  {
    assert n * (m + 1) == n * m + n;
  }

  /** In flight for a deployment: at most its limit for each semaphore generation that still has holders. */
  lemma DeploymentBound(limits: Limits, steps: seq<Step>, key: string)
    requires limits.perDeployment > 0 && ValidRun(Init(limits), limits, steps)
    ensures var st := Run(Init(limits), limits, steps);
            |InBodyFor(st.tasks, key)| <= limits.perDeployment * |HeldGenerations(st, key)|
  {
    InitInv(limits);
    RunInv(Init(limits), limits, steps);
    InFlightPerGeneration(Run(Init(limits), limits, steps), limits, key);
  }

  lemma InFlightPerGeneration(st: State, limits: Limits, key: string)
    requires Inv(st, limits) && limits.perDeployment > 0
    ensures |InBodyFor(st.tasks, key)| <= limits.perDeployment * |HeldGenerations(st, key)|
  {
    var ids := HeldGenerations(st, key);
    var owner := map t | t in InBodyFor(st.tasks, key) :: if st.tasks[t].sem.Some? then st.tasks[t].sem.value else 0;
    forall t | t in owner ensures t in Holders(st.tasks, owner[t]) && owner[t] in ids {
      assert t in Holders(st.tasks, owner[t]);
    }
    forall id | id in ids ensures |Part(owner, id)| <= limits.perDeployment {
      assert Part(owner, id) <= Holders(st.tasks, id);
      SubsetSize(Part(owner, id), Holders(st.tasks, id));
    }
    PartsBound(owner, ids, limits.perDeployment);
    assert owner.Keys == InBodyFor(st.tasks, key);
  }

  lemma NoThree(s: set<nat>)
    requires forall i, j, k | i in s && j in s && k in s :: !(i < j < k)
    ensures |s| <= 2
  {
    if |s| > 2 {
      var a :| a in s;
      assert |s - {a}| == |s| - 1;
      var b :| b in s - {a};
      assert |s - {a} - {b}| == |s| - 2;
      var c :| c in s - {a} - {b};
      var i, j, k := Sort3(a, b, c);
      assert false;
    }
  }

  lemma Sort3(a: nat, b: nat, c: nat) returns (i: nat, j: nat, k: nat)
    requires a != b && b != c && a != c
    ensures i < j < k && {i, j, k} == {a, b, c}
  {
    i, j, k := a, b, c;
    if j < i { i, j := j, i; }
    if k < j { j, k := k, j; }
    if j < i { i, j := j, i; }
  }

  /** Whoever still holds the last generation but two fetched it more than a cache lifetime ago. */
  lemma ThirdGenerationIsOld(st: State, limits: Limits, i: nat, j: nat, k: nat, t: nat)
    requires Inv(st, limits) && i < j < k < |st.sems| && st.sems[i].key == st.sems[j].key == st.sems[k].key
    requires t in Holders(st.tasks, i)
    ensures st.tasks[t].fetchedAt < st.now - SEMAPHORE_TTL
  {
  }

  lemma AtMostTwoGenerations(st: State, limits: Limits, key: string)
    requires Inv(st, limits)
    requires forall t | t in st.tasks && st.tasks[t].hasSem :: st.now - st.tasks[t].fetchedAt <= SEMAPHORE_TTL
    ensures |HeldGenerations(st, key)| <= 2
  {
    var held := HeldGenerations(st, key);
    forall i, j, k | i in held && j in held && k in held
      ensures !(i < j < k)
    {
      if i < j < k {
        var t :| t in Holders(st.tasks, i);
        hide Inv;
        ThirdGenerationIsOld(st, limits, i, j, k, t);
        assert false;
      }
    }
    NoThree(held);
  }

  /** If every request leaves within 300 s of fetching its semaphore, forgetting semaphores costs at most a factor of two:
      no more than twice the deployment's limit is ever in flight. */
  lemma ShortRequestsBound(limits: Limits, steps: seq<Step>, key: string)
    requires limits.perDeployment > 0 && ValidRun(Init(limits), limits, steps)
    requires var st := Run(Init(limits), limits, steps);
             forall t | t in st.tasks && st.tasks[t].hasSem :: st.now - st.tasks[t].fetchedAt <= 300.0
    ensures |InBodyFor(Run(Init(limits), limits, steps).tasks, key)| <= 2 * limits.perDeployment
  {
    InitInv(limits);
    RunInv(Init(limits), limits, steps);
    var st := Run(Init(limits), limits, steps);
    hide Inv, InBodyFor, HeldGenerations;
    AtMostTwoGenerations(st, limits, key);
    InFlightPerGeneration(st, limits, key);
    assert limits.perDeployment * |HeldGenerations(st, key)| <= 2 * limits.perDeployment;
  }
}
