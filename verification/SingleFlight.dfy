/**
 Single-flight fetching in the data plane's gateway client: concurrent callers of one key share one task, found
 through an in-flight map that a lock guards.  Callers are coroutines of one event loop, so a caller runs alone until
 it suspends; the steps below are the pieces of code between two interactions with the lock, the map or a task.
 Any caller can be cancelled wherever it is suspended, and a task can answer, raise or be cancelled.
 */
module SingleFlight {
  import opened Basics

  datatype Outcome<+O> = Value(value: O) | Raised | Cancelled

  datatype Status<+O> = Running(cancelRequested: bool) | Done(outcome: Outcome<O>)

  datatype Task<+K, +O> = Task(key: K, owner: nat, status: Status<O>)

  /** Where a caller is.  `Entering` and `Leaving` are the two lock bodies; `Finishing` is before the second one. */
  datatype Phase<+O> =
    | Arrived
    | Entering
    | Waiting(task: nat)
    | Finishing(task: nat, outcome: Outcome<O>)
    | Leaving(task: nat, outcome: Outcome<O>)
    | Returned(task: nat, outcome: Outcome<O>)
    | Abandoned
  {
    predicate HasTask() {
      Waiting? || Finishing? || Leaving? || Returned?
    }

    predicate HasOutcome() {
      Finishing? || Leaving? || Returned?
    }

    predicate HoldsLock() {
      Entering? || Leaving?
    }
  }

  /** `cancelled` says that the caller itself was cancelled after its task had finished. */
  datatype Caller<+K, +O> = Caller(key: K, phase: Phase<O>, cancelled: bool)

  /** Tasks are numbered in the order of their creation.  `running` is the caller the event loop is executing. */
  datatype State<K, +O> = State(inflight: map<K, nat>, tasks: seq<Task<K, O>>, callers: map<nat, Caller<K, O>>,
                                lock: Option<nat>, running: Option<nat>)

  datatype Step<+K, +O> =
    | Arrive(caller: nat, key: K)
    | Wake(caller: nat)
    | Acquire(caller: nat)
    | Critical(caller: nat)
    | Resume(caller: nat)
    | Complete(task: nat, outcome: Outcome<O>)
    | Cancel(caller: nat)

  function Init<K, O>(): State<K, O> {
    State(map[], [], map[], None, None)
  }

  // ---------------------------------------------------------------------------------------
  // The two lock bodies
  // ---------------------------------------------------------------------------------------

  /** The fetch a caller of `key` waits for, `next` being the number a new task would get. */
  function Joined<K>(inflight: map<K, nat>, key: K, next: nat): nat {
    if key in inflight then inflight[key] else next
  }

  function Registered<K>(inflight: map<K, nat>, key: K, next: nat): map<K, nat> {
    inflight[key := Joined(inflight, key, next)]
  }

  /** The owner's cleanup: the entry goes only if it is still the owner's own task. */
  function Popped<K>(inflight: map<K, nat>, key: K, task: nat): map<K, nat> {
    if key in inflight && inflight[key] == task then inflight - {key} else inflight
  }

  // ---------------------------------------------------------------------------------------
  // Steps
  // ---------------------------------------------------------------------------------------

  predicate DoneTask<K, O>(st: State<K, O>, t: nat) {
    t < |st.tasks| && st.tasks[t].status.Done?
  }

  ghost predicate Enabled<K, O>(st: State<K, O>, step: Step<K, O>) {
    match step
    case Arrive(c, _) => st.running.None? && c !in st.callers
    case Wake(c) =>
      && st.running.None? && c in st.callers
      && var p := st.callers[c].phase;
         ((p.Arrived? || p.Finishing?) && st.lock.None?) || (p.Waiting? && DoneTask(st, p.task))
    case Acquire(c) =>
      st.running == Some(c) && c in st.callers && (st.callers[c].phase.Arrived? || st.callers[c].phase.Finishing?)
    case Critical(c) => st.running == Some(c) && c in st.callers && st.callers[c].phase.HoldsLock()
    case Resume(c) =>
      st.running == Some(c) && c in st.callers && st.callers[c].phase.Waiting? && DoneTask(st, st.callers[c].phase.task)
    case Complete(t, outcome) =>
      && st.running.None? && t < |st.tasks| && st.tasks[t].status.Running?
      && (st.tasks[t].status.cancelRequested ==> outcome.Cancelled?)
    case Cancel(c) =>
      && st.running.None? && c in st.callers
      && (st.callers[c].phase.Arrived? || st.callers[c].phase.Waiting? || st.callers[c].phase.Finishing?)
  }

  /** What the acting caller becomes. */
  function Moved<K, O>(st: State<K, O>, step: Step<K, O>): Caller<K, O>
    requires Enabled(st, step) && !step.Complete?
  {
    if step.Arrive? then Caller(step.key, Arrived, false)
    else
      var caller := st.callers[step.caller];
      match step
      case Acquire(_) =>
        if st.lock.Some? then caller
        else if caller.phase.Arrived? then caller.(phase := Entering)
        else caller.(phase := Leaving(caller.phase.task, caller.phase.outcome))
      case Critical(_) =>
        if caller.phase.Entering? then caller.(phase := Waiting(Joined(st.inflight, caller.key, |st.tasks|)))
        else caller.(phase := Returned(caller.phase.task, caller.phase.outcome))
      case Resume(c) =>
        var t := caller.phase.task;
        var outcome := if caller.cancelled then Cancelled else st.tasks[t].status.outcome;
        caller.(phase := if st.tasks[t].owner == c then Finishing(t, outcome) else Returned(t, outcome))
      case Cancel(_) =>
        (match caller.phase
         case Waiting(t) => if DoneTask(st, t) then caller.(cancelled := true) else caller
         case Finishing(t, _) => caller.(phase := Returned(t, Cancelled), cancelled := true)
         case _ => caller.(phase := Abandoned))
      case _ => caller
  }

  function NextInflight<K, O>(st: State<K, O>, step: Step<K, O>): map<K, nat>
    requires Enabled(st, step)
  {
    if !step.Critical? then st.inflight
    else
      var caller := st.callers[step.caller];
      if caller.phase.Entering? then Registered(st.inflight, caller.key, |st.tasks|)
      else Popped(st.inflight, caller.key, caller.phase.task)
  }

  /** Cancelling a caller that awaits a running task cancels the fetch: it is not shielded. */
  function NextTasks<K, O>(st: State<K, O>, step: Step<K, O>): seq<Task<K, O>>
    requires Enabled(st, step)
  {
    match step
    case Complete(t, outcome) => st.tasks[t := st.tasks[t].(status := Done(outcome))]
    case Critical(c) =>
      if st.callers[c].phase.Entering? && st.callers[c].key !in st.inflight
      then st.tasks + [Task(st.callers[c].key, c, Running(false))]
      else st.tasks
    case Cancel(c) =>
      var p := st.callers[c].phase;
      if p.Waiting? && p.task < |st.tasks| && st.tasks[p.task].status.Running?
      then st.tasks[p.task := st.tasks[p.task].(status := Running(true))]
      else st.tasks
    case _ => st.tasks
  }

  function NextLock<K, O>(st: State<K, O>, step: Step<K, O>): Option<nat> {
    match step
    case Acquire(c) => if st.lock.None? then Some(c) else st.lock
    case Critical(_) => None
    case _ => st.lock
  }

  /** A caller gives up control when it waits for the lock, awaits a task that is not done, or returns. */
  function NextRunning<K, O>(st: State<K, O>, step: Step<K, O>): Option<nat>
    requires Enabled(st, step)
  {
    match step
    case Arrive(c, _) => Some(c)
    case Wake(c) => Some(c)
    case Acquire(c) => if st.lock.None? then Some(c) else None
    case Critical(c) =>
      if st.callers[c].phase.Entering? && DoneTask(st, Joined(st.inflight, st.callers[c].key, |st.tasks|)) then Some(c) else None
    case Resume(c) => if Moved(st, step).phase.Finishing? then Some(c) else None
    case _ => None
  }

  function Next<K, O>(st: State<K, O>, step: Step<K, O>): State<K, O>
    requires Enabled(st, step)
  {
    State(NextInflight(st, step), NextTasks(st, step),
          if step.Complete? then st.callers else st.callers[step.caller := Moved(st, step)],
          NextLock(st, step), NextRunning(st, step))
  }

  ghost predicate ValidRun<K, O>(st: State<K, O>, steps: seq<Step<K, O>>)
    decreases |steps|
  {
    steps != [] ==> Enabled(st, steps[0]) && ValidRun(Next(st, steps[0]), steps[1..])
  }

  ghost function Run<K, O>(st: State<K, O>, steps: seq<Step<K, O>>): State<K, O>
    requires ValidRun(st, steps)
    decreases |steps|
  {
    if steps == [] then st else Run(Next(st, steps[0]), steps[1..])
  }

  // ---------------------------------------------------------------------------------------
  // What every step keeps
  // ---------------------------------------------------------------------------------------

  /** The lock is held only by the running caller, inside one of the two lock bodies; no suspended caller wants it. */
  ghost predicate LockInv<K, O>(st: State<K, O>) {
    && (st.lock.Some? ==> st.running == st.lock)
    && (forall c | c in st.callers :: st.callers[c].phase.HoldsLock() <==> st.lock == Some(c))
    && (forall c | c in st.callers && (st.callers[c].phase.Arrived? || st.callers[c].phase.Finishing?) :: st.running == Some(c))
  }

  /** Every task belongs to its owner for good, and a running task is the one the map names. */
  ghost predicate TaskInv<K, O>(st: State<K, O>) {
    forall t: nat | t < |st.tasks| ::
      var task := st.tasks[t];
      && task.owner in st.callers && st.callers[task.owner].key == task.key
      && st.callers[task.owner].phase.HasTask() && st.callers[task.owner].phase.task == t
      && (task.status.Running? ==> task.key in st.inflight && st.inflight[task.key] == t)
  }

  /** The map names tasks of its own keys whose owners have not cleaned up. */
  ghost predicate MapInv<K, O>(st: State<K, O>) {
    forall k | k in st.inflight ::
      var t := st.inflight[k];
      && t < |st.tasks| && st.tasks[t].key == k
      && st.tasks[t].owner in st.callers && !st.callers[st.tasks[t].owner].phase.Returned?
  }

  ghost predicate CallerOk<K, O>(c: nat, caller: Caller<K, O>, tasks: seq<Task<K, O>>) {
    && (caller.phase.HasTask() ==> caller.phase.task < |tasks| && tasks[caller.phase.task].key == caller.key)
    && (caller.phase.Finishing? || caller.phase.Leaving? ==> tasks[caller.phase.task].owner == c)
    && (caller.phase.HasOutcome() ==>
          && tasks[caller.phase.task].status.Done?
          && caller.phase.outcome == if caller.cancelled then Cancelled else tasks[caller.phase.task].status.outcome)
  }

  ghost predicate CallerInv<K, O>(st: State<K, O>) {
    forall c | c in st.callers :: CallerOk(c, st.callers[c], st.tasks)
  }

  ghost predicate Inv<K, O>(st: State<K, O>) {
    LockInv(st) && TaskInv(st) && MapInv(st) && CallerInv(st)
  }

  /** Tasks are never lost, keep their key and owner, and keep their outcome once done. */
  ghost predicate Extends<K, O>(tasks: seq<Task<K, O>>, later: seq<Task<K, O>>) {
    && |tasks| <= |later|
    && (forall t: nat | t < |tasks| ::
          && later[t].key == tasks[t].key && later[t].owner == tasks[t].owner
          && (tasks[t].status.Done? ==> later[t].status == tasks[t].status))
  }

  lemma TasksExtend<K, O>(st: State<K, O>, step: Step<K, O>)
    requires Enabled(st, step)
    ensures Extends(st.tasks, NextTasks(st, step))
  {
  }

  lemma LockStep<K, O>(st: State<K, O>, step: Step<K, O>)
    requires LockInv(st) && Enabled(st, step)
    ensures LockInv(Next(st, step))
  {
    hide Joined, Registered, Popped, NextTasks, NextInflight;
  }

  lemma CallerStep<K, O>(st: State<K, O>, step: Step<K, O>)
    requires LockInv(st) && CallerInv(st) && MapInv(st) && Enabled(st, step)
    ensures CallerInv(Next(st, step))
  {
    TasksExtend(st, step);
    var next := Next(st, step);
    forall c | c in next.callers
      ensures CallerOk(c, next.callers[c], next.tasks)
    {
      if c in st.callers { assert CallerOk(c, st.callers[c], st.tasks); }
      if !step.Complete? && step.caller == c {
        MovedOk(st, step);
      }
      hide Moved, NextTasks, NextInflight, NextRunning, NextLock, MapInv, CallerInv, LockInv;
    }
  }

  lemma MovedOk<K, O>(st: State<K, O>, step: Step<K, O>)
    requires LockInv(st) && CallerInv(st) && MapInv(st) && Enabled(st, step) && !step.Complete?
    ensures CallerOk(step.caller, Moved(st, step), NextTasks(st, step))
  {
    TasksExtend(st, step);
    if !step.Arrive? {
      assert CallerOk(step.caller, st.callers[step.caller], st.tasks);
    }
    if step.Critical? {
      assert st.callers[step.caller].phase.Entering? ==> Moved(st, step).phase.task < |NextTasks(st, step)|;
    }
    hide CallerInv;
  }

  lemma TaskStep<K, O>(st: State<K, O>, step: Step<K, O>)
    requires Inv(st) && Enabled(st, step)
    ensures TaskInv(Next(st, step))
  {
    TasksExtend(st, step);
    var next := Next(st, step);
    forall t: nat | t < |next.tasks|
      ensures var task := next.tasks[t];
              && task.owner in next.callers && next.callers[task.owner].key == task.key
              && next.callers[task.owner].phase.HasTask() && next.callers[task.owner].phase.task == t
              && (task.status.Running? ==> task.key in next.inflight && next.inflight[task.key] == t)
    {
      if t < |st.tasks| {
        OwnerKeeps(st, step, t);
        if next.tasks[t].status.Running? { RunningStays(st, step, t); }
      }
    }
  }

  /** The owner of a task stays attached to it. */
  lemma OwnerKeeps<K, O>(st: State<K, O>, step: Step<K, O>, t: nat)
    requires Inv(st) && Enabled(st, step) && t < |st.tasks|
    ensures var owner := st.tasks[t].owner;
            && owner in Next(st, step).callers && Next(st, step).callers[owner].key == st.tasks[t].key
            && Next(st, step).callers[owner].phase.HasTask() && Next(st, step).callers[owner].phase.task == t
  {
    hide NextTasks, NextInflight, NextRunning, NextLock, MapInv, Joined;
  }

  /** A task that is still running keeps its entry: nobody else can pop it. */
  lemma RunningStays<K, O>(st: State<K, O>, step: Step<K, O>, t: nat)
    requires Inv(st) && Enabled(st, step) && t < |st.tasks| && NextTasks(st, step)[t].status.Running?
    ensures var inflight := NextInflight(st, step); st.tasks[t].key in inflight && inflight[st.tasks[t].key] == t
  {
    assert st.tasks[t].status.Running?;
    if step.Critical? { assert CallerOk(step.caller, st.callers[step.caller], st.tasks); }
    hide CallerInv, LockInv;
  }

  lemma MapStep<K, O>(st: State<K, O>, step: Step<K, O>)
    requires Inv(st) && Enabled(st, step)
    ensures MapInv(Next(st, step))
  {
    TasksExtend(st, step);
    var next := Next(st, step);
    forall k | k in next.inflight
      ensures var t := next.inflight[k];
              && t < |next.tasks| && next.tasks[t].key == k
              && next.tasks[t].owner in next.callers && !next.callers[next.tasks[t].owner].phase.Returned?
    {
      var t := next.inflight[k];
      if k in st.inflight && st.inflight[k] == t {
        StillUnclean(st, step, k);
      }
    }
  }

  /** An owner returns only through its cleanup, which takes its own entry away. */
  lemma StillUnclean<K, O>(st: State<K, O>, step: Step<K, O>, k: K)
    requires Inv(st) && Enabled(st, step) && k in st.inflight && k in NextInflight(st, step)
    requires NextInflight(st, step)[k] == st.inflight[k]
    ensures !Next(st, step).callers[st.tasks[st.inflight[k]].owner].phase.Returned?
  {
    var owner := st.tasks[st.inflight[k]].owner;
    if !step.Complete? && step.caller == owner {
      assert CallerOk(owner, st.callers[owner], st.tasks);
    }
    hide NextTasks, NextRunning, NextLock, CallerInv;
  }

  lemma InvStep<K, O>(st: State<K, O>, step: Step<K, O>)
    requires Inv(st) && Enabled(st, step)
    ensures Inv(Next(st, step))
  {
    LockStep(st, step);
    TaskStep(st, step);
    MapStep(st, step);
    CallerStep(st, step);
    hide LockInv, TaskInv, MapInv, CallerInv, Next;
  }

  lemma {:induction false} RunInv<K, O>(st: State<K, O>, steps: seq<Step<K, O>>)
    requires Inv(st) && ValidRun(st, steps)
    ensures Inv(Run(st, steps)) && Extends(st.tasks, Run(st, steps).tasks)
    decreases |steps|
  {
    hide Inv, Next, Enabled;
    if steps != [] {
      InvStep(st, steps[0]);
      NextExtends(st, steps[0]);
      RunInv(Next(st, steps[0]), steps[1..]);
    }
  }

  lemma NextExtends<K, O>(st: State<K, O>, step: Step<K, O>)
    requires Enabled(st, step)
    ensures Extends(st.tasks, Next(st, step).tasks)
  {
    TasksExtend(st, step);
  }

  // ---------------------------------------------------------------------------------------
  // Results over every schedule
  // ---------------------------------------------------------------------------------------

  /** At most one fetch of a key is running, whatever the schedule. */
  lemma AtMostOneFetch<K, O>(steps: seq<Step<K, O>>, t: nat, u: nat)
    requires ValidRun(Init(), steps)
    requires var st := Run(Init(), steps);
             t < |st.tasks| && u < |st.tasks| && st.tasks[t].status.Running? && st.tasks[u].status.Running? && st.tasks[t].key == st.tasks[u].key
    ensures t == u
  {
    RunInv(Init(), steps);
  }

  /** Whenever no caller is running, the lock is free and nobody wants it, so the cleanup never suspends and cannot
      be cancelled. */
  lemma LockFreeAtSuspension<K, O>(steps: seq<Step<K, O>>, c: nat)
    requires ValidRun(Init(), steps)
    requires Run(Init(), steps).running.None? && c in Run(Init(), steps).callers
    ensures var st := Run(Init(), steps);
            && st.lock.None?
            && (st.callers[c].phase.Waiting? || st.callers[c].phase.Returned? || st.callers[c].phase.Abandoned?)
  {
    RunInv(Init(), steps);
  }

  /** Every caller that returned got the outcome of one task of its key, final from then on, or, when it was itself
      cancelled after that task had finished, its own cancellation. */
  lemma ReturnedOutcome<K, O>(steps: seq<Step<K, O>>, more: seq<Step<K, O>>, c: nat)
    requires ValidRun(Init(), steps) && ValidRun(Run(Init(), steps), more)
    requires var st := Run(Init(), steps); c in st.callers && st.callers[c].phase.Returned?
    ensures var caller, later := Run(Init(), steps).callers[c], Run(Run(Init(), steps), more);
            && caller.phase.task < |later.tasks| && later.tasks[caller.phase.task].key == caller.key
            && later.tasks[caller.phase.task].status.Done?
            && caller.phase.outcome == if caller.cancelled then Cancelled else later.tasks[caller.phase.task].status.outcome
  {
    RunInv(Init(), steps);
    var st := Run(Init(), steps);
    assert CallerOk(c, st.callers[c], st.tasks);
    RunInv(st, more);
  }

  /** The only step that takes an entry away is the cleanup of the fetch's owner, after the fetch has finished. */
  lemma RemovedByOwner<K, O>(steps: seq<Step<K, O>>, step: Step<K, O>, k: K)
    requires ValidRun(Init(), steps) && Enabled(Run(Init(), steps), step)
    requires var st := Run(Init(), steps);
             k in st.inflight && !(k in Next(st, step).inflight && Next(st, step).inflight[k] == st.inflight[k])
    ensures var st := Run(Init(), steps);
            && st.inflight[k] < |st.tasks| && st.tasks[st.inflight[k]].status.Done?
            && step == Critical(st.tasks[st.inflight[k]].owner)
            && Next(st, step).inflight == st.inflight - {k}
            && Next(st, step).callers[step.caller].phase.Returned?
  {
    RunInv(Init(), steps);
    var st := Run(Init(), steps);
    assert step.Critical?;
    assert CallerOk(step.caller, st.callers[step.caller], st.tasks);
  }

  /** No finished task stays in the map once its owner has resumed. */
  lemma NoStaleEntry<K, O>(steps: seq<Step<K, O>>, k: K)
    requires ValidRun(Init(), steps)
    requires var st := Run(Init(), steps); st.running.None? && k in st.inflight
    ensures var st := Run(Init(), steps);
            && st.inflight[k] < |st.tasks|
            && var owner := st.tasks[st.inflight[k]].owner;
               owner in st.callers && st.callers[owner].key == k && st.callers[owner].phase == Waiting(st.inflight[k])
  {
    RunInv(Init(), steps);
    var st := Run(Init(), steps);
    var owner := st.tasks[st.inflight[k]].owner;
    LockFreeAtSuspension(steps, owner);
  }

  /** Once every caller has returned or given up, the map is empty and no task is running. */
  lemma NothingLeft<K, O>(steps: seq<Step<K, O>>)
    requires ValidRun(Init(), steps)
    requires var st := Run(Init(), steps);
             forall c | c in st.callers :: st.callers[c].phase.Returned? || st.callers[c].phase.Abandoned?
    ensures Run(Init(), steps).inflight == map[]
    ensures forall t: nat | t < |Run(Init(), steps).tasks| :: Run(Init(), steps).tasks[t].status.Done?
  {
    RunInv(Init(), steps);
  }

  /** Cancelling one caller of a running task cancels everyone who waits for it: whoever of them returns, returns
      cancelled. */
  lemma CancellationSpreads<K, O>(steps: seq<Step<K, O>>, c: nat, more: seq<Step<K, O>>, other: nat)
    requires ValidRun(Init(), steps) && Enabled(Run(Init(), steps), Cancel(c))
    requires var st := Run(Init(), steps);
             st.callers[c].phase.Waiting? && st.callers[c].phase.task < |st.tasks| && st.tasks[st.callers[c].phase.task].status.Running?
    requires ValidRun(Next(Run(Init(), steps), Cancel(c)), more)
    requires var st, end := Run(Init(), steps), Run(Next(Run(Init(), steps), Cancel(c)), more);
             other in end.callers && end.callers[other].phase.Returned? && end.callers[other].phase.task == st.callers[c].phase.task
    ensures Run(Next(Run(Init(), steps), Cancel(c)), more).callers[other].phase.outcome.Cancelled?
  {
    RunInv(Init(), steps);
    var st := Run(Init(), steps);
    var next := Next(st, Cancel(c));
    assert Doomed(next, st.callers[c].phase.task);
    InvStep(st, Cancel(c));
    hide LockInv, TaskInv, MapInv, Run, ValidRun, Next, Enabled;
    CancelledTaskStays(next, more, st.callers[c].phase.task);
    var end := Run(next, more);
    assert CallerOk(other, end.callers[other], end.tasks);
  }

  ghost predicate Doomed<K, O>(st: State<K, O>, t: nat) {
    t < |st.tasks| && (st.tasks[t].status == Running(true) || st.tasks[t].status == Done(Cancelled))
  }

  lemma DoomedStep<K, O>(st: State<K, O>, step: Step<K, O>, t: nat)
    requires Enabled(st, step) && Doomed(st, t)
    ensures Doomed(Next(st, step), t)
  {
    hide NextInflight, NextRunning, NextLock, Moved;
  }

  lemma {:induction false} CancelledTaskStays<K, O>(st: State<K, O>, steps: seq<Step<K, O>>, t: nat)
    requires Inv(st) && ValidRun(st, steps) && Doomed(st, t)
    ensures Inv(Run(st, steps)) && Doomed(Run(st, steps), t)
    decreases |steps|
  {
    if steps != [] {
      hide Inv, Next, Enabled, Doomed;
      InvStep(st, steps[0]);
      DoomedStep(st, steps[0], t);
      CancelledTaskStays(Next(st, steps[0]), steps[1..], t);
    }
  }

  // ---------------------------------------------------------------------------------------
  // Every caller can finish
  // ---------------------------------------------------------------------------------------

  lemma StepThen<K, O>(st: State<K, O>, step: Step<K, O>, rest: seq<Step<K, O>>)
    requires Enabled(st, step) && ValidRun(Next(st, step), rest)
    ensures ValidRun(st, [step] + rest) && Run(st, [step] + rest) == Run(Next(st, step), rest)
  {
    hide Enabled, Next;
    assert ([step] + rest)[0] == step && ([step] + rest)[1..] == rest;
  }

  lemma OneStep<K, O>(st: State<K, O>, step: Step<K, O>)
    requires Enabled(st, step)
    ensures ValidRun(st, [step]) && Run(st, [step]) == Next(st, step)
  {
    hide Enabled, Next;
    assert [step][1..] == [] && ValidRun(Next(st, step), []) && Run(Next(st, step), []) == Next(st, step);
  }

  /** The cleanup of an owner whose task is done, once it runs. */
  lemma OwnerLeaves<K, O>(st: State<K, O>, c: nat, t: nat, outcome: Outcome<O>)
    requires st.running == Some(c) && st.lock.None? && c in st.callers && st.callers[c].phase == Finishing(t, outcome)
    ensures var steps := [Acquire(c)] + [Critical(c)];
            ValidRun(st, steps) && c in Run(st, steps).callers && Run(st, steps).callers[c].phase == Returned(t, outcome)
  {
    var held := Next(st, Acquire(c));
    assert held.callers[c].phase == Leaving(t, outcome) && held.running == Some(c);
    OneStep(held, Critical(c));
    assert Next(held, Critical(c)).callers[c].phase == Returned(t, outcome);
    hide Next, Enabled;
    StepThen(st, Acquire(c), [Critical(c)]);
  }

  /** A waiting caller whose task is done can return, with the task's outcome or its own cancellation. */
  lemma DoneReturns<K, O>(st: State<K, O>, c: nat) returns (steps: seq<Step<K, O>>)
    requires st.running.None? && st.lock.None? && c in st.callers && st.callers[c].phase.Waiting? && DoneTask(st, st.callers[c].phase.task)
    ensures ValidRun(st, steps) && c in Run(st, steps).callers
    ensures var t := st.callers[c].phase.task;
            Run(st, steps).callers[c].phase == Returned(t, if st.callers[c].cancelled then Cancelled else st.tasks[t].status.outcome)
  {
    var t := st.callers[c].phase.task;
    var outcome := if st.callers[c].cancelled then Cancelled else st.tasks[t].status.outcome;
    var awake := Next(st, Wake(c));
    assert awake == st.(running := Some(c));
    var resumed := Next(awake, Resume(c));
    assert resumed.lock.None?;
    if st.tasks[t].owner == c {
      assert resumed.callers[c].phase == Finishing(t, outcome) && resumed.running == Some(c);
      OwnerLeaves(resumed, c, t, outcome);
      hide Next, Enabled;
      steps := [Acquire(c)] + [Critical(c)];
      StepThen(awake, Resume(c), steps);
      steps := [Resume(c)] + steps;
    } else {
      assert resumed.callers[c].phase == Returned(t, outcome);
      hide Next, Enabled;
      OneStep(awake, Resume(c));
      steps := [Resume(c)];
    }
    hide Next, Enabled;
    StepThen(st, Wake(c), steps);
    steps := [Wake(c)] + steps;
  }

  /** Nobody waits for ever: from every reachable state in which no caller runs, a waiting caller can return as soon as its
      fetch ends, and it returns whatever the fetch ended with. */
  lemma CallerCanReturn<K, O>(before: seq<Step<K, O>>, c: nat, outcome: Outcome<O>) returns (steps: seq<Step<K, O>>)
    requires ValidRun(Init(), before)
    requires var st := Run(Init(), before);
             && st.running.None? && c in st.callers && st.callers[c].phase.Waiting? && st.callers[c].phase.task < |st.tasks|
             && st.tasks[st.callers[c].phase.task].status == Running(false)
    ensures var st := Run(Init(), before);
            && ValidRun(st, steps) && c in Run(st, steps).callers
            && Run(st, steps).callers[c].phase == Returned(st.callers[c].phase.task, if st.callers[c].cancelled then Cancelled else outcome)
  {
    var st := Run(Init(), before);
    var t := st.callers[c].phase.task;
    RunInv(Init(), before);
    assert st.lock.None?;
    hide Run, ValidRun, Inv;
    var ended := Next(st, Complete(t, outcome));
    assert ended.running.None? && ended.lock.None? && ended.callers == st.callers && ended.tasks[t].status == Done(outcome);
    assert Enabled(st, Complete(t, outcome));
    hide Next, Enabled;
    steps := DoneReturns(ended, c);
    StepThen(st, Complete(t, outcome), steps);
    steps := [Complete(t, outcome)] + steps;
  }
}
