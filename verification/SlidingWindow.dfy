/**
 The distributed sliding window kept in a Redis sorted set: `RedisTokenBucketLimiter.check_limit` on the
 data plane and `RedisRateLimiter.is_allowed` on the gateway.  A worker runs one atomic pipeline
 (purge, optimistic add, count, expire) and, when over the limit, a separate `zrem` that other
 workers' commands may precede.  Members are timestamps, so a member is its own score.
 */
module SlidingWindow {
  import opened Basics

  const WINDOW := 60.0

  /** A sorted set and the moment Redis drops the whole key. */
  datatype ZSet = ZSet(scores: set<real>, expiresAt: real)

  const EMPTY := ZSet({}, 0.0)

  function Visible(z: ZSet, now: real): set<real> {
    if now < z.expiresAt then z.scores else {}
  }

  /** The set after zremrangebyscore(0, now - 60). */
  function Purged(z: ZSet, now: real): set<real> {
    set x | x in Visible(z, now) && !(0.0 <= x <= now - WINDOW)
  }

  /** The whole pipeline: purge, add, and renew the expiry. */
  function Reserve(z: ZSet, now: real): ZSet {
    ZSet(Purged(z, now) + {now}, now + WINDOW * 2.0)
  }

  function Count(z: ZSet, now: real): nat {
    |Reserve(z, now).scores|
  }

  function Zrem(z: ZSet, member: real): ZSet {
    z.(scores := z.scores - {member})
  }

  class Redis {
    var sets: map<string, ZSet>

    constructor ()
      ensures sets == map[]
    {
      sets := map[];
    }

    function Of(key: string): ZSet
      reads this
    {
      if key in sets then sets[key] else EMPTY
    }

    method ReservePipeline(key: string, now: real) returns (count: nat)
      modifies this
      ensures sets == old(sets)[key := Reserve(old(Of(key)), now)]
      ensures count == Count(old(Of(key)), now)
    {
      var z := Of(key);
      var kept := Purged(z, now);
      kept := kept + {now};
      sets := sets[key := ZSet(kept, now + WINDOW * 2.0)];
      count := |kept|;
    }

    method Remove(key: string, member: real)
      modifies this
      ensures sets == old(sets)[key := Zrem(old(Of(key)), member)]
    {
      sets := sets[key := Zrem(Of(key), member)];
    }
  }

  /** One worker that nobody interleaves with.  A denied call leaves only the purge behind. */
  method CheckLimit(redis: Redis, key: string, rpm: int, now: real) returns (allowed: bool, wait: real)
    modifies redis
    ensures rpm <= 0 ==> allowed && wait == 0.0 && redis.sets == old(redis.sets)
    ensures rpm > 0 ==>
              && (allowed <==> |Purged(old(redis.Of(key)), now) + {now}| <= rpm)
              && redis.Of(key).scores == (if allowed then Purged(old(redis.Of(key)), now) + {now} else Purged(old(redis.Of(key)), now) - {now})
              && wait == (if allowed then 0.0 else 60.0 / rpm as real)
    ensures forall k | k != key :: redis.Of(k) == old(redis.Of(k))
  {
    if rpm <= 0 {
      return true, 0.0;
    }
    var count := redis.ReservePipeline(key, now);
    if count <= rpm {
      return true, 0.0;
    }
    redis.Remove(key, now);
    return false, WINDOW / rpm as real;
  }

  // ---------------------------------------------------------------------------------------
  // Many workers
  // ---------------------------------------------------------------------------------------

  /** The shared set; the requests that were admitted or denied, each with its timestamp, without the denied ones whose
      `zrem` has run; which of them are denied; the latest pipeline, how many ran at that instant, and the most that
      ever ran at one instant. */
  datatype State = State(z: ZSet, stamps: map<nat, real>, pending: set<nat>, last: real, atLast: nat, busiest: nat)

  datatype Step =
    | Request(id: nat, now: real, rpm: int)
    | Undo(id: nat)

  const INIT := State(EMPTY, map[], {}, 0.0, 0, 0)

  /** Pipelines run in the order of their timestamps; an undo only follows its own denial. */
  ghost predicate Enabled(st: State, step: Step) {
    match step
    case Request(id, now, _) => 0.0 < now && st.last <= now && id !in st.stamps
    case Undo(id) => id in st.pending && id in st.stamps
  }

  function AtInstant(st: State, now: real): nat {
    if now == st.last then st.atLast + 1 else 1
  }

  function Max(a: nat, b: nat): nat {
    if a >= b then a else b
  }

  function Requested(st: State, id: nat, now: real, rpm: int): State {
    State(Reserve(st.z, now), st.stamps[id := now], if Count(st.z, now) <= rpm then st.pending else st.pending + {id},
          now, AtInstant(st, now), Max(AtInstant(st, now), st.busiest))
  }

  function Next(st: State, step: Step): State
    requires Enabled(st, step)
  {
    match step
    case Request(id, now, rpm) => Requested(st, id, now, rpm)
    case Undo(id) => st.(z := Zrem(st.z, st.stamps[id]), stamps := st.stamps - {id}, pending := st.pending - {id})
  }

  ghost predicate ValidRun(st: State, steps: seq<Step>)
    decreases |steps|
  {
    steps != [] ==> Enabled(st, steps[0]) && ValidRun(Next(st, steps[0]), steps[1..])
  }

  ghost function Run(st: State, steps: seq<Step>): State
    requires ValidRun(st, steps)
    decreases |steps|
  {
    if steps == [] then st else Run(Next(st, steps[0]), steps[1..])
  }

  /** The requests stamped within the last 60 s. */
  function Recent(stamps: map<nat, real>, now: real): set<nat> {
    set id | id in stamps && now - 60.0 < stamps[id]
  }

  function StampsOf(stamps: map<nat, real>, ids: set<nat>): set<real>
    requires ids <= stamps.Keys
  {
    set id | id in ids :: stamps[id]
  }

  // ---------------------------------------------------------------------------------------
  // One pipeline per instant
  // ---------------------------------------------------------------------------------------

  ghost predicate Distinct(stamps: map<nat, real>) {
    forall a, b | a in stamps && b in stamps && a != b :: stamps[a] != stamps[b]
  }

  ghost predicate StampedBy(stamps: map<nat, real>, last: real) {
    forall id | id in stamps :: 0.0 < stamps[id] <= last
  }

  /** The shared set holds exactly the recent timestamps that are admitted or still to be undone. */
  ghost predicate SetMatches(scores: set<real>, stamps: map<nat, real>, last: real) {
    scores == StampsOf(stamps, Recent(stamps, last))
  }

  ghost predicate Inv(st: State) {
    && st.pending <= st.stamps.Keys && 0.0 <= st.last && (st.atLast == 0 ==> st.last == 0.0)
    && Distinct(st.stamps) && StampedBy(st.stamps, st.last)
    && SetMatches(st.z.scores, st.stamps, st.last)
    && (st.stamps != map[] ==> st.z.expiresAt == st.last + WINDOW * 2.0)
  }

  lemma LaterThanLast(st: State, now: real)
    requires Inv(st) && 0.0 < now && st.last <= now && AtInstant(st, now) <= 1
    ensures st.last < now
  {
  }

  lemma PurgedStamps(st: State, now: real)
    requires Inv(st) && st.last < now
    ensures Purged(st.z, now) == StampsOf(st.stamps, Recent(st.stamps, now)) && now !in Purged(st.z, now)
  {
    assert forall x | x in st.z.scores :: exists id :: id in Recent(st.stamps, st.last) && st.stamps[id] == x;
  }

  lemma StampedNow(stamps: map<nat, real>, id: nat, now: real)
    requires id !in stamps
    ensures StampsOf(stamps[id := now], Recent(stamps[id := now], now)) == StampsOf(stamps, Recent(stamps, now)) + {now}
  {
    var all := stamps[id := now];
    assert Recent(all, now) == Recent(stamps, now) + {id};
    forall x
      ensures x in StampsOf(all, Recent(all, now)) <==> x in StampsOf(stamps, Recent(stamps, now)) + {now}
    {
      if x in StampsOf(stamps, Recent(stamps, now)) {
        var k :| k in Recent(stamps, now) && stamps[k] == x;
        assert all[k] == x && k in Recent(all, now);
      }
      if x == now { assert all[id] == x && id in Recent(all, now); }
    }
  }

  lemma RequestInv(st: State, id: nat, now: real, rpm: int)
    requires Inv(st) && Enabled(st, Request(id, now, rpm)) && st.last < now
    ensures Inv(Requested(st, id, now, rpm))
  {
    PurgedStamps(st, now);
    StampedNow(st.stamps, id, now);
    StampedLater(st.stamps, st.last, id, now);
    hide Purged, Count, Recent, StampsOf, Distinct, StampedBy;
  }

  lemma StampedLater(stamps: map<nat, real>, last: real, id: nat, now: real)
    requires Distinct(stamps) && StampedBy(stamps, last) && last < now && 0.0 < now && id !in stamps
    ensures Distinct(stamps[id := now]) && StampedBy(stamps[id := now], now)
  {
  }

  lemma UndoneStamp(stamps: map<nat, real>, id: nat, last: real)
    requires Distinct(stamps) && id in stamps
    ensures Distinct(stamps - {id})
    ensures StampsOf(stamps - {id}, Recent(stamps - {id}, last)) == StampsOf(stamps, Recent(stamps, last)) - {stamps[id]}
  {
    var rest := stamps - {id};
    assert Recent(rest, last) == Recent(stamps, last) - {id};
    forall x | x in StampsOf(stamps, Recent(stamps, last)) - {stamps[id]}
      ensures x in StampsOf(rest, Recent(rest, last))
    {
      var k :| k in Recent(stamps, last) && stamps[k] == x;
      assert k in Recent(rest, last) && rest[k] == x;
    }
  }

  lemma UndoInv(st: State, id: nat)
    requires Inv(st) && Enabled(st, Undo(id))
    ensures Inv(Next(st, Undo(id)))
  {
    UndoneStamp(st.stamps, id, st.last);
    hide Distinct, Recent, StampsOf;
  }

  lemma NextInv(st: State, step: Step)
    requires Inv(st) && Enabled(st, step) && Next(st, step).busiest <= 1
    ensures Inv(Next(st, step))
  {
    hide Inv;
    match step {
      case Request(id, now, rpm) => LaterThanLast(st, now); RequestInv(st, id, now, rpm);
      case Undo(id) => UndoInv(st, id);
    }
  }

  lemma {:induction false} BusiestGrows(st: State, steps: seq<Step>)
    requires ValidRun(st, steps)
    ensures st.busiest <= Run(st, steps).busiest
    decreases |steps|
  {
    if steps != [] {
      assert st.busiest <= Next(st, steps[0]).busiest;
      hide Next, Enabled;
      BusiestGrows(Next(st, steps[0]), steps[1..]);
    }
  }

  lemma {:induction false} RunInv(st: State, steps: seq<Step>)
    requires Inv(st) && ValidRun(st, steps) && Run(st, steps).busiest <= 1
    ensures Inv(Run(st, steps))
    decreases |steps|
  {
    hide Inv, Next, Enabled;
    if steps != [] {
      BusiestGrows(Next(st, steps[0]), steps[1..]);
      NextInv(st, steps[0]);
      RunInv(Next(st, steps[0]), steps[1..]);
    }
  }

  /** Distinct timestamps: as many members as requests. */
  lemma {:induction false} StampsSize(stamps: map<nat, real>, ids: set<nat>)
    requires Distinct(stamps) && ids <= stamps.Keys
    ensures |StampsOf(stamps, ids)| == |ids|
    decreases ids
  {
    if ids != {} {
      var id :| id in ids;
      StampsSize(stamps, ids - {id});
      assert StampsOf(stamps, ids) == StampsOf(stamps, ids - {id}) + {stamps[id]};
      assert stamps[id] !in StampsOf(stamps, ids - {id});
    }
  }

  /** The count that a pipeline sees: one for each recent request that is admitted or not undone, and one for itself. */
  lemma CountIs(st: State, now: real)
    requires Inv(st) && st.last < now
    ensures Count(st.z, now) == |Recent(st.stamps, now)| + 1
  {
    StampsSize(st.stamps, Recent(st.stamps, now));
    PurgedStamps(st, now);
    hide Purged, StampsOf, Recent, Inv;
  }

  // ---------------------------------------------------------------------------------------
  // Refusals and the quiescent set
  // ---------------------------------------------------------------------------------------

  lemma {:induction false} RunAppend(st: State, steps: seq<Step>, step: Step)
    requires ValidRun(st, steps) && Enabled(Run(st, steps), step)
    ensures ValidRun(st, steps + [step]) && Run(st, steps + [step]) == Next(Run(st, steps), step)
    decreases |steps|
  {
    hide Next, Enabled;
    var all := steps + [step];
    if steps == [] {
      assert all[1..] == [];
      assert ValidRun(Next(st, step), []);
    } else {
      assert all[0] == steps[0] && all[1..] == steps[1..] + [step];
      RunAppend(Next(st, steps[0]), steps[1..], step);
    }
  }

  /** The request is refused exactly when the admitted and the not yet undone requests of the last 60 s already fill
      the limit. */
  ghost predicate RefusedIffFull(st: State, id: nat, now: real, rpm: int)
    requires Enabled(st, Request(id, now, rpm))
  {
    id in Next(st, Request(id, now, rpm)).pending <==> |Recent(st.stamps, now)| >= rpm
  }

  /** Once every undo has run, the set is exactly the admitted timestamps of the last window. */
  ghost predicate QuiescentExact(st: State) {
    st.pending == {} ==> SetMatches(st.z.scores, st.stamps, st.last)
  }

  lemma InitInv()
    ensures Inv(INIT)
  {
  }

  lemma DeniedIffFull(steps: seq<Step>, id: nat, now: real, rpm: int)
    requires ValidRun(INIT, steps) && Enabled(Run(INIT, steps), Request(id, now, rpm))
    requires Next(Run(INIT, steps), Request(id, now, rpm)).busiest <= 1
    ensures RefusedIffFull(Run(INIT, steps), id, now, rpm)
  {
    InitInv();
    RunInv(INIT, steps);
    LaterThanLast(Run(INIT, steps), now);
    CountIs(Run(INIT, steps), now);
    hide Count, Recent, Distinct, SetMatches, Run, ValidRun;
  }

  lemma QuiescentSet(steps: seq<Step>)
    requires ValidRun(INIT, steps) && Run(INIT, steps).busiest <= 1
    ensures QuiescentExact(Run(INIT, steps))
  {
    InitInv();
    RunInv(INIT, steps);
    hide SetMatches, Run, ValidRun;
  }

  // ---------------------------------------------------------------------------------------
  // The limit holds in every window
  // ---------------------------------------------------------------------------------------

  /** Admitted requests all within less than one window of each other. */
  ghost predicate Crowd(st: State, w: set<nat>) {
    && (forall id | id in w :: id in st.stamps && id !in st.pending)
    && (forall a, b | a in w && b in w && a in st.stamps && b in st.stamps :: st.stamps[a] - st.stamps[b] < WINDOW)
  }

  ghost predicate Bounded(st: State, rpm: int) {
    forall w: set<nat> | Crowd(st, w) :: |w| <= rpm
  }

  ghost predicate LimitsWithin(steps: seq<Step>, rpm: int) {
    forall i :: 0 <= i < |steps| && steps[i].Request? ==> steps[i].rpm <= rpm
  }

  lemma CrowdOfNew(st: State, id: nat, now: real, rpm: int, w: set<nat>)
    requires Crowd(Requested(st, id, now, rpm), w) && id in w
    ensures w - {id} <= Recent(st.stamps, now)
  {
    hide Reserve, Count;
    var next := Requested(st, id, now, rpm);
    forall k | k in w - {id}
      ensures k in Recent(st.stamps, now)
    {
      assert next.stamps[id] - next.stamps[k] < WINDOW;
    }
  }

  lemma CrowdOfOld(st: State, id: nat, now: real, rpm: int, w: set<nat>)
    requires Crowd(Requested(st, id, now, rpm), w) && id !in w
    ensures Crowd(st, w)
  {
    hide Reserve, Count;
    var next := Requested(st, id, now, rpm);
    assert forall k | k in w :: k in next.stamps && next.stamps[k] == st.stamps[k];
  }

  lemma CrowdAdmits(st: State, id: nat, now: real, rpm: int, w: set<nat>)
    requires Crowd(Requested(st, id, now, rpm), w) && id in w
    ensures Count(st.z, now) <= rpm
  {
    hide Reserve, Count;
    assert id !in Requested(st, id, now, rpm).pending;
  }

  lemma CrowdBounded(st: State, id: nat, now: real, rpm: int, limit: int, w: set<nat>)
    requires Inv(st) && id !in st.stamps && st.last < now && rpm <= limit && Bounded(st, limit)
    requires Crowd(Requested(st, id, now, rpm), w)
    ensures |w| <= limit
  {
    hide Inv, Count, Recent, Requested, Crowd;
    if id in w {
      CrowdAdmits(st, id, now, rpm, w);
      CountIs(st, now);
      CrowdOfNew(st, id, now, rpm, w);
      SubsetSize(w - {id}, Recent(st.stamps, now));
      assert w == (w - {id}) + {id};
    } else {
      CrowdOfOld(st, id, now, rpm, w);
    }
  }

  lemma NextBounded(st: State, step: Step, limit: int)
    requires Inv(st) && Enabled(st, step) && Next(st, step).busiest <= 1 && Bounded(st, limit) && (step.Request? ==> step.rpm <= limit)
    ensures Bounded(Next(st, step), limit)
  {
    if step.Request? { LaterThanLast(st, step.now); }
    forall w: set<nat> | Crowd(Next(st, step), w)
      ensures |w| <= limit
    {
      if step.Request? {
        hide Inv, Bounded, Crowd;
        CrowdBounded(st, step.id, step.now, step.rpm, limit, w);
      } else {
        UndoKeepsCrowd(st, step.id, w);
        hide Inv, Crowd;
      }
    }
    hide Inv, Crowd, Next;
  }

  lemma UndoKeepsCrowd(st: State, id: nat, w: set<nat>)
    requires Enabled(st, Undo(id)) && Crowd(Next(st, Undo(id)), w)
    ensures Crowd(st, w)
  {
    var next := Next(st, Undo(id));
    assert forall k | k in w :: k in next.stamps && next.stamps[k] == st.stamps[k];
    forall k | k in w ensures k !in st.pending { assert k !in next.pending && k != id; }
  }

  lemma {:induction false} RunBounded(st: State, steps: seq<Step>, limit: int)
    requires Inv(st) && Bounded(st, limit) && ValidRun(st, steps) && LimitsWithin(steps, limit) && Run(st, steps).busiest <= 1
    ensures Bounded(Run(st, steps), limit)
    decreases |steps|
  {
    hide Inv, Bounded, Next, Enabled;
    if steps != [] {
      BusiestGrows(Next(st, steps[0]), steps[1..]);
      NextInv(st, steps[0]);
      NextBounded(st, steps[0], limit);
      RunBounded(Next(st, steps[0]), steps[1..], limit);
    }
  }

  function AdmittedFrom(st: State, lo: real): set<nat> {
    set id | id in st.stamps && id !in st.pending && lo <= st.stamps[id] < lo + 60.0
  }

  function AdmittedAfter(st: State, lo: real): set<nat> {
    set id | id in st.stamps && id !in st.pending && lo < st.stamps[id] <= lo + 60.0
  }

  /** No half-open window of 60 s, open on either side, contains more than `rpm` admitted requests. */
  ghost predicate KeepsLimit(st: State, rpm: nat) {
    forall lo: real :: |AdmittedFrom(st, lo)| <= rpm && |AdmittedAfter(st, lo)| <= rpm
  }

  /** However the workers' undos interleave with other pipelines, with one pipeline per instant every window keeps the
      limit. */
  lemma WindowLimit(steps: seq<Step>, rpm: nat)
    requires ValidRun(INIT, steps) && LimitsWithin(steps, rpm) && Run(INIT, steps).busiest <= 1
    ensures KeepsLimit(Run(INIT, steps), rpm)
  {
    InitInv();
    assert Bounded(INIT, rpm) by { forall w: set<nat> | Crowd(INIT, w) ensures |w| <= rpm { assert w == {}; } }
    RunBounded(INIT, steps, rpm);
    var st := Run(INIT, steps);
    hide Run, ValidRun;
    forall lo: real
      ensures |AdmittedFrom(st, lo)| <= rpm && |AdmittedAfter(st, lo)| <= rpm
    {
      assert Crowd(st, AdmittedFrom(st, lo)) && Crowd(st, AdmittedAfter(st, lo));
    }
  }

  // ---------------------------------------------------------------------------------------
  // Two pipelines at one instant
  // ---------------------------------------------------------------------------------------

  /** A second pipeline at the same instant adds nothing and sees the same count. */
  lemma SameInstant(z: ZSet, now: real)
    ensures Reserve(Reserve(z, now), now) == Reserve(z, now) && Count(Reserve(z, now), now) == Count(z, now)
  {
    var r := Reserve(z, now);
    assert Purged(r, now) + {now} == r.scores;
  }

  /** The first `k` requests, all admitted, one after the other within a second. */
  ghost predicate Filled(st: State, k: nat) {
    && Inv(st) && st.pending == {} && st.busiest <= 1 && st.last < 2.0 && |st.stamps.Keys| == k
    && forall id: nat :: id in st.stamps <==> id < k
  }

  ghost predicate WithinSecond(st: State) {
    forall id | id in st.stamps :: 1.0 <= st.stamps[id] <= 2.0
  }

  lemma AllRecent(st: State, now: real)
    requires WithinSecond(st) && now <= 2.0
    ensures Recent(st.stamps, now) == st.stamps.Keys
  {
  }

  lemma OneMoreFits(st: State, k: nat, rpm: nat, now: real)
    requires Filled(st, k) && WithinSecond(st) && k < rpm && st.last < now && 1.0 <= now <= 2.0
    ensures var next := Requested(st, k, now, rpm);
            && next.pending == {} && WithinSecond(next) && Inv(next) && next.busiest <= 1
            && next.stamps == st.stamps[k := now] && next.last == now && next.z == Reserve(st.z, now) && Count(st.z, now) == k + 1
  {
    hide Inv, Count, Recent, Reserve;
    assert k !in st.stamps && Enabled(st, Request(k, now, rpm));
    AllRecent(st, now);
    CountIs(st, now);
    RequestInv(st, k, now, rpm);
  }

  lemma FilledMore(st: State, next: State, k: nat, now: real)
    requires Filled(st, k) && next.stamps == st.stamps[k := now] && Inv(next) && next.pending == {} && next.busiest <= 1 && next.last < 2.0
    ensures Filled(next, k + 1)
  {
    hide Inv;
    assert next.stamps.Keys == st.stamps.Keys + {k};
  }

  lemma {:induction false} Fill(k: nat, rpm: nat) returns (steps: seq<Step>)
    requires k <= rpm
    ensures ValidRun(INIT, steps) && LimitsWithin(steps, rpm) && Filled(Run(INIT, steps), k) && WithinSecond(Run(INIT, steps))
  {
    if k == 0 {
      steps := [];
      InitInv();
    } else {
      var before := Fill(k - 1, rpm);
      var st := Run(INIT, before);
      hide Run, ValidRun, Inv, WithinSecond;
      var now := if st.last < 1.0 then 1.0 else (st.last + 2.0) / 2.0;
      OneMoreFits(st, k - 1, rpm, now);
      assert Enabled(st, Request(k - 1, now, rpm)) && Next(st, Request(k - 1, now, rpm)) == Requested(st, k - 1, now, rpm);
      hide Next, Enabled;
      FilledMore(st, Requested(st, k - 1, now, rpm), k - 1, now);
      RunAppend(INIT, before, Request(k - 1, now, rpm));
      LimitsAppend(before, Request(k - 1, now, rpm), rpm);
      steps := before + [Request(k - 1, now, rpm)];
    }
  }

  lemma Overfull(st: State, rpm: nat)
    requires (forall id | id in st.stamps :: 1.0 <= st.stamps[id] <= 2.0) && st.pending == {} && |st.stamps.Keys| == rpm + 1
    ensures !KeepsLimit(st, rpm)
  {
    assert AdmittedFrom(st, 1.0) == st.stamps.Keys;
  }

  lemma SecondPasses(st: State, id: nat, now: real, rpm: nat, other: nat)
    requires Count(st.z, now) <= rpm && st.pending == {}
    ensures var next := Requested(Requested(st, id, now, rpm), other, now, rpm);
            && next.pending == {} && next.stamps == st.stamps[id := now][other := now] && (st.last < now ==> next.busiest == Max(2, st.busiest))
  {
    SameInstant(st.z, now);
    hide Count, Reserve;
  }

  /** When one request is left under the limit, two pipelines at one instant are both admitted. */
  lemma TwoAtOnce(st: State, rpm: nat)
    requires rpm >= 1 && Filled(st, rpm - 1) && WithinSecond(st)
    ensures var end := Requested(Requested(st, rpm - 1, 2.0, rpm), rpm, 2.0, rpm); end.busiest <= 2 && !KeepsLimit(end, rpm)
  {
    hide Inv, Count, Requested, KeepsLimit, Reserve;
    OneMoreFits(st, rpm - 1, rpm, 2.0);
    SecondPasses(st, rpm - 1, 2.0, rpm, rpm);
    TwoMoreStamps(st.stamps, rpm - 1);
    hide Filled, WithinSecond;
    Overfull(Requested(Requested(st, rpm - 1, 2.0, rpm), rpm, 2.0, rpm), rpm);
  }

  lemma TwoMoreStamps(stamps: map<nat, real>, k: nat)
    requires |stamps.Keys| == k && (forall id: nat :: id in stamps <==> id < k)
    requires forall id | id in stamps :: 1.0 <= stamps[id] <= 2.0
    ensures var more := stamps[k := 2.0][k + 1 := 2.0]; |more.Keys| == k + 2 && forall id | id in more :: 1.0 <= more[id] <= 2.0
  {
    assert stamps[k := 2.0].Keys == stamps.Keys + {k};
    assert stamps[k := 2.0][k + 1 := 2.0].Keys == stamps[k := 2.0].Keys + {k + 1};
  }

  lemma TwoEnabled(st: State, rpm: nat)
    requires rpm >= 1 && Filled(st, rpm - 1)
    ensures var one, two := Request(rpm - 1, 2.0, rpm), Request(rpm, 2.0, rpm);
            && Enabled(st, one) && Enabled(Next(st, one), two)
            && Next(Next(st, one), two) == Requested(Requested(st, rpm - 1, 2.0, rpm), rpm, 2.0, rpm)
  {
    hide Inv, Count, Reserve;
  }

  lemma LimitsAppend(steps: seq<Step>, step: Step, rpm: int)
    requires LimitsWithin(steps, rpm) && (step.Request? ==> step.rpm <= rpm)
    ensures LimitsWithin(steps + [step], rpm)
  {
  }

  lemma SharedInstantOverruns(rpm: nat) returns (steps: seq<Step>)
    requires rpm >= 1
    ensures ValidRun(INIT, steps) && LimitsWithin(steps, rpm) && Run(INIT, steps).busiest <= 2 && !KeepsLimit(Run(INIT, steps), rpm)
  {
    hide *;
    var before := Fill(rpm - 1, rpm);
    var one, two := Request(rpm - 1, 2.0, rpm), Request(rpm, 2.0, rpm);
    TwoEnabled(Run(INIT, before), rpm);
    TwoAtOnce(Run(INIT, before), rpm);
    RunAppend(INIT, before, one);
    RunAppend(INIT, before + [one], two);
    LimitsAppend(before, one, rpm);
    LimitsAppend(before + [one], two, rpm);
    steps := before + [one] + [two];
  }

  ghost predicate AlwaysKeepsLimit(rpm: nat, perInstant: nat) {
    forall steps | ValidRun(INIT, steps) && LimitsWithin(steps, rpm) && Run(INIT, steps).busiest <= perInstant :: KeepsLimit(Run(INIT, steps), rpm)
  }

  /** All runs with at most so many pipelines at one instant keep the limit in every window if and only if it is one. */
  lemma WindowLimitIff(rpm: nat, perInstant: nat)
    requires rpm >= 1
    ensures AlwaysKeepsLimit(rpm, perInstant) <==> perInstant <= 1
  {
    hide KeepsLimit;
    if perInstant <= 1 {
      forall steps | ValidRun(INIT, steps) && LimitsWithin(steps, rpm) && Run(INIT, steps).busiest <= perInstant
        ensures KeepsLimit(Run(INIT, steps), rpm)
      {
        WindowLimit(steps, rpm);
      }
    } else {
      var steps := SharedInstantOverruns(rpm);
      assert !KeepsLimit(Run(INIT, steps), rpm);
    }
  }

  ghost predicate AlwaysRefusesIffFull(perInstant: nat) {
    forall steps, id, now, rpm | ValidRun(INIT, steps) && Enabled(Run(INIT, steps), Request(id, now, rpm))
                                 && Next(Run(INIT, steps), Request(id, now, rpm)).busiest <= perInstant ::
      RefusedIffFull(Run(INIT, steps), id, now, rpm)
  }

  lemma OneRun(step: Step)
    requires Enabled(INIT, step)
    ensures ValidRun(INIT, [step]) && Run(INIT, [step]) == Next(INIT, step)
  {
    RunAppend(INIT, [], step);
    assert [] + [step] == [step];
  }

  /** The refusals are exact in all runs if and only if there is one pipeline per instant. */
  lemma RefusalsIff(perInstant: nat)
    ensures AlwaysRefusesIffFull(perInstant) <==> perInstant <= 1
  {
    if perInstant <= 1 {
      forall steps, id, now, rpm | ValidRun(INIT, steps) && Enabled(Run(INIT, steps), Request(id, now, rpm))
                                   && Next(Run(INIT, steps), Request(id, now, rpm)).busiest <= perInstant
        ensures RefusedIffFull(Run(INIT, steps), id, now, rpm)
      {
        DeniedIffFull(steps, id, now, rpm);
      }
    } else {
      var first := Request(0, 1.0, 1);
      OneRun(first);
      var st := Run(INIT, [first]);
      InitInv();
      CountIs(INIT, 1.0);
      assert Recent(INIT.stamps, 1.0) == {};
      SameInstant(INIT.z, 1.0);
      hide Run, ValidRun, Count, Reserve;
      assert st == Requested(INIT, 0, 1.0, 1);
      assert Recent(st.stamps, 1.0) == {0};
      assert Enabled(st, Request(1, 1.0, 1)) && Next(st, Request(1, 1.0, 1)).busiest <= 2;
      assert !RefusedIffFull(st, 1, 1.0, 1);
    }
  }

  ghost predicate AlwaysQuiescentExact(perInstant: nat) {
    forall steps | ValidRun(INIT, steps) && Run(INIT, steps).busiest <= perInstant :: QuiescentExact(Run(INIT, steps))
  }

  // A run in which a denied request and an admitted one share an instant.
  const HELD := State(ZSet({1.0, 30.0}, 150.0), map[0 := 1.0, 1 := 30.0], {1}, 30.0, 1, 1)
  const SHARED := State(ZSet({61.0}, 181.0), map[0 := 1.0, 2 := 61.0], {2}, 61.0, 1, 1)
  const BOTH := State(ZSet({61.0}, 181.0), map[0 := 1.0, 2 := 61.0, 3 := 61.0], {2}, 61.0, 2, 2)

  lemma HeldReached()
    ensures var a, b := Request(0, 1.0, 1), Request(1, 30.0, 1); ValidRun(INIT, [a] + [b]) && Run(INIT, [a] + [b]) == HELD
  {
    var a, b := Request(0, 1.0, 1), Request(1, 30.0, 1);
    var s1 := State(ZSet({1.0}, 121.0), map[0 := 1.0], {}, 1.0, 1, 1);
    RunsTo(INIT, a, s1, Purged(INIT.z, 1.0) + {1.0});
    RunsTo(s1, b, HELD, Purged(s1.z, 30.0) + {30.0});
    hide Next;
    OneRun(a);
    RunAppend(INIT, [a], b);
  }

  lemma SharedReached()
    ensures var c := Request(2, 61.0, 1);
            Enabled(HELD, c) && Enabled(Next(HELD, c), Undo(1)) && Next(Next(HELD, c), Undo(1)) == SHARED
  {
    var c := Request(2, 61.0, 1);
    var s3 := State(ZSet({30.0, 61.0}, 181.0), map[0 := 1.0, 1 := 30.0, 2 := 61.0], {1, 2}, 61.0, 1, 1);
    RunsTo(HELD, c, s3, Purged(HELD.z, 61.0) + {61.0});
    assert s3.stamps - {1} == SHARED.stamps;
  }

  lemma BothReached()
    ensures var d := Request(3, 61.0, 1); Enabled(SHARED, d) && Next(SHARED, d) == BOTH
  {
    RunsTo(SHARED, Request(3, 61.0, 1), BOTH, Purged(SHARED.z, 61.0) + {61.0});
  }

  lemma MemberTaken()
    ensures Enabled(BOTH, Undo(2)) && !QuiescentExact(Next(BOTH, Undo(2))) && Next(BOTH, Undo(2)).busiest == 2
  {
    var end := Next(BOTH, Undo(2));
    assert end.z.scores == {} && end.pending == {} && end.stamps == map[0 := 1.0, 3 := 61.0];
    assert 3 in Recent(end.stamps, 61.0) && end.stamps[3] in StampsOf(end.stamps, Recent(end.stamps, 61.0));
  }

  /** The late undo of the denied request takes the admitted one's member. */
  lemma UndoTakesAdmitted() returns (steps: seq<Step>)
    ensures ValidRun(INIT, steps) && Run(INIT, steps).busiest <= 2 && !QuiescentExact(Run(INIT, steps))
  {
    var a, b, c, d := Request(0, 1.0, 1), Request(1, 30.0, 1), Request(2, 61.0, 1), Request(3, 61.0, 1);
    hide *;
    HeldReached();
    SharedReached();
    BothReached();
    MemberTaken();
    RunAppend(INIT, [a] + [b], c);
    RunAppend(INIT, [a] + [b] + [c], Undo(1));
    RunAppend(INIT, [a] + [b] + [c] + [Undo(1)], d);
    RunAppend(INIT, [a] + [b] + [c] + [Undo(1)] + [d], Undo(2));
    steps := [a] + [b] + [c] + [Undo(1)] + [d] + [Undo(2)];
  }

  lemma RunsTo(st: State, step: Step, next: State, scores: set<real>)
    requires Enabled(st, step) && step.Request? && scores == Purged(st.z, step.now) + {step.now} == next.z.scores
    requires next.z.expiresAt == step.now + WINDOW * 2.0 && next.stamps == st.stamps[step.id := step.now] && next.last == step.now
    requires next.pending == (if |scores| <= step.rpm then st.pending else st.pending + {step.id})
    requires next.atLast == AtInstant(st, step.now) && next.busiest == Max(next.atLast, st.busiest)
    ensures Next(st, step) == next
  {
  }

  /** The set is exact once all undos have run, in all runs, if and only if there is one pipeline per instant. */
  lemma QuiescentIff(perInstant: nat)
    ensures AlwaysQuiescentExact(perInstant) <==> perInstant <= 1
  {
    hide QuiescentExact;
    if perInstant <= 1 {
      forall steps | ValidRun(INIT, steps) && Run(INIT, steps).busiest <= perInstant
        ensures QuiescentExact(Run(INIT, steps))
      {
        QuiescentSet(steps);
      }
    } else {
      var steps := UndoTakesAdmitted();
      assert !QuiescentExact(Run(INIT, steps));
    }
  }
}
