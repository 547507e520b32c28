/**
 Daily request quotas at the policy engine (`check_quota` and `increment_redis_only`), with Redis reachable.
 A check fixes its day, looks its limits up, reads the request counter of that day and, after a further suspension, the
 token counter.  An admitted request is counted later, under the day on which its tracking began.
 */
module Quota {
  import opened Basics

  datatype Limits = Limits(requests: int, tokens: int)

  datatype Verdict = Allowed | RequestLimit | TokenLimit

  function Judge(limits: Limits, requests: int, tokens: int): Verdict {
    if requests >= limits.requests then RequestLimit
    else if tokens >= limits.tokens then TokenLimit
    else Allowed
  }

  /** A missing counter counts as zero. */
  function Count<K>(counters: map<K, int>, key: K): int {
    if key in counters then counters[key] else 0
  }

  function Added<K>(counters: map<K, int>, key: K, amount: int): map<K, int> {
    counters[key := Count(counters, key) + amount]
  }

  function RequestsKey(user: string, day: string, model: string): string {
    ("usage:" + user + ":") + day + (":" + model + ":requests")
  }

  function TokensKey(user: string, day: string, model: string): string {
    ("usage:" + user + ":") + day + (":" + model + ":tokens")
  }

  class PolicyEngine {
    var redis: map<string, int>

    constructor ()
      ensures redis == map[]
    {
      redis := map[];
    }

    /** A check that nobody interleaves with. */
    method CheckQuota(user: string, day: string, model: string, limits: Limits) returns (v: Verdict)
      ensures v == Judge(limits, Count(redis, RequestsKey(user, day, model)), Count(redis, TokensKey(user, day, model)))
    {
      var used := Count(redis, RequestsKey(user, day, model));
      var usedTokens := Count(redis, TokensKey(user, day, model));
      if used >= limits.requests {
        return RequestLimit;
      }
      if usedTokens >= limits.tokens {
        return TokenLimit;
      }
      return Allowed;
    }

    /** The tracking transaction: one more request, and its tokens; every other tally is as before. */
    method IncrementRedisOnly(user: string, day: string, model: string, totalTokens: int)
      modifies this
      ensures var r, t := RequestsKey(user, day, model), TokensKey(user, day, model);
              && Count(redis, r) == Count(old(redis), r) + 1
              && Count(redis, t) == Count(old(redis), t) + totalTokens
              && forall k | k != r && k != t :: Count(redis, k) == Count(old(redis), k)
    {
      KeysDiffer(user, day, day, model);
      hide RequestsKey, TokensKey;
      redis := Added(redis, RequestsKey(user, day, model), 1);
      redis := Added(redis, TokensKey(user, day, model), totalTokens);
    }
  }

  /** The keys of one user and model tell days and kinds apart, so their tallies can be kept day by day. */
  lemma KeysDiffer(user: string, day: string, other: string, model: string)
    ensures RequestsKey(user, day, model) != TokensKey(user, other, model)
    ensures RequestsKey(user, day, model) == RequestsKey(user, other, model) ==> day == other
    ensures TokensKey(user, day, model) == TokensKey(user, other, model) ==> day == other
  {
    EndsDiffer(("usage:" + user + ":") + day + (":" + model), ("usage:" + user + ":") + other + (":" + model));
    MiddleIsSame("usage:" + user + ":", day, other, ":" + model + ":requests");
    MiddleIsSame("usage:" + user + ":", day, other, ":" + model + ":tokens");
    assert RequestsKey(user, day, model) == (("usage:" + user + ":") + day + (":" + model)) + ":requests";
    assert TokensKey(user, other, model) == (("usage:" + user + ":") + other + (":" + model)) + ":tokens";
  }

  lemma EndsDiffer(a: string, b: string)
    ensures a + ":requests" != b + ":tokens"
  {
    var x, y := a + ":requests", b + ":tokens";
    assert x[|x| - 2] == 't' && y[|y| - 2] == 'n';
  }

  lemma MiddleIsSame(prefix: string, a: string, b: string, suffix: string)
    ensures prefix + a + suffix == prefix + b + suffix ==> a == b
  {
    var x, y := prefix + a + suffix, prefix + b + suffix;
    assert x[|prefix|..|x| - |suffix|] == a && y[|prefix|..|y| - |suffix|] == b;
  }

  // ---------------------------------------------------------------------------------------
  // Interleaved checks and increments for one user and model
  // ---------------------------------------------------------------------------------------

  /** Where a request is: its check has begun, has read the request count of its day, was admitted, or its tracking has
      begun. */
  datatype Place =
    | Begun(day: nat)
    | Read(day: nat, count: int)
    | Admitted
    | Tracking(day: nat)

  /** For the bounds: the most requests ever in flight, the most admitted and not tracked, and the most checks between
      their two reads at a moment when a request was tracked. */
  datatype Peaks = Peaks(inFlight: nat, admitted: nat, between: nat)

  /** The tallies by day, where every request is, and the reads below the limit made on each day by checks that had
      begun on an earlier one. */
  datatype State = State(day: nat, requests: map<nat, int>, tokens: map<nat, int>, place: map<nat, Place>, stale: map<nat, int>, peaks: Peaks)

  datatype Step =
    | Begin(req: nat)
    | ReadRequests(req: nat)
    | ReadTokens(req: nat)
    | BeginTrack(req: nat)
    | Track(req: nat, total: nat)
    | Midnight

  const INIT := State(0, map[], map[], map[], map[], Peaks(0, 0, 0))

  /** Kinds of requests that are counted: between the reads with a count below the limit, admitted and not tracked, either
      of these, and those that can still be tracked under a day, with or without the ones between their reads. */
  datatype Kind =
    | Between(limit: int)
    | Untracked
    | InFlight(limit: int)
    | Due(limit: int, today: nat, day: nat)
    | Owed(today: nat, day: nat)

  predicate Is(kind: Kind, p: Place) {
    match kind
    case Between(limit) => p.Read? && p.count < limit
    case Untracked => p.Admitted? || p.Tracking?
    case InFlight(limit) => p.Admitted? || p.Tracking? || (p.Read? && p.count < limit)
    case Due(limit, today, day) => (p.Tracking? && p.day == day) || (day == today && (p.Admitted? || (p.Read? && p.count < limit)))
    case Owed(today, day) => (p.Tracking? && p.day == day) || (day == today && p.Admitted?)
  }

  function Where(place: map<nat, Place>, kind: Kind): set<nat> {
    set r | r in place && Is(kind, place[r])
  }

  function Many(place: map<nat, Place>, kind: Kind): nat {
    |Where(place, kind)|
  }

  function Max(a: nat, b: nat): nat {
    if a >= b then a else b
  }

  ghost predicate Enabled(st: State, step: Step) {
    match step
    case Begin(r) => r !in st.place
    case ReadRequests(r) => r in st.place && st.place[r].Begun?
    case ReadTokens(r) => r in st.place && st.place[r].Read?
    case BeginTrack(r) => r in st.place && st.place[r].Admitted?
    case Track(r, _) => r in st.place && st.place[r].Tracking?
    case Midnight => true
  }

  /** Where the acting request goes; `None` is out of the system. */
  function Moved(st: State, limits: Limits, step: Step): Option<Place>
    requires Enabled(st, step) && !step.Midnight?
  {
    match step
    case Begin(_) => Some(Begun(st.day))
    case ReadRequests(r) => Some(Read(st.place[r].day, Count(st.requests, st.place[r].day)))
    case ReadTokens(r) => if Judge(limits, st.place[r].count, Count(st.tokens, st.place[r].day)) == Allowed then Some(Admitted) else None
    case BeginTrack(_) => Some(Tracking(st.day))
    case Track(_, _) => None
  }

  function Placed(place: map<nat, Place>, r: nat, p: Option<Place>): map<nat, Place> {
    if p.Some? then place[r := p.value] else place - {r}
  }

  function NextPlaces(st: State, limits: Limits, step: Step): map<nat, Place>
    requires Enabled(st, step)
  {
    if step.Midnight? then st.place else Placed(st.place, step.req, Moved(st, limits, step))
  }

  predicate StaleRead(st: State, limits: Limits, step: Step)
    requires Enabled(st, step)
  {
    step.ReadRequests? && st.place[step.req].day != st.day && Count(st.requests, st.place[step.req].day) < limits.requests
  }

  function NextPeaks(st: State, limits: Limits, step: Step): Peaks
    requires Enabled(st, step)
  {
    var place := NextPlaces(st, limits, step);
    Peaks(Max(Many(place, InFlight(limits.requests)), st.peaks.inFlight), Max(Many(place, Untracked), st.peaks.admitted),
          if step.Track? then Max(Many(place, Between(limits.requests)), st.peaks.between) else st.peaks.between)
  }

  function Next(st: State, limits: Limits, step: Step): State
    requires Enabled(st, step)
  {
    State(if step.Midnight? then st.day + 1 else st.day,
          if step.Track? then Added(st.requests, st.place[step.req].day, 1) else st.requests,
          if step.Track? then Added(st.tokens, st.place[step.req].day, step.total) else st.tokens,
          NextPlaces(st, limits, step),
          if StaleRead(st, limits, step) then Added(st.stale, st.day, 1) else st.stale,
          NextPeaks(st, limits, step))
  }

  ghost predicate ValidRun(st: State, limits: Limits, steps: seq<Step>)
    decreases |steps|
  {
    steps != [] ==> Enabled(st, steps[0]) && ValidRun(Next(st, limits, steps[0]), limits, steps[1..])
  }

  ghost function Run(st: State, limits: Limits, steps: seq<Step>): State
    requires ValidRun(st, limits, steps)
    decreases |steps|
  {
    if steps == [] then st else Run(Next(st, limits, steps[0]), limits, steps[1..])
  }

  // ---------------------------------------------------------------------------------------
  // What a check decides
  // ---------------------------------------------------------------------------------------

  /** The tokens of a day: the totals of the requests whose tracking began on it. */
  ghost function Spent(st: State, limits: Limits, steps: seq<Step>, day: nat): int
    requires ValidRun(st, limits, steps)
    decreases |steps|
  {
    if steps == [] then 0
    else
      var s := steps[0];
      (if s.Track? && st.place[s.req].day == day then s.total else 0) + Spent(Next(st, limits, s), limits, steps[1..], day)
  }

  /** The requests whose tracking began on a day and has finished. */
  ghost function Tracked(st: State, limits: Limits, steps: seq<Step>, day: nat): int
    requires ValidRun(st, limits, steps)
    decreases |steps|
  {
    if steps == [] then 0
    else
      var s := steps[0];
      (if s.Track? && st.place[s.req].day == day then 1 else 0) + Tracked(Next(st, limits, s), limits, steps[1..], day)
  }

  /** Whatever interleaves, the tallies of a day are the requests tracked under it and their tokens. */
  lemma {:induction false} TalliesAre(st: State, limits: Limits, steps: seq<Step>, day: nat)
    requires ValidRun(st, limits, steps)
    ensures Count(Run(st, limits, steps).requests, day) == Count(st.requests, day) + Tracked(st, limits, steps, day)
    ensures Count(Run(st, limits, steps).tokens, day) == Count(st.tokens, day) + Spent(st, limits, steps, day)
    decreases |steps|
  {
    if steps != [] {
      var next := Next(st, limits, steps[0]);
      assert Count(next.requests, day) == Count(st.requests, day) + (if steps[0].Track? && st.place[steps[0].req].day == day then 1 else 0);
      assert Count(next.tokens, day) == Count(st.tokens, day) + (if steps[0].Track? && st.place[steps[0].req].day == day then steps[0].total else 0);
      hide Next, Enabled, Count;
      TalliesAre(next, limits, steps[1..], day);
    }
  }

  /** In every run, a check that reads its two counters admits its request exactly when, of the day on which it began, fewer
      requests than the limit had been tracked at its first read and fewer tokens than the limit at its second. */
  lemma AdmittedIff(limits: Limits, before: seq<Step>, between: seq<Step>, r: nat)
    requires ValidRun(INIT, limits, before) && Enabled(Run(INIT, limits, before), ReadRequests(r))
    requires ValidRun(Next(Run(INIT, limits, before), limits, ReadRequests(r)), limits, between)
    requires Enabled(Run(Next(Run(INIT, limits, before), limits, ReadRequests(r)), limits, between), ReadTokens(r))
    requires forall i | 0 <= i < |between| :: between[i].Midnight? || between[i].req != r
    ensures var first := Run(INIT, limits, before);
            var second := Next(first, limits, ReadRequests(r));
            var third := Run(second, limits, between);
            var day, after := first.place[r].day, Next(third, limits, ReadTokens(r));
            r in after.place && after.place[r].Admitted? <==>
              && Tracked(INIT, limits, before, day) < limits.requests
              && Spent(INIT, limits, before, day) + Spent(second, limits, between, day) < limits.tokens
  {
    var first := Run(INIT, limits, before);
    var second := Next(first, limits, ReadRequests(r));
    TalliesAre(INIT, limits, before, first.place[r].day);
    TalliesAre(second, limits, between, first.place[r].day);
    StaysPut(second, limits, between, r);
    hide Run, ValidRun, Spent, Tracked, NextPeaks, StaleRead;
  }

  lemma {:induction false} StaysPut(st: State, limits: Limits, steps: seq<Step>, r: nat)
    requires ValidRun(st, limits, steps) && r in st.place && forall i | 0 <= i < |steps| :: steps[i].Midnight? || steps[i].req != r
    ensures r in Run(st, limits, steps).place && Run(st, limits, steps).place[r] == st.place[r]
    decreases |steps|
  {
    if steps != [] { StaysPut(Next(st, limits, steps[0]), limits, steps[1..], r); }
  }

  // ---------------------------------------------------------------------------------------
  // Counting requests
  // ---------------------------------------------------------------------------------------

  function One(b: bool): nat {
    if b then 1 else 0
  }

  lemma WhereMoved(place: map<nat, Place>, r: nat, p: Option<Place>, kind: Kind)
    ensures Where(Placed(place, r, p), kind) - {r} == Where(place, kind) - {r}
    ensures r in Where(Placed(place, r, p), kind) <==> p.Some? && Is(kind, p.value)
    ensures r in Where(place, kind) <==> r in place && Is(kind, place[r])
  {
    hide Is;
    forall x
      ensures x in Where(Placed(place, r, p), kind) - {r} <==> x in Where(place, kind) - {r}
    {
    }
  }

  lemma WithoutOne(s: set<nat>, r: nat)
    ensures |s| == |s - {r}| + One(r in s)
  {
    if r in s { assert s == (s - {r}) + {r}; } else { assert s - {r} == s; }
  }

  /** Moving one request changes a count by that request alone. */
  lemma ManyMoved(place: map<nat, Place>, r: nat, p: Option<Place>, kind: Kind)
    ensures Many(Placed(place, r, p), kind) + One(r in place && Is(kind, place[r]))
         == Many(place, kind) + One(p.Some? && Is(kind, p.value))
  {
    WhereMoved(place, r, p, kind);
    hide Is, Where, Placed;
    WithoutOne(Where(place, kind), r);
    WithoutOne(Where(Placed(place, r, p), kind), r);
  }

  lemma ManyWithin(place: map<nat, Place>, a: Kind, b: Kind)
    requires forall r | r in place && Is(a, place[r]) :: Is(b, place[r])
    ensures Many(place, a) <= Many(place, b)
  {
    hide Is;
    SubsetSize(Where(place, a), Where(place, b));
  }

  // ---------------------------------------------------------------------------------------
  // The bound by requests in flight
  // ---------------------------------------------------------------------------------------

  /** Nothing happens on a day to come. */
  ghost predicate Timely(st: State) {
    && (forall r | r in st.place && (st.place[r].Begun? || st.place[r].Tracking?) :: st.place[r].day <= st.day)
    && (forall d | d in st.requests :: d <= st.day)
    && (forall d | d in st.stale :: st.stale[d] >= 0)
  }

  ghost predicate DayBounded(st: State, limits: Limits, day: nat) {
    Count(st.requests, day) + Many(st.place, Due(limits.requests, st.day, day))
      <= limits.requests - 1 + st.peaks.inFlight + Count(st.stale, day)
  }

  ghost predicate Inv(st: State, limits: Limits) {
    Timely(st) && Many(st.place, InFlight(limits.requests)) <= st.peaks.inFlight && forall day: nat :: DayBounded(st, limits, day)
  }

  lemma TimelyStep(st: State, limits: Limits, step: Step)
    requires Timely(st) && Enabled(st, step)
    ensures Timely(Next(st, limits, step))
  {
    hide Many, Judge;
  }

  lemma DueWithin(place: map<nat, Place>, limit: int, today: nat, day: nat)
    ensures Many(place, Due(limit, today, day)) <= Many(place, InFlight(limit))
  {
    ManyWithin(place, Due(limit, today, day), InFlight(limit));
  }

  lemma DayStep(st: State, limits: Limits, step: Step, day: nat)
    requires Inv(st, limits) && Enabled(st, step) && limits.requests >= 1 && !step.Midnight?
    ensures DayBounded(Next(st, limits, step), limits, day)
  {
    assert DayBounded(st, limits, day);
    var due, p := Due(limits.requests, st.day, day), Moved(st, limits, step);
    ManyMoved(st.place, step.req, p, due);
    DueWithin(NextPlaces(st, limits, step), limits.requests, st.day, day);
    hide Many, Timely;
  }

  lemma DayAtMidnight(st: State, limits: Limits, day: nat)
    requires Inv(st, limits) && limits.requests >= 1
    ensures DayBounded(Next(st, limits, Midnight), limits, day)
  {
    assert DayBounded(st, limits, day);
    if day == st.day + 1 {
      DueWithin(st.place, limits.requests, st.day + 1, day);
    } else {
      ManyWithin(st.place, Due(limits.requests, st.day + 1, day), Due(limits.requests, st.day, day));
    }
    hide Many;
  }

  lemma StepInv(st: State, limits: Limits, step: Step)
    requires Inv(st, limits) && Enabled(st, step) && limits.requests >= 1
    ensures Inv(Next(st, limits, step), limits)
  {
    TimelyStep(st, limits, step);
    forall day: nat
      ensures DayBounded(Next(st, limits, step), limits, day)
    {
      hide DayBounded, Next, Enabled, Timely;
      if step.Midnight? { DayAtMidnight(st, limits, day); } else { DayStep(st, limits, step, day); }
    }
    hide DayBounded, Timely, Many;
  }

  lemma {:induction false} RunInv(st: State, limits: Limits, steps: seq<Step>)
    requires Inv(st, limits) && limits.requests >= 1 && ValidRun(st, limits, steps)
    ensures Inv(Run(st, limits, steps), limits)
    decreases |steps|
  {
    hide Inv, Next, Enabled;
    if steps != [] {
      StepInv(st, limits, steps[0]);
      RunInv(Next(st, limits, steps[0]), limits, steps[1..]);
    }
  }

  /** Over every interleaving, the requests counted for any day are at most the limit less one, plus the largest number of
      requests that had read a count under the limit and were not yet tracked, plus the reads made on that day by checks
      that had begun before it. */
  lemma OvershootBound(limits: Limits, steps: seq<Step>, day: nat)
    requires limits.requests >= 1 && ValidRun(INIT, limits, steps)
    ensures var end := Run(INIT, limits, steps);
            Count(end.requests, day) <= limits.requests - 1 + end.peaks.inFlight + Count(end.stale, day)
  {
    forall kind ensures Many(INIT.place, kind) == 0 { assert Where(INIT.place, kind) == {}; }
    RunInv(INIT, limits, steps);
    assert DayBounded(Run(INIT, limits, steps), limits, day);
  }

  lemma {:induction false} NothingAdmittedFrom(st: State, limits: Limits, steps: seq<Step>)
    requires limits.requests <= 0 && ValidRun(st, limits, steps) && st.requests == map[]
    requires forall r | r in st.place :: st.place[r].Begun? || (st.place[r].Read? && st.place[r].count == 0)
    ensures Run(st, limits, steps).requests == map[]
    decreases |steps|
  {
    hide NextPeaks;
    if steps != [] { NothingAdmittedFrom(Next(st, limits, steps[0]), limits, steps[1..]); }
  }

  /** A limit of zero or less admits and counts nothing. */
  lemma NothingAdmitted(limits: Limits, steps: seq<Step>)
    requires limits.requests <= 0 && ValidRun(INIT, limits, steps)
    ensures Run(INIT, limits, steps).requests == map[]
  {
    NothingAdmittedFrom(INIT, limits, steps);
  }

  // ---------------------------------------------------------------------------------------
  // The bound by admitted requests
  // ---------------------------------------------------------------------------------------

  ghost predicate NoStale(st: State) {
    forall day: nat :: Count(st.stale, day) <= 0
  }

  ghost predicate DayOwed(st: State, limits: Limits, day: nat) {
    Count(st.requests, day) + Many(st.place, Owed(st.day, day)) <= limits.requests - 1 + st.peaks.admitted
  }

  /** A check between its reads shows that the limit is not reached. */
  ghost predicate ApartInv(st: State, limits: Limits) {
    && Timely(st) && Many(st.place, Untracked) <= st.peaks.admitted && (forall day: nat :: DayOwed(st, limits, day))
    && (Many(st.place, Between(limits.requests)) > 0 ==> Count(st.requests, st.day) < limits.requests)
  }

  lemma OwedWithin(place: map<nat, Place>, today: nat, day: nat)
    ensures Many(place, Owed(today, day)) <= Many(place, Untracked)
  {
    ManyWithin(place, Owed(today, day), Untracked);
  }

  lemma OwedStep(st: State, limits: Limits, step: Step, day: nat)
    requires ApartInv(st, limits) && Enabled(st, step) && limits.requests >= 1 && !step.Midnight?
    ensures DayOwed(Next(st, limits, step), limits, day)
  {
    assert DayOwed(st, limits, day);
    var p := Moved(st, limits, step);
    ManyMoved(st.place, step.req, p, Owed(st.day, day));
    ManyMoved(st.place, step.req, p, Between(limits.requests));
    OwedWithin(NextPlaces(st, limits, step), st.day, day);
    hide Many, Timely;
  }

  lemma OwedAtMidnight(st: State, limits: Limits, day: nat)
    requires ApartInv(st, limits) && limits.requests >= 1
    ensures DayOwed(Next(st, limits, Midnight), limits, day)
  {
    assert DayOwed(st, limits, day);
    OwedWithin(st.place, st.day + 1, day);
    if day != st.day + 1 {
      ManyWithin(st.place, Owed(st.day + 1, day), Owed(st.day, day));
    }
    hide Many;
  }

  lemma BetweenStep(st: State, limits: Limits, step: Step)
    requires ApartInv(st, limits) && Enabled(st, step) && limits.requests >= 1
    requires !StaleRead(st, limits, step) && NextPeaks(st, limits, step).between == 0
    ensures var next := Next(st, limits, step);
            Many(next.place, Between(limits.requests)) > 0 ==> Count(next.requests, next.day) < limits.requests
  {
    if !step.Midnight? { ManyMoved(st.place, step.req, Moved(st, limits, step), Between(limits.requests)); }
    hide Many;
  }

  lemma ApartStep(st: State, limits: Limits, step: Step)
    requires ApartInv(st, limits) && Enabled(st, step) && limits.requests >= 1
    requires !StaleRead(st, limits, step) && NextPeaks(st, limits, step).between == 0
    ensures ApartInv(Next(st, limits, step), limits)
  {
    TimelyStep(st, limits, step);
    BetweenStep(st, limits, step);
    forall day: nat
      ensures DayOwed(Next(st, limits, step), limits, day)
    {
      hide DayOwed, Next, Enabled, Timely;
      if step.Midnight? { OwedAtMidnight(st, limits, day); } else { OwedStep(st, limits, step, day); }
    }
    hide DayOwed, Timely, Many;
  }

  lemma {:induction false} MarksGrow(st: State, limits: Limits, steps: seq<Step>, day: nat)
    requires ValidRun(st, limits, steps)
    ensures st.peaks.between <= Run(st, limits, steps).peaks.between && Count(st.stale, day) <= Count(Run(st, limits, steps).stale, day)
    decreases |steps|
  {
    if steps != [] {
      assert st.peaks.between <= Next(st, limits, steps[0]).peaks.between;
      assert Count(st.stale, day) <= Count(Next(st, limits, steps[0]).stale, day);
      hide Next, Enabled;
      MarksGrow(Next(st, limits, steps[0]), limits, steps[1..], day);
    }
  }

  lemma {:induction false} ApartRun(st: State, limits: Limits, steps: seq<Step>)
    requires ApartInv(st, limits) && limits.requests >= 1 && ValidRun(st, limits, steps) && forall d: nat :: Count(st.stale, d) >= 0
    requires Run(st, limits, steps).peaks.between == 0 && NoStale(Run(st, limits, steps))
    ensures ApartInv(Run(st, limits, steps), limits)
    decreases |steps|
  {
    if steps != [] {
      var next := Next(st, limits, steps[0]);
      forall d: nat ensures 0 <= Count(st.stale, d) <= Count(next.stale, d) <= 0 {
        MarksGrow(next, limits, steps[1..], d);
        MarksGrow(st, limits, steps, d);
      }
      MarksGrow(next, limits, steps[1..], st.day);
      assert !StaleRead(st, limits, steps[0]) by { assert Count(next.stale, st.day) <= 0 <= Count(st.stale, st.day); }
      assert next.peaks == NextPeaks(st, limits, steps[0]);
      hide ApartInv, Next, NextPeaks;
      ApartStep(st, limits, steps[0]);
      ApartRun(next, limits, steps[1..]);
    }
  }

  /** When nothing is tracked while a check is between its reads, and no check reads for an earlier day, the requests that
      are admitted and not tracked bound the overshoot. */
  lemma AdmittedBound(limits: Limits, steps: seq<Step>, day: nat)
    requires limits.requests >= 1 && ValidRun(INIT, limits, steps)
    requires Run(INIT, limits, steps).peaks.between == 0 && NoStale(Run(INIT, limits, steps))
    ensures Count(Run(INIT, limits, steps).requests, day) <= limits.requests - 1 + Run(INIT, limits, steps).peaks.admitted
  {
    forall kind ensures Many(INIT.place, kind) == 0 { assert Where(INIT.place, kind) == {}; }
    ApartRun(INIT, limits, steps);
    assert DayOwed(Run(INIT, limits, steps), limits, day);
  }

  // ---------------------------------------------------------------------------------------
  // Building runs
  // ---------------------------------------------------------------------------------------

  lemma {:induction false} RunConcat(st: State, limits: Limits, a: seq<Step>, b: seq<Step>)
    requires ValidRun(st, limits, a) && ValidRun(Run(st, limits, a), limits, b)
    ensures ValidRun(st, limits, a + b) && Run(st, limits, a + b) == Run(Run(st, limits, a), limits, b)
    decreases |a|
  {
    hide Next, Enabled;
    if a == [] {
      assert a + b == b;
    } else {
      assert (a + b)[0] == a[0] && (a + b)[1..] == a[1..] + b;
      RunConcat(Next(st, limits, a[0]), limits, a[1..], b);
    }
  }

  lemma OneStep(st: State, limits: Limits, step: Step)
    requires Enabled(st, step)
    ensures ValidRun(st, limits, [step]) && Run(st, limits, [step]) == Next(st, limits, step)
  {
    hide Next, Enabled;
    assert ValidRun(Next(st, limits, step), limits, []);
  }

  /** Checks that have begun and nothing else: these count for nothing. */
  ghost predicate Idle(place: map<nat, Place>) {
    forall r | r in place :: place[r].Begun?
  }

  lemma IdleCounts(place: map<nat, Place>, r: nat, p: Place, kind: Kind)
    requires Idle(place)
    ensures Many(place, kind) == 0 && Many(place[r := p], kind) == One(Is(kind, p))
  {
    assert Where(place, kind) == {};
    ManyMoved(place, r, Some(p), kind);
    hide Many;
  }

  /** The peaks once a single request is in flight. */
  function WithOne(peaks: Peaks, p: Place, limit: int): Peaks {
    Peaks(Max(One(Is(InFlight(limit), p)), peaks.inFlight), Max(One(Is(Untracked, p)), peaks.admitted), peaks.between)
  }

  /** One step of the only active request. */
  lemma SoloStep(st: State, limits: Limits, step: Step, rest: map<nat, Place>)
    requires Enabled(st, step) && !step.Midnight? && Idle(rest) && step.req !in rest && rest == st.place - {step.req}
    ensures var p, next := Moved(st, limits, step), Next(st, limits, step);
            && next.place == (if p.Some? then rest[step.req := p.value] else rest)
            && next.peaks == (if p.Some? then WithOne(st.peaks, p.value, limits.requests) else st.peaks)
  {
    var p := Moved(st, limits, step);
    var place := NextPlaces(st, limits, step);
    assert place == if p.Some? then rest[step.req := p.value] else rest;
    var some := if p.Some? then p.value else Begun(0);
    IdleCounts(rest, step.req, some, InFlight(limits.requests));
    IdleCounts(rest, step.req, some, Untracked);
    IdleCounts(rest, step.req, some, Between(limits.requests));
    hide Many;
  }

  /** From the first read to the record, with nobody else active. */
  function Finish(r: nat): seq<Step> {
    [ReadRequests(r), ReadTokens(r), BeginTrack(r), Track(r, 0)]
  }

  lemma FinishRun(st: State, limits: Limits, r: nat)
    requires Idle(st.place) && r in st.place
    requires Count(st.requests, st.place[r].day) < limits.requests && Count(st.tokens, st.place[r].day) < limits.tokens
    ensures ValidRun(st, limits, Finish(r))
    ensures var end := Run(st, limits, Finish(r));
            && end.day == st.day && end.place == st.place - {r}
            && end.requests == Added(st.requests, st.day, 1) && end.tokens == Added(st.tokens, st.day, 0)
            && end.stale == (if st.place[r].day != st.day then Added(st.stale, st.day, 1) else st.stale)
            && end.peaks == Peaks(Max(1, st.peaks.inFlight), Max(1, st.peaks.admitted), st.peaks.between)
  {
    hide NextPlaces, NextPeaks, Idle, Count;
    RestIdle(st.place, r);
    var rest := st.place - {r};
    SoloStep(st, limits, ReadRequests(r), rest);
    var s1 := Next(st, limits, ReadRequests(r));
    assert s1.place - {r} == rest;
    SoloStep(s1, limits, ReadTokens(r), rest);
    var s2 := Next(s1, limits, ReadTokens(r));
    assert s2.place - {r} == rest;
    SoloStep(s2, limits, BeginTrack(r), rest);
    var s3 := Next(s2, limits, BeginTrack(r));
    assert s3.place - {r} == rest;
    SoloStep(s3, limits, Track(r, 0), rest);
    hide Run, ValidRun;
    FourSteps(st, limits, Finish(r));
  }

  lemma RestIdle(place: map<nat, Place>, r: nat)
    requires Idle(place)
    ensures Idle(place - {r}) && (r in place ==> place[r].Begun?)
  {
  }

  lemma FourSteps(st: State, limits: Limits, steps: seq<Step>)
    requires |steps| == 4 && Enabled(st, steps[0]) && Enabled(Next(st, limits, steps[0]), steps[1])
    requires var s2 := Next(Next(st, limits, steps[0]), limits, steps[1]);
             Enabled(s2, steps[2]) && Enabled(Next(s2, limits, steps[2]), steps[3])
    ensures ValidRun(st, limits, steps)
    ensures Run(st, limits, steps) == Next(Next(Next(Next(st, limits, steps[0]), limits, steps[1]), limits, steps[2]), limits, steps[3])
  {
    hide Next, Enabled;
    var s1 := Next(st, limits, steps[0]);
    var s2 := Next(s1, limits, steps[1]);
    var s3 := Next(s2, limits, steps[2]);
    assert steps[1..][1..] == steps[2..] && steps[2..][1..] == steps[3..] && steps[3..] == [steps[3]];
    OneStep(s3, limits, steps[3]);
    assert ValidRun(s2, limits, steps[2..]) && Run(s2, limits, steps[2..]) == Run(s3, limits, steps[3..]);
    assert ValidRun(s1, limits, steps[1..]) && Run(s1, limits, steps[1..]) == Run(s2, limits, steps[2..]);
  }

  lemma BeginRun(st: State, limits: Limits, r: nat)
    requires Idle(st.place) && r !in st.place
    ensures ValidRun(st, limits, [Begin(r)]) && Run(st, limits, [Begin(r)]) == st.(place := st.place[r := Begun(st.day)])
  {
    SoloStep(st, limits, Begin(r), st.place);
    OneStep(st, limits, Begin(r));
    hide NextPlaces, NextPeaks, Idle;
  }

  /** `n` requests one after the other, numbered from `first`. */
  function OneByOne(n: nat, first: nat): seq<Step> {
    if n == 0 then [] else OneByOne(n - 1, first) + ([Begin(first + n - 1)] + Finish(first + n - 1))
  }

  lemma OneRun(st: State, limits: Limits, r: nat)
    requires Idle(st.place) && r !in st.place
    requires Count(st.requests, st.day) < limits.requests && Count(st.tokens, st.day) < limits.tokens
    ensures var steps := [Begin(r)] + Finish(r);
            && ValidRun(st, limits, steps)
            && Run(st, limits, steps) == AfterOne(st)
  {
    var begun := st.(place := st.place[r := Begun(st.day)]);
    BeginRun(st, limits, r);
    FinishRun(begun, limits, r);
    assert begun.place - {r} == st.place;
    hide Run, ValidRun, Count, Added;
    RunConcat(st, limits, [Begin(r)], Finish(r));
  }

  /** The day has been used one request at a time. */
  ghost predicate UsedInTurn(end: State, st: State, n: nat) {
    && end.day == st.day && end.place == st.place && end.stale == st.stale && end.peaks.between == st.peaks.between
    && Count(end.requests, st.day) == Count(st.requests, st.day) + n && Count(end.tokens, st.day) == Count(st.tokens, st.day)
    && (forall d | d != st.day :: Count(end.requests, d) == Count(st.requests, d) && Count(end.tokens, d) == Count(st.tokens, d))
    && end.peaks.inFlight <= Max(1, st.peaks.inFlight) && end.peaks.admitted <= Max(1, st.peaks.admitted)
  }

  /** The state after one request alone. */
  function AfterOne(st: State): State {
    st.(requests := Added(st.requests, st.day, 1), tokens := Added(st.tokens, st.day, 0),
        peaks := Peaks(Max(1, st.peaks.inFlight), Max(1, st.peaks.admitted), st.peaks.between))
  }

  lemma UsedOnceMore(before: State, st: State, n: nat)
    requires UsedInTurn(before, st, n)
    ensures UsedInTurn(AfterOne(before), st, n + 1)
  {
  }

  lemma OneByOneIs(n: nat, first: nat)
    ensures OneByOne(n, first) == if n == 0 then [] else OneByOne(n - 1, first) + ([Begin(first + n - 1)] + Finish(first + n - 1))
  {
  }

  lemma NoTurns(st: State, limits: Limits)
    ensures ValidRun(st, limits, []) && UsedInTurn(Run(st, limits, []), st, 0)
  {
  }

  lemma RoomForOne(before: State, st: State, limits: Limits, n: nat)
    requires UsedInTurn(before, st, n) && Count(st.requests, st.day) + n < limits.requests && Count(st.tokens, st.day) < limits.tokens
    ensures Count(before.requests, before.day) < limits.requests && Count(before.tokens, before.day) < limits.tokens && before.place == st.place
  {
  }

  lemma {:induction false} OneByOneRun(st: State, limits: Limits, n: nat, first: nat)
    requires Idle(st.place) && (forall r | r in st.place :: r < first)
    requires Count(st.requests, st.day) + n <= limits.requests && Count(st.tokens, st.day) < limits.tokens
    ensures ValidRun(st, limits, OneByOne(n, first)) && UsedInTurn(Run(st, limits, OneByOne(n, first)), st, n)
    decreases n
  {
    hide *;
    OneByOneIs(n, first);
    if n == 0 {
      NoTurns(st, limits);
      return;
    }
    OneByOneRun(st, limits, n - 1, first);
    var before := Run(st, limits, OneByOne(n - 1, first));
    RoomForOne(before, st, limits, n - 1);
    OneRun(before, limits, first + n - 1);
    UsedOnceMore(before, st, n - 1);
    RunConcat(st, limits, OneByOne(n - 1, first), [Begin(first + n - 1)] + Finish(first + n - 1));
  }

  // ---------------------------------------------------------------------------------------
  // Exactly when the bounds hold
  // ---------------------------------------------------------------------------------------

  /** A check that began yesterday reads yesterday's count after today's limit is used up. */
  lemma StaleReaderOverruns(limits: Limits) returns (steps: seq<Step>)
    requires limits.requests >= 1 && limits.tokens >= 1
    ensures ValidRun(INIT, limits, steps)
    ensures var end := Run(INIT, limits, steps);
            && Count(end.requests, 1) == limits.requests + 1 && end.peaks.inFlight <= 1 && end.peaks.admitted <= 1 && end.peaks.between == 0
            && forall d: nat :: Count(end.stale, d) <= 1
  {
    var began, turns := [Begin(0)] + [Midnight], OneByOne(limits.requests, 1);
    YesterdaysCheck(limits);
    hide Run, ValidRun, Finish, OneByOne, Next, Enabled;
    var s2 := Run(INIT, limits, began);
    OneByOneRun(s2, limits, limits.requests, 1);
    var s3 := Run(s2, limits, turns);
    LastInYesterday(s2, s3, limits);
    hide *;
    RunConcat(INIT, limits, began, turns);
    RunConcat(INIT, limits, began + turns, Finish(0));
    steps := began + turns + Finish(0);
  }

  /** Today's limit is used up; the check of yesterday still passes. */
  lemma LastInYesterday(s2: State, s3: State, limits: Limits)
    requires s2 == INIT.(place := map[0 := Begun(0)], day := 1) && limits.requests >= 1 && limits.tokens >= 1 && UsedInTurn(s3, s2, limits.requests)
    ensures ValidRun(s3, limits, Finish(0))
    ensures var end := Run(s3, limits, Finish(0));
            && Count(end.requests, 1) == limits.requests + 1 && end.peaks.inFlight <= 1 && end.peaks.admitted <= 1 && end.peaks.between == 0
            && forall d: nat :: Count(end.stale, d) <= 1
  {
    FinishRun(s3, limits, 0);
    hide Run, ValidRun, Finish, Next, Enabled;
  }

  lemma YesterdaysCheck(limits: Limits)
    ensures ValidRun(INIT, limits, [Begin(0)] + [Midnight])
    ensures Run(INIT, limits, [Begin(0)] + [Midnight]) == INIT.(place := map[0 := Begun(0)], day := 1)
  {
    BeginRun(INIT, limits, 0);
    var s1 := INIT.(place := map[0 := Begun(0)]);
    assert INIT.place[0 := Begun(INIT.day)] == s1.place;
    hide Run, ValidRun;
    MidnightRun(s1, limits);
    RunConcat(INIT, limits, [Begin(0)], [Midnight]);
  }

  lemma MidnightRun(st: State, limits: Limits)
    requires Idle(st.place)
    ensures ValidRun(st, limits, [Midnight]) && Run(st, limits, [Midnight]) == st.(day := st.day + 1)
  {
    OneStep(st, limits, Midnight);
    IdleCounts(st.place, 0, Begun(0), InFlight(limits.requests));
    IdleCounts(st.place, 0, Begun(0), Untracked);
    hide Many;
  }

  ghost predicate WithinInFlight(limits: Limits, steps: seq<Step>)
    requires ValidRun(INIT, limits, steps)
  {
    forall day: nat :: Count(Run(INIT, limits, steps).requests, day) <= limits.requests - 1 + Run(INIT, limits, steps).peaks.inFlight
  }

  /** At most `stale` reads a day for an earlier day. */
  ghost predicate StaleWithin(limits: Limits, steps: seq<Step>, stale: nat)
    requires ValidRun(INIT, limits, steps)
  {
    forall day: nat :: Count(Run(INIT, limits, steps).stale, day) <= stale
  }

  ghost predicate AlwaysWithinInFlight(limits: Limits, stale: nat) {
    forall steps | ValidRun(INIT, limits, steps) && StaleWithin(limits, steps, stale) :: WithinInFlight(limits, steps)
  }

  /** The requests in flight alone bound the overshoot of all runs with at most `stale` reads a day for an earlier day if
      and only if there is no such read. */
  lemma InFlightBoundIff(limits: Limits, stale: nat)
    requires limits.requests >= 1 && limits.tokens >= 1
    ensures AlwaysWithinInFlight(limits, stale) <==> stale == 0
  {
    if stale == 0 {
      forall steps | ValidRun(INIT, limits, steps) && StaleWithin(limits, steps, stale)
        ensures WithinInFlight(limits, steps)
      {
        forall day: nat
          ensures Count(Run(INIT, limits, steps).requests, day) <= limits.requests - 1 + Run(INIT, limits, steps).peaks.inFlight
        {
          OvershootBound(limits, steps, day);
          assert Count(Run(INIT, limits, steps).stale, day) <= 0;
        }
      }
    } else {
      var steps := StaleReaderOverruns(limits);
      assert StaleWithin(limits, steps, stale);
      assert Count(Run(INIT, limits, steps).requests, 1) > limits.requests - 1 + Run(INIT, limits, steps).peaks.inFlight;
      assert !WithinInFlight(limits, steps);
    }
  }

  /** `n` checks in a row begin and read the request counter. */
  function Readers(n: nat): seq<Step> {
    if n == 0 then [] else Readers(n - 1) + ([Begin(n - 1)] + [ReadRequests(n - 1)])
  }

  /** `n` checks finish one after the other, each tracked before the next finishes. */
  function Finishers(n: nat): seq<Step> {
    if n == 0 then [] else FinisherSteps(n - 1) + Finishers(n - 1)
  }

  /** The first `n` requests have all read the same count on day zero. */
  function ReadBy(n: nat, count: int): (place: map<nat, Place>)
    ensures forall r: nat :: r in place <==> r < n
    ensures forall r | r in place :: place[r] == Read(0, count)
  {
    if n == 0 then map[] else ReadBy(n - 1, count)[n - 1 := Read(0, count)]
  }

  lemma {:induction false} ReadByCounts(n: nat, count: int, kind: Kind)
    ensures Many(ReadBy(n, count), kind) == if Is(kind, Read(0, count)) then n else 0
  {
    if n == 0 {
      assert Where(ReadBy(0, count), kind) == {};
    } else {
      ReadByCounts(n - 1, count, kind);
      ManyMoved(ReadBy(n - 1, count), n - 1, Some(Read(0, count)), kind);
    }
  }

  /** One step while `n` others stand between their reads. */
  lemma CrowdStep(st: State, limits: Limits, step: Step, n: nat, count: int)
    requires Enabled(st, step) && !step.Midnight? && count < limits.requests
    requires step.req == n && st.place - {n} == ReadBy(n, count)
    ensures var p, next := Moved(st, limits, step), Next(st, limits, step);
            && next.place == Placed(ReadBy(n, count), n, p)
            && next.peaks.inFlight == Max(n + One(p.Some? && Is(InFlight(limits.requests), p.value)), st.peaks.inFlight)
            && next.peaks.admitted == Max(One(p.Some? && Is(Untracked, p.value)), st.peaks.admitted)
            && next.peaks.between == (if step.Track? then Max(n, st.peaks.between) else st.peaks.between)
  {
    var p, rest := Moved(st, limits, step), ReadBy(n, count);
    assert NextPlaces(st, limits, step) == Placed(rest, n, p);
    ManyMoved(rest, n, p, InFlight(limits.requests));
    ManyMoved(rest, n, p, Untracked);
    ManyMoved(rest, n, p, Between(limits.requests));
    ReadByCounts(n, count, InFlight(limits.requests));
    ReadByCounts(n, count, Untracked);
    ReadByCounts(n, count, Between(limits.requests));
    hide Many, ReadBy;
  }

  /** All on day zero, with one request left under the limit. */
  ghost predicate AlmostFull(st: State, limits: Limits) {
    && st.day == 0 && st.stale == map[] && st.peaks.admitted <= 1 && limits.requests >= 1
    && Count(st.requests, 0) == limits.requests - 1 && Count(st.tokens, 0) < limits.tokens
  }

  lemma ReaderRun(st: State, limits: Limits, n: nat)
    requires AlmostFull(st, limits) && st.place == ReadBy(n, limits.requests - 1) && n <= st.peaks.inFlight
    ensures var steps := [Begin(n)] + [ReadRequests(n)];
            && ValidRun(st, limits, steps)
            && Run(st, limits, steps) == st.(place := ReadBy(n + 1, limits.requests - 1), peaks := st.peaks.(inFlight := Max(n + 1, st.peaks.inFlight)))
  {
    var count := limits.requests - 1;
    assert st.place - {n} == st.place;
    CrowdStep(st, limits, Begin(n), n, count);
    var s1 := Next(st, limits, Begin(n));
    assert s1.place - {n} == ReadBy(n, count);
    assert s1 == st.(place := s1.place) && Moved(s1, limits, ReadRequests(n)) == Some(Read(0, count));
    assert Placed(ReadBy(n, count), n, Some(Read(0, count))) == ReadBy(n + 1, count);
    hide NextPlaces, NextPeaks, ReadBy, Placed, Run, ValidRun, Moved, AlmostFull;
    OneStep(st, limits, Begin(n));
    SecondReader(st, s1, limits, n);
    hide *;
    RunConcat(st, limits, [Begin(n)], [ReadRequests(n)]);
  }

  lemma SecondReader(st: State, s1: State, limits: Limits, n: nat)
    requires AlmostFull(st, limits) && n in s1.place && s1.place[n] == Begun(0) && s1 == st.(place := s1.place)
    requires s1.place - {n} == ReadBy(n, limits.requests - 1) && n <= st.peaks.inFlight
    ensures ValidRun(s1, limits, [ReadRequests(n)])
    ensures Run(s1, limits, [ReadRequests(n)])
         == st.(place := ReadBy(n + 1, limits.requests - 1), peaks := st.peaks.(inFlight := Max(n + 1, st.peaks.inFlight)))
  {
    var count := limits.requests - 1;
    CrowdStep(s1, limits, ReadRequests(n), n, count);
    assert Placed(ReadBy(n, count), n, Some(Read(0, count))) == ReadBy(n + 1, count);
    hide NextPlaces, NextPeaks, ReadBy, Placed, Run, ValidRun;
    OneStep(s1, limits, ReadRequests(n));
  }

  lemma {:induction false} ReadersRun(st: State, limits: Limits, n: nat)
    requires AlmostFull(st, limits) && st.place == map[]
    ensures ValidRun(st, limits, Readers(n))
    ensures Run(st, limits, Readers(n)) == st.(place := ReadBy(n, limits.requests - 1), peaks := st.peaks.(inFlight := Max(n, st.peaks.inFlight)))
  {
    if n == 0 {
      return;
    }
    hide Run, ValidRun, ReadBy, Next, Enabled;
    ReadersRun(st, limits, n - 1);
    ReaderRun(Run(st, limits, Readers(n - 1)), limits, n - 1);
    RunConcat(st, limits, Readers(n - 1), [Begin(n - 1)] + [ReadRequests(n - 1)]);
  }

  /** What a finisher leaves behind while `n` others still wait. */
  ghost predicate FinishedOne(end: State, st: State, n: nat) {
    && end.day == st.day && end.stale == st.stale && end.peaks.inFlight == st.peaks.inFlight
    && end.peaks.admitted <= Max(1, st.peaks.admitted) && end.peaks.between == Max(n, st.peaks.between)
    && Count(end.requests, st.day) == Count(st.requests, st.day) + 1 && Count(end.tokens, st.day) == Count(st.tokens, st.day)
  }

  lemma FinisherRun(st: State, limits: Limits, n: nat, count: int)
    requires st.day == 0 && st.place == ReadBy(n + 1, count) && count < limits.requests && n + 1 <= st.peaks.inFlight
    requires Count(st.tokens, 0) < limits.tokens
    ensures var steps := FinisherSteps(n);
            ValidRun(st, limits, steps) && Run(st, limits, steps).place == ReadBy(n, count) && FinishedOne(Run(st, limits, steps), st, n)
  {
    assert st.place - {n} == ReadBy(n, count);
    assert st.place[n] == Read(0, count);
    CrowdStep(st, limits, ReadTokens(n), n, count);
    var s1 := Next(st, limits, ReadTokens(n));
    assert s1.place - {n} == ReadBy(n, count);
    CrowdStep(s1, limits, BeginTrack(n), n, count);
    var s2 := Next(s1, limits, BeginTrack(n));
    assert s2.place - {n} == ReadBy(n, count);
    CrowdStep(s2, limits, Track(n, 0), n, count);
    hide NextPlaces, NextPeaks, ReadBy, Run, ValidRun;
    OneStep(st, limits, ReadTokens(n));
    OneStep(s1, limits, BeginTrack(n));
    OneStep(s2, limits, Track(n, 0));
    assert Next(s2, limits, Track(n, 0)).place == ReadBy(n, count) && FinishedOne(Next(s2, limits, Track(n, 0)), st, n);
    assert FinisherSteps(n) == [ReadTokens(n)] + [BeginTrack(n)] + [Track(n, 0)];
    hide *;
    RunConcat(st, limits, [ReadTokens(n)], [BeginTrack(n)]);
    RunConcat(st, limits, [ReadTokens(n)] + [BeginTrack(n)], [Track(n, 0)]);
  }

  /** What all `n` finishers leave behind. */
  ghost predicate FinishedAll(end: State, st: State, n: nat) {
    && end.stale == st.stale && end.peaks.inFlight == st.peaks.inFlight && end.peaks.admitted <= Max(1, st.peaks.admitted)
    && end.peaks.between == (if n == 0 then st.peaks.between else Max(n - 1, st.peaks.between))
    && Count(end.requests, 0) == Count(st.requests, 0) + n
  }

  function FinisherSteps(n: nat): seq<Step> {
    [ReadTokens(n)] + [BeginTrack(n)] + [Track(n, 0)]
  }

  lemma FinishersAre(n: nat)
    ensures Finishers(n) == if n == 0 then [] else FinisherSteps(n - 1) + Finishers(n - 1)
  {
  }

  lemma NoFinishers(st: State, limits: Limits)
    ensures ValidRun(st, limits, []) && FinishedAll(Run(st, limits, []), st, 0)
  {
  }

  lemma FinishedMore(mid: State, end: State, st: State, limits: Limits, n: nat)
    requires st.day == 0 && n >= 1 && FinishedOne(mid, st, n - 1) && n <= st.peaks.inFlight && Count(st.tokens, 0) < limits.tokens
    ensures mid.day == 0 && n - 1 <= mid.peaks.inFlight && Count(mid.tokens, 0) < limits.tokens
    ensures FinishedAll(end, mid, n - 1) ==> FinishedAll(end, st, n)
  {
  }

  lemma {:induction false} FinishersRun(st: State, limits: Limits, n: nat, count: int)
    requires st.day == 0 && st.place == ReadBy(n, count) && count < limits.requests && n <= st.peaks.inFlight
    requires Count(st.tokens, 0) < limits.tokens
    ensures ValidRun(st, limits, Finishers(n)) && FinishedAll(Run(st, limits, Finishers(n)), st, n)
    decreases n
  {
    hide *;
    FinishersAre(n);
    if n == 0 {
      NoFinishers(st, limits);
      return;
    }
    FinisherRun(st, limits, n - 1, count);
    var mid := Run(st, limits, FinisherSteps(n - 1));
    FinishedMore(mid, mid, st, limits, n);
    FinishersRun(mid, limits, n - 1, count);
    FinishedMore(mid, Run(mid, limits, Finishers(n - 1)), st, limits, n);
    RunConcat(st, limits, FinisherSteps(n - 1), Finishers(n - 1));
  }

  /** For every limit, any number of requests can go over it in one day although never more than one is admitted and
      untracked at a time: each has read the counter before the others were tracked.  The in-flight bound is met with
      equality. */
  lemma OvershootReached(limits: Limits, n: nat) returns (steps: seq<Step>)
    requires limits.requests >= 1 && limits.tokens >= 1 && n >= 1
    ensures ValidRun(INIT, limits, steps)
    ensures var end := Run(INIT, limits, steps);
            && Count(end.requests, 0) == limits.requests - 1 + n && end.stale == map[]
            && end.peaks.inFlight == n && end.peaks.admitted <= 1 && end.peaks.between == n - 1
  {
    hide Run, ValidRun, OneByOne, Readers, Finishers, ReadBy;
    OneByOneRun(INIT, limits, limits.requests - 1, n);
    var turns := OneByOne(limits.requests - 1, n);
    var s1 := Run(INIT, limits, turns);
    assert AlmostFull(s1, limits) && s1.place == map[] && s1.peaks.inFlight <= 1 && s1.peaks.between == 0;
    hide UsedInTurn;
    ReadersRun(s1, limits, n);
    var s2 := Run(s1, limits, Readers(n));
    FinishersRun(s2, limits, n, limits.requests - 1);
    RunConcat(INIT, limits, turns, Readers(n));
    RunConcat(INIT, limits, turns + Readers(n), Finishers(n));
    steps := turns + Readers(n) + Finishers(n);
  }

  ghost predicate WithinAdmitted(limits: Limits, steps: seq<Step>)
    requires ValidRun(INIT, limits, steps)
  {
    forall day: nat :: Count(Run(INIT, limits, steps).requests, day) <= limits.requests - 1 + Run(INIT, limits, steps).peaks.admitted
  }

  /** At most `between` checks between their two reads whenever a request is tracked. */
  ghost predicate BetweenWithin(limits: Limits, steps: seq<Step>, between: nat)
    requires ValidRun(INIT, limits, steps)
  {
    Run(INIT, limits, steps).peaks.between <= between
  }

  ghost predicate AlwaysWithinAdmitted(limits: Limits, between: nat, stale: nat) {
    forall steps | ValidRun(INIT, limits, steps) && BetweenWithin(limits, steps, between) && StaleWithin(limits, steps, stale) ::
      WithinAdmitted(limits, steps)
  }

  /** The requests admitted and not tracked bound the overshoot of all runs with at most `between` checks between their
      reads while something is tracked, and at most `stale` reads a day for an earlier day, if and only if there are
      none of either. */
  lemma AdmittedBoundIff(limits: Limits, between: nat, stale: nat)
    requires limits.requests >= 1 && limits.tokens >= 1
    ensures AlwaysWithinAdmitted(limits, between, stale) <==> between == 0 && stale == 0
  {
    if between == 0 && stale == 0 {
      forall steps | ValidRun(INIT, limits, steps) && BetweenWithin(limits, steps, between) && StaleWithin(limits, steps, stale)
        ensures WithinAdmitted(limits, steps)
      {
        forall day: nat
          ensures Count(Run(INIT, limits, steps).requests, day) <= limits.requests - 1 + Run(INIT, limits, steps).peaks.admitted
        {
          AdmittedBound(limits, steps, day);
        }
      }
    } else if stale > 0 {
      var steps := StaleReaderOverruns(limits);
      assert StaleWithin(limits, steps, stale) && BetweenWithin(limits, steps, between);
      assert Count(Run(INIT, limits, steps).requests, 1) > limits.requests - 1 + Run(INIT, limits, steps).peaks.admitted;
      assert !WithinAdmitted(limits, steps);
    } else {
      var steps := OvershootReached(limits, 2);
      assert StaleWithin(limits, steps, stale) && BetweenWithin(limits, steps, between);
      assert Count(Run(INIT, limits, steps).requests, 0) > limits.requests - 1 + Run(INIT, limits, steps).peaks.admitted;
      assert !WithinAdmitted(limits, steps);
    }
  }
}
