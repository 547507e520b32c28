/**
 The data plane's in-memory token bucket (`TokenBucketLimiter`) and the pipeline step that turns
 its wait time into a Retry-After header.  A bucket is written only when a call is admitted, and
 it lives in a cache that forgets it 120 seconds later.
 */
module DataPlaneBucket {
  import opened Basics
  import opened TtlCache

  const BUCKET_TTL := 120.0

  datatype Bucket = Bucket(tokens: real, lastRefill: real)

  datatype Call = Call(key: string, rpm: int, cost: int, now: real)

  /** `write` is the bucket the call stores, if it stores one. */
  datatype Decision = Decision(allowed: bool, wait: real, write: Option<Bucket>)

  type Buckets = map<string, Stamped<Bucket>>

  function Min(a: real, b: real): real {
    if a <= b then a else b
  }

  function Rate(rpm: int): real {
    rpm as real / 60.0
  }

  function Refill(capacity: real, tokens: real, rate: real, elapsed: real): real {
    Min(capacity, tokens + elapsed * rate)
  }

  /** Tokens on hand at `now`; a key without a bucket has a full one. */
  function Available(bucket: Option<Bucket>, rpm: int, now: real): real {
    match bucket
    case None => rpm as real
    case Some(b) => Refill(rpm as real, b.tokens, Rate(rpm), now - b.lastRefill)
  }

  /** One call against the bucket that the lookup produced. */
  function Decide(bucket: Option<Bucket>, rpm: int, cost: int, now: real): Decision {
    if rpm <= 0 then
      Decision(true, 0.0, None)
    else if bucket.None? then
      Decision(true, 0.0, Some(Bucket(rpm as real - cost as real, now)))
    else
      var tokens := Available(bucket, rpm, now);
      if tokens >= cost as real then
        Decision(true, 0.0, Some(Bucket(tokens - cost as real, now)))
      else
        Decision(false, (cost as real - tokens) / Rate(rpm), None)
  }

  function DecideIn(buckets: Buckets, c: Call): Decision {
    Decide(Get(buckets, BUCKET_TTL, c.key, c.now), c.rpm, c.cost, c.now)
  }

  function Next(buckets: Buckets, c: Call): Buckets {
    match DecideIn(buckets, c).write
    case None => buckets
    case Some(b) => Put(buckets, BUCKET_TTL, c.key, b, c.now)
  }

  class TokenBucketLimiter {
    var buckets: Buckets

    constructor ()
      ensures buckets == map[]
    {
      buckets := map[];
    }

    method CheckLimit(key: string, rpm: int, cost: int, now: real) returns (allowed: bool, wait: real)
      modifies this
      ensures var c := Call(key, rpm, cost, now);
              && allowed == DecideIn(old(buckets), c).allowed
              && wait == DecideIn(old(buckets), c).wait
              && buckets == Next(old(buckets), c)
    {
      if rpm <= 0 {
        return true, 0.0;
      }
      var bucket := Get(buckets, BUCKET_TTL, key, now);
      var maxTokens := rpm as real;
      var refillRate := rpm as real / 60.0;
      if bucket.None? {
        buckets := Put(buckets, BUCKET_TTL, key, Bucket(maxTokens - cost as real, now), now);
        return true, 0.0;
      }
      var tokens := bucket.value.tokens;
      var refillAmount := (now - bucket.value.lastRefill) * refillRate;
      tokens := if maxTokens <= tokens + refillAmount then maxTokens else tokens + refillAmount;
      assert tokens == Available(bucket, rpm, now);
      if tokens >= cost as real {
        buckets := Put(buckets, BUCKET_TTL, key, Bucket(tokens - cost as real, now), now);
        return true, 0.0;
      }
      var needed := cost as real - tokens;
      return false, needed / refillRate;
    }
  }

  // ---------------------------------------------------------------------------------------
  // Runs
  // ---------------------------------------------------------------------------------------

  /** Calls from time `t` on, in clock order. */
  ghost predicate OrderedFrom(calls: seq<Call>, t: real) {
    && (forall i :: 0 <= i < |calls| ==> t <= calls[i].now)
    && (forall i, j :: 0 <= i < j < |calls| ==> calls[i].now <= calls[j].now)
  }

  ghost predicate CostFits(c: Call) {
    c.rpm > 0 ==> c.cost <= c.rpm
  }

  function Outcomes(buckets: Buckets, calls: seq<Call>): seq<(bool, real)>
    decreases |calls|
  {
    if calls == [] then [] else
      var d := DecideIn(buckets, calls[0]);
      [(d.allowed, d.wait)] + Outcomes(Next(buckets, calls[0]), calls[1..])
  }

  /** The reference limiter: the same decision rule over a map that never forgets. */
  function RememberedOutcomes(all: map<string, Bucket>, calls: seq<Call>): seq<(bool, real)>
    decreases |calls|
  {
    if calls == [] then [] else
      var c := calls[0];
      var d := Decide(Recall(all, c.key), c.rpm, c.cost, c.now);
      [(d.allowed, d.wait)] + RememberedOutcomes(Remember(all, c.key, d), calls[1..])
  }

  function Recall(all: map<string, Bucket>, key: string): Option<Bucket> {
    if key in all then Some(all[key]) else None
  }

  function Remember(all: map<string, Bucket>, key: string, d: Decision): map<string, Bucket> {
    match d.write case None => all case Some(b) => all[key := b]
  }

  /** Every stored bucket is non-negative, was stamped when it was refilled, and not in the future. */
  ghost predicate Sound(buckets: Buckets, now: real) {
    forall k | k in buckets ::
      buckets[k].value.tokens >= 0.0 && buckets[k].value.lastRefill == buckets[k].storedAt <= now
  }

  lemma NextSound(buckets: Buckets, c: Call, t: real)
    requires Sound(buckets, t) && t <= c.now && CostFits(c)
    ensures Sound(Next(buckets, c), c.now)
  {
  }

  // ---------------------------------------------------------------------------------------
  // Expiry is invisible
  // ---------------------------------------------------------------------------------------

  /** The forgetful cache agrees with the full map, except on buckets idle for the whole TTL. */
  ghost predicate Forgets(buckets: Buckets, all: map<string, Bucket>, now: real) {
    && Sound(buckets, now)
    && (forall k | k in buckets :: k in all && all[k] == buckets[k].value)
    && (forall k | k in all :: all[k].tokens >= 0.0 && all[k].lastRefill <= now)
    && (forall k | k in all && k !in buckets :: all[k].lastRefill + BUCKET_TTL <= now)
  }

  /** An idle bucket is full again, whatever the limit of the call that looks at it. */
  lemma IdleIsFull(b: Bucket, rpm: int, now: real)
    requires rpm > 0 && b.tokens >= 0.0 && b.lastRefill + BUCKET_TTL <= now
    ensures Available(Some(b), rpm, now) == rpm as real
  {
    var r := Rate(rpm);
    ScaleMonotone(BUCKET_TTL, now - b.lastRefill, r);
  }

  lemma ScaleMonotone(a: real, b: real, r: real)
    requires a <= b && r >= 0.0
    ensures a * r <= b * r
  {
  }

  lemma StepAgrees(buckets: Buckets, all: map<string, Bucket>, c: Call, t: real)
    requires Forgets(buckets, all, t) && t <= c.now && CostFits(c)
    ensures DecideIn(buckets, c) == Decide(Recall(all, c.key), c.rpm, c.cost, c.now)
    ensures Forgets(Next(buckets, c), Remember(all, c.key, DecideIn(buckets, c)), c.now)
  {
    if c.rpm > 0 && c.key in all && Get(buckets, BUCKET_TTL, c.key, c.now).None? {
      IdleIsFull(all[c.key], c.rpm, c.now);
    }
  }

  lemma {:induction false} SameOutcomes(buckets: Buckets, all: map<string, Bucket>, calls: seq<Call>, t: real)
    requires Forgets(buckets, all, t) && OrderedFrom(calls, t)
    requires forall c | c in calls :: CostFits(c)
    ensures Outcomes(buckets, calls) == RememberedOutcomes(all, calls)
    decreases |calls|
  {
    if calls != [] {
      var c := calls[0];
      StepAgrees(buckets, all, c, t);
      SameOutcomes(Next(buckets, c), Remember(all, c.key, DecideIn(buckets, c)), calls[1..], c.now);
    }
  }

  /** Dropping a bucket 120 s after its last write changes no decision and no wait of any run, even
      when the limit differs from call to call. */
  lemma InvisibleExpiry(calls: seq<Call>, t: real)
    requires OrderedFrom(calls, t) && forall c | c in calls :: CostFits(c)
    ensures Outcomes(map[], calls) == RememberedOutcomes(map[], calls)
  {
    SameOutcomes(map[], map[], calls, t);
  }

  /** A call whose cost exceeds the limit is admitted whenever no bucket is remembered. */
  lemma OversizedCostForgotten(key: string, rpm: int, cost: int)
    requires 0 < rpm < cost
    ensures var calls := [Call(key, rpm, cost, 0.0), Call(key, rpm, cost, 120.0)];
            Outcomes(map[], calls) != RememberedOutcomes(map[], calls)
  {
    var first, second := Call(key, rpm, cost, 0.0), Call(key, rpm, cost, BUCKET_TTL);
    var calls := [first, second];
    assert calls[1..] == [second];
    var b := Bucket(rpm as real - cost as real, 0.0);
    assert Next(map[], first) == map[key := Stamped(b, 0.0)];
    assert Outcomes(map[key := Stamped(b, 0.0)], [second])[0].0;
    assert Recall(map[key := b], key) == Some(b);
    assert !RememberedOutcomes(map[key := b], [second])[0].0;
    assert Outcomes(map[], calls)[1].0 != RememberedOutcomes(map[], calls)[1].0;
  }

  ghost predicate ExpiryInvisible(calls: seq<Call>) {
    Outcomes(map[], calls) == RememberedOutcomes(map[], calls)
  }

  /** Every call has one of the given pairs of a limit and a cost. */
  ghost predicate CallsFrom(calls: seq<Call>, allowed: iset<(int, int)>) {
    forall i :: 0 <= i < |calls| ==> (calls[i].rpm, calls[i].cost) in allowed
  }

  ghost predicate AlwaysInvisible(allowed: iset<(int, int)>) {
    forall calls: seq<Call>, t: real | OrderedFrom(calls, t) && CallsFrom(calls, allowed) :: ExpiryInvisible(calls)
  }

  /** The bound on the cost is exact: expiry is invisible in all runs over a set of limits and costs if and only if every
      cost in it fits its limit. */
  lemma ExpiryInvisibleIffCostFits(allowed: iset<(int, int)>)
    ensures AlwaysInvisible(allowed) <==> forall rpm, cost | (rpm, cost) in allowed :: rpm <= 0 || cost <= rpm
  {
    if rpm, cost :| (rpm, cost) in allowed && rpm > 0 && cost > rpm {
      var calls := [Call("", rpm, cost, 0.0), Call("", rpm, cost, BUCKET_TTL)];
      OversizedCostForgotten("", rpm, cost);
      assert OrderedFrom(calls, 0.0) && CallsFrom(calls, allowed) && !ExpiryInvisible(calls);
    } else {
      forall calls: seq<Call>, t: real | OrderedFrom(calls, t) && CallsFrom(calls, allowed)
        ensures ExpiryInvisible(calls)
      {
        forall c | c in calls ensures CostFits(c) { assert (c.rpm, c.cost) in allowed; }
        InvisibleExpiry(calls, t);
      }
    }
  }

  // ---------------------------------------------------------------------------------------
  // How much a window can admit
  // ---------------------------------------------------------------------------------------

  /** Total cost admitted for `key` at times in [s, t]. */
  function AdmittedCost(buckets: Buckets, calls: seq<Call>, key: string, s: real, t: real): real
    decreases |calls|
  {
    if calls == [] then 0.0 else
      var c := calls[0];
      (if c.key == key && s <= c.now <= t && DecideIn(buckets, c).allowed then c.cost as real else 0.0)
        + AdmittedCost(Next(buckets, c), calls[1..], key, s, t)
  }

  /** The calls for `key` all use the same limit and cost at most `most`. */
  ghost predicate UsesLimit(calls: seq<Call>, key: string, rpm: int, most: int) {
    forall i :: 0 <= i < |calls| && calls[i].key == key ==> calls[i].rpm == rpm && calls[i].cost <= most
  }

  /** The key's own bucket is as `Sound` asks. */
  ghost predicate SoundAt(buckets: Buckets, key: string, now: real) {
    key in buckets ==> buckets[key].value.tokens >= 0.0 && buckets[key].value.lastRefill == buckets[key].storedAt <= now
  }

  lemma NextSoundAt(buckets: Buckets, c: Call, key: string, t: real)
    requires SoundAt(buckets, key, t) && t <= c.now && (c.key == key ==> CostFits(c))
    ensures SoundAt(Next(buckets, c), key, c.now)
  {
  }

  /** What the refill rate adds between two instants. */
  function Accrued(rpm: int, from: real, to: real): real {
    (to - from) * Rate(rpm)
  }

  function OnHand(buckets: Buckets, key: string, rpm: int, now: real): real {
    Available(Get(buckets, BUCKET_TTL, key, now), rpm, now)
  }

  lemma RefillGrowth(capacity: real, tokens: real, rate: real, a: real, b: real)
    requires capacity >= 0.0 && tokens >= 0.0 && rate >= 0.0 && 0.0 <= a <= b
    ensures 0.0 <= Refill(capacity, tokens, rate, a) <= Refill(capacity, tokens, rate, b) <= capacity
    ensures Refill(capacity, tokens, rate, b) <= Refill(capacity, tokens, rate, a) + (b - a) * rate
  {
    ScaleMonotone(0.0, a, rate);
    ScaleMonotone(0.0, b - a, rate);
    ElapsedSplits(a, 0.0, b, rate);
  }

  /** Tokens on hand grow at most at the refill rate, and expiry gives none away. */
  lemma OnHandIs(buckets: Buckets, key: string, rpm: int, now: real)
    requires SoundAt(buckets, key, now) && rpm > 0
    ensures OnHand(buckets, key, rpm, now)
         == if key in buckets then Refill(rpm as real, buckets[key].value.tokens, Rate(rpm), now - buckets[key].value.lastRefill) else rpm as real
  {
    if key in buckets && buckets[key].value.lastRefill + BUCKET_TTL <= now { IdleIsFull(buckets[key].value, rpm, now); }
  }

  lemma OnHandGrowth(buckets: Buckets, key: string, rpm: int, from: real, to: real)
    requires SoundAt(buckets, key, from) && from <= to && rpm > 0
    ensures 0.0 <= OnHand(buckets, key, rpm, from) <= OnHand(buckets, key, rpm, to) <= rpm as real
    ensures OnHand(buckets, key, rpm, to) <= OnHand(buckets, key, rpm, from) + Accrued(rpm, from, to)
  {
    OnHandIs(buckets, key, rpm, from);
    OnHandIs(buckets, key, rpm, to);
    ScaleMonotone(0.0, to - from, Rate(rpm));
    if key in buckets {
      var b := buckets[key].value;
      assert 0.0 <= b.tokens && b.lastRefill <= from && Rate(rpm) >= 0.0;
      assert (to - b.lastRefill) - (from - b.lastRefill) == to - from;
      hide OnHand, Refill, Rate;
      RefillGrowth(rpm as real, b.tokens, Rate(rpm), from - b.lastRefill, to - b.lastRefill);
    }
  }

  lemma ElapsedSplits(now: real, from: real, t: real, r: real)
    ensures (now - from) * r + (t - now) * r == (t - from) * r
  {
  }

  lemma AccruedSplits(rpm: int, from: real, mid: real, to: real)
    ensures Accrued(rpm, from, mid) + Accrued(rpm, mid, to) == Accrued(rpm, from, to)
  {
    ElapsedSplits(mid, from, to, Rate(rpm));
  }

  lemma AccruedIs(rpm: int, s: real, t: real)
    ensures Accrued(rpm, s, t) == rpm as real * (t - s) / 60.0
  {
  }

  lemma AccruedGrows(rpm: int, s: real, mid: real, t: real)
    requires rpm >= 0 && s <= mid && s <= t
    ensures Accrued(rpm, mid, t) <= Accrued(rpm, s, t) && 0.0 <= Accrued(rpm, s, t)
  {
    ScaleMonotone(0.0, t - s, Rate(rpm));
    ScaleMonotone(t - mid, t - s, Rate(rpm));
  }

  lemma JustStored(b: Bucket, rpm: int)
    ensures Available(Some(b), rpm, b.lastRefill) <= b.tokens
  {
    assert (b.lastRefill - b.lastRefill) * Rate(rpm) == 0.0;
  }

  /** A call on the key spends what it takes from the tokens on hand; a call on another key nothing. */
  lemma SpendsOnHand(buckets: Buckets, c: Call, key: string, rpm: int)
    requires rpm > 0 && (c.key == key ==> c.rpm == rpm && c.cost <= rpm)
    ensures var spent := if c.key == key && DecideIn(buckets, c).allowed then c.cost as real else 0.0;
            OnHand(Next(buckets, c), key, rpm, c.now) + spent <= OnHand(buckets, key, rpm, c.now)
  {
    var d := DecideIn(buckets, c);
    if d.write.Some? {
      PutThenGet(buckets, BUCKET_TTL, c.key, d.write.value, c.now, key, c.now);
      JustStored(d.write.value, rpm);
    }
  }

  lemma OneCallBudget(buckets: Buckets, c: Call, key: string, rpm: int, from: real)
    requires rpm > 0 && SoundAt(buckets, key, from) && from <= c.now
    requires c.key == key ==> c.rpm == rpm && c.cost <= rpm
    ensures var spent := if c.key == key && DecideIn(buckets, c).allowed then c.cost as real else 0.0;
            OnHand(Next(buckets, c), key, rpm, c.now) + spent <= OnHand(buckets, key, rpm, from) + Accrued(rpm, from, c.now)
  {
    hide *;
    SpendsOnHand(buckets, c, key, rpm);
    OnHandGrowth(buckets, key, rpm, from, c.now);
  }

  /** Counting from `from`: no more than what is on hand plus what the rate adds. */
  lemma {:induction false} Budget(buckets: Buckets, calls: seq<Call>, key: string, rpm: int, from: real, s: real, t: real)
    requires rpm > 0 && SoundAt(buckets, key, from) && OrderedFrom(calls, from) && s <= from <= t
    requires UsesLimit(calls, key, rpm, rpm)
    ensures AdmittedCost(buckets, calls, key, s, t) <= OnHand(buckets, key, rpm, from) + Accrued(rpm, from, t)
    decreases |calls|
  {
    if calls == [] || t < calls[0].now {
      NothingAfter(buckets, calls, key, s, t);
      OnHandGrowth(buckets, key, rpm, from, t);
    } else {
      var c := calls[0];
      NextSoundAt(buckets, c, key, from);
      OneCallBudget(buckets, c, key, rpm, from);
      AccruedSplits(rpm, from, c.now, t);
      Budget(Next(buckets, c), calls[1..], key, rpm, c.now, s, t);
    }
  }

  lemma {:induction false} NothingAfter(buckets: Buckets, calls: seq<Call>, key: string, s: real, t: real)
    requires forall i :: 0 <= i < |calls| ==> t < calls[i].now
    ensures AdmittedCost(buckets, calls, key, s, t) == 0.0
    decreases |calls|
  {
    if calls != [] { NothingAfter(Next(buckets, calls[0]), calls[1..], key, s, t); }
  }

  lemma {:induction false} WindowBoundFrom(buckets: Buckets, calls: seq<Call>, key: string, rpm: int, from: real, s: real, t: real)
    requires rpm > 0 && SoundAt(buckets, key, from) && OrderedFrom(calls, from) && s <= t
    requires UsesLimit(calls, key, rpm, rpm)
    ensures AdmittedCost(buckets, calls, key, s, t) <= rpm as real + Accrued(rpm, s, t)
    decreases |calls|
  {
    if calls != [] && calls[0].now < s {
      NextSoundAt(buckets, calls[0], key, from);
      WindowBoundFrom(Next(buckets, calls[0]), calls[1..], key, rpm, calls[0].now, s, t);
    } else {
      WindowBoundInside(buckets, calls, key, rpm, from, s, t);
    }
  }

  lemma WindowBoundInside(buckets: Buckets, calls: seq<Call>, key: string, rpm: int, from: real, s: real, t: real)
    requires rpm > 0 && SoundAt(buckets, key, from) && OrderedFrom(calls, from) && s <= t
    requires UsesLimit(calls, key, rpm, rpm) && (calls != [] ==> s <= calls[0].now)
    ensures AdmittedCost(buckets, calls, key, s, t) <= rpm as real + Accrued(rpm, s, t)
  {
    var start := if from <= s then s else from;
    AccruedGrows(rpm, s, start, t);
    if t < start {
      NothingAfter(buckets, calls, key, s, t);
    } else {
      hide *;
      OnHandGrowth(buckets, key, rpm, start, start);
      Budget(buckets, calls, key, rpm, start, s, t);
    }
  }

  /** In every interval [s, t] the cost admitted for the key is at most rpm + rpm * (t - s) / 60. */
  ghost predicate WindowKept(calls: seq<Call>, key: string, rpm: int) {
    forall s: real, t: real | s <= t :: WithinBudget(calls, key, rpm, s, t)
  }

  ghost predicate WithinBudget(calls: seq<Call>, key: string, rpm: int, s: real, t: real) {
    AdmittedCost(map[], calls, key, s, t) <= rpm as real + rpm as real * (t - s) / 60.0
  }

  /** In every run, whatever other keys do and cost, the calls for a key with a fixed limit and costs within it keep every
      window. */
  lemma WindowBound(calls: seq<Call>, from: real, key: string, rpm: int, s: real, t: real)
    requires rpm > 0 && OrderedFrom(calls, from) && s <= t
    requires UsesLimit(calls, key, rpm, rpm)
    ensures WithinBudget(calls, key, rpm, s, t)
  {
    AccruedIs(rpm, s, t);
    assert SoundAt(map[], key, from);
    WindowBoundFrom(map[], calls, key, rpm, from, s, t);
    hide AdmittedCost, OrderedFrom, UsesLimit, Accrued;
  }

  ghost predicate AlwaysWindowKept(key: string, rpm: int, most: int) {
    forall calls: seq<Call>, from: real | OrderedFrom(calls, from) && UsesLimit(calls, key, rpm, most) :: WindowKept(calls, key, rpm)
  }

  /** A first call is admitted whatever it costs, and alone breaks the window. */
  lemma FirstCallBreaksWindow(key: string, rpm: int, cost: int)
    requires 0 < rpm < cost
    ensures !WithinBudget([Call(key, rpm, cost, 0.0)], key, rpm, 0.0, 0.0)
  {
    var c := Call(key, rpm, cost, 0.0);
    assert [c][1..] == [] && DecideIn(map[], c).allowed;
    assert AdmittedCost(Next(map[], c), [], key, 0.0, 0.0) == 0.0;
    assert AdmittedCost(map[], [c], key, 0.0, 0.0) == cost as real;
    assert rpm as real * (0.0 - 0.0) / 60.0 == 0.0;
  }

  /** Over all runs in which the key's calls cost at most `most`, every window is kept if and only if `most` is within the
      limit. */
  lemma WindowBoundIff(key: string, rpm: int, most: int)
    requires rpm > 0
    ensures AlwaysWindowKept(key, rpm, most) <==> most <= rpm
  {
    hide WithinBudget;
    if most <= rpm {
      forall calls: seq<Call>, from: real | OrderedFrom(calls, from) && UsesLimit(calls, key, rpm, most)
        ensures WindowKept(calls, key, rpm)
      {
        forall s: real, t: real | s <= t ensures WithinBudget(calls, key, rpm, s, t) { WindowBound(calls, from, key, rpm, s, t); }
      }
    } else {
      var calls := [Call(key, rpm, most, 0.0)];
      FirstCallBreaksWindow(key, rpm, most);
      assert OrderedFrom(calls, 0.0) && UsesLimit(calls, key, rpm, most) && !WindowKept(calls, key, rpm);
    }
  }

  // ---------------------------------------------------------------------------------------
  // What is earned is admitted
  // ---------------------------------------------------------------------------------------

  /** The seconds in which the rate earns the cost. */
  function EarnTime(rpm: int, cost: int): real
    requires rpm > 0
  {
    cost as real * 60.0 / rpm as real
  }

  lemma Earns(rpm: int, cost: int, elapsed: real)
    requires rpm > 0 && EarnTime(rpm, cost) <= elapsed
    ensures cost as real <= elapsed * Rate(rpm)
  {
    EarnsExactly(cost as real, rpm as real);
    var need := EarnTime(rpm, cost);
    hide EarnTime;
    ScaleMonotone(need, elapsed, Rate(rpm));
  }

  lemma EarnsExactly(cost: real, rpm: real)
    requires rpm > 0.0
    ensures cost * 60.0 / rpm * (rpm / 60.0) == cost
  {
    var q := cost * 60.0 / rpm;
    assert q * rpm == cost * 60.0;
    assert q * (rpm / 60.0) == q * rpm / 60.0;
  }

  /** The key's bucket is not overdrawn and was last written by `last`. */
  ghost predicate WrittenBy(buckets: Buckets, key: string, last: real) {
    key in buckets ==> buckets[key].value.tokens >= 0.0 && buckets[key].value.lastRefill <= last
  }

  lemma EarnedNow(buckets: Buckets, c: Call, last: real)
    requires c.rpm > 0 && c.cost <= c.rpm && WrittenBy(buckets, c.key, last) && last + EarnTime(c.rpm, c.cost) <= c.now
    ensures DecideIn(buckets, c).allowed
  {
    hide EarnTime, Rate;
    if Get(buckets, BUCKET_TTL, c.key, c.now).Some? {
      var b := buckets[c.key].value;
      Earns(c.rpm, c.cost, c.now - b.lastRefill);
      RefillEnough(c.rpm as real, b.tokens, Rate(c.rpm), c.now - b.lastRefill, c.cost as real);
      hide Refill;
    }
  }

  lemma RefillEnough(capacity: real, tokens: real, rate: real, elapsed: real, cost: real)
    requires tokens >= 0.0 && cost <= capacity && cost <= elapsed * rate
    ensures Refill(capacity, tokens, rate, elapsed) >= cost
  {
  }

  lemma WrittenByNext(buckets: Buckets, c: Call, key: string, last: real)
    requires WrittenBy(buckets, key, last) && (c.key == key ==> c.now <= last && CostFits(c))
    ensures WrittenBy(Next(buckets, c), key, last)
  {
    hide Rate, Refill;
  }

  lemma {:induction false} EarnedFrom(buckets: Buckets, calls: seq<Call>, i: nat, last: real)
    requires i < |calls| && calls[i].rpm > 0 && UsesLimit(calls, calls[i].key, calls[i].rpm, calls[i].rpm)
    requires last + EarnTime(calls[i].rpm, calls[i].cost) <= calls[i].now && WrittenBy(buckets, calls[i].key, last)
    requires forall j | 0 <= j < i && calls[j].key == calls[i].key :: calls[j].now <= last
    ensures i < |Outcomes(buckets, calls)| && Outcomes(buckets, calls)[i].0
    decreases |calls|
  {
    hide EarnTime, WrittenBy, DecideIn, Next;
    if i == 0 {
      EarnedNow(buckets, calls[0], last);
    } else {
      WrittenByNext(buckets, calls[0], calls[i].key, last);
      assert calls[1..][i - 1] == calls[i];
      EarnedFrom(Next(buckets, calls[0]), calls[1..], i - 1, last);
    }
  }

  /** In every run, whatever other keys do, a call within the limit that comes at least 60 * cost / rpm seconds after the
      previous calls of its key is admitted. */
  lemma EarnedIsAdmitted(calls: seq<Call>, i: nat, last: real)
    requires i < |calls| && calls[i].rpm > 0 && UsesLimit(calls, calls[i].key, calls[i].rpm, calls[i].rpm)
    requires last + calls[i].cost as real * 60.0 / calls[i].rpm as real <= calls[i].now
    requires forall j | 0 <= j < i && calls[j].key == calls[i].key :: calls[j].now <= last
    ensures i < |Outcomes(map[], calls)| && Outcomes(map[], calls)[i].0
  {
    assert EarnTime(calls[i].rpm, calls[i].cost) == calls[i].cost as real * 60.0 / calls[i].rpm as real;
    hide Outcomes, UsesLimit, EarnTime;
    EarnedFrom(map[], calls, i, last);
  }

  // ---------------------------------------------------------------------------------------
  // The wait is exact
  // ---------------------------------------------------------------------------------------

  function After(buckets: Buckets, calls: seq<Call>): Buckets
    decreases |calls|
  {
    if calls == [] then buckets else After(Next(buckets, calls[0]), calls[1..])
  }

  lemma {:induction false} OtherKeysDoNotMatter(buckets: Buckets, calls: seq<Call>, key: string, from: real, t: real)
    requires OrderedFrom(calls, from) && from <= t
    requires forall i :: 0 <= i < |calls| ==> calls[i].key != key && calls[i].now <= t
    ensures Get(After(buckets, calls), BUCKET_TTL, key, t) == Get(buckets, BUCKET_TTL, key, t)
    decreases |calls|
  {
    if calls != [] {
      var c := calls[0];
      var write := DecideIn(buckets, c).write;
      if write.Some? {
        PutThenGet(buckets, BUCKET_TTL, c.key, write.value, c.now, key, t);
      }
      OtherKeysDoNotMatter(Next(buckets, c), calls[1..], key, c.now, t);
    }
  }

  /** `x` more than `have` is refilled exactly when `x / rate` seconds have passed. */
  lemma RefillReaches(have: real, need: real, rate: real, elapsed: real)
    requires rate > 0.0
    ensures have + elapsed * rate >= need <==> elapsed >= (need - have) / rate
  {
    var w := (need - have) / rate;
    assert w * rate == need - have;
    if elapsed >= w { ScaleMonotone(w, elapsed, rate); }
    if elapsed < w {
      assert (w - elapsed) * rate > 0.0;
      ElapsedSplits(elapsed, 0.0, w, rate);
    }
  }

  /** A denied bucket refills past the cost exactly when the wait it reported is over. */
  lemma DeniedRefill(b: Bucket, rpm: int, cost: int, now: real, t: real)
    requires 0 < rpm && cost <= rpm && b.tokens >= 0.0 && b.lastRefill <= now <= t
    requires Available(Some(b), rpm, now) < cost as real
    ensures var wait := (cost as real - Available(Some(b), rpm, now)) / Rate(rpm);
            && (Available(Some(b), rpm, t) >= cost as real <==> t >= now + wait)
            && now + wait < b.lastRefill + BUCKET_TTL
  {
    var r, need := Rate(rpm), cost as real;
    var have := b.tokens + (now - b.lastRefill) * r;
    assert Available(Some(b), rpm, now) == have;
    assert b.tokens + (t - b.lastRefill) * r == have + (t - now) * r by {
      ElapsedSplits(now, b.lastRefill, t, r);
    }
    RefillReaches(have, need, r, t - now);
    var minute := b.lastRefill + 60.0;
    assert b.tokens + 60.0 * r == have + (minute - now) * r by {
      ElapsedSplits(now, b.lastRefill, minute, r);
    }
    assert 60.0 * r == rpm as real;
    RefillReaches(have, need, r, minute - now);
  }

  /** After a denial, and whatever other keys do meanwhile, repeating the call at `t` is admitted if and
      only if `t` is at least the reported wait later. */
  lemma ExactWait(buckets: Buckets, c: Call, between: seq<Call>, t: real)
    requires SoundAt(buckets, c.key, c.now) && CostFits(c) && !DecideIn(buckets, c).allowed
    requires OrderedFrom(between, c.now) && c.now <= t
    requires forall i :: 0 <= i < |between| ==> between[i].key != c.key && between[i].now <= t
    ensures WaitExact(buckets, c, between, t)
  {
    hide Available, Rate;
    OtherKeysDoNotMatter(buckets, between, c.key, c.now, t);
    DeniedRefill(buckets[c.key].value, c.rpm, c.cost, c.now, t);
  }

  ghost predicate WaitExact(buckets: Buckets, c: Call, between: seq<Call>, t: real) {
    DecideIn(After(Next(buckets, c), between), c.(now := t)).allowed <==> t >= c.now + DecideIn(buckets, c).wait
  }

  /** A denied call under the limit and costing at most `most`, and a repetition after calls on other keys. */
  ghost predicate Denial(buckets: Buckets, c: Call, between: seq<Call>, t: real, rpm: int, most: int) {
    && SoundAt(buckets, c.key, c.now) && c.rpm == rpm && c.cost <= most && !DecideIn(buckets, c).allowed
    && OrderedFrom(between, c.now) && c.now <= t
    && (forall i :: 0 <= i < |between| ==> between[i].key != c.key && between[i].now <= t)
  }

  ghost predicate WaitsExact(rpm: int, most: int) {
    forall buckets, c, between, t | Denial(buckets, c, between, t, rpm, most) :: WaitExact(buckets, c, between, t)
  }

  /** A half-full bucket never holds more than the limit, however long an oversized call waits. */
  lemma OversizedWaitFails(rpm: int)
    requires rpm > 0
    ensures var half := map["" := Stamped(Bucket(rpm as real / 2.0, 0.0), 0.0)];
            var c := Call("", rpm, rpm + 1, 0.0);
            Denial(half, c, [], DecideIn(half, c).wait, rpm, rpm + 1) && !WaitExact(half, c, [], DecideIn(half, c).wait)
  {
    var b, c := Bucket(rpm as real / 2.0, 0.0), Call("", rpm, rpm + 1, 0.0);
    var half := map["" := Stamped(b, 0.0)];
    var need, r := rpm as real / 2.0 + 1.0, Rate(rpm);
    assert Get(half, BUCKET_TTL, "", 0.0) == Some(b);
    JustStored(b, rpm);
    assert (0.0 - 0.0) * r == 0.0;
    assert Available(Some(b), rpm, 0.0) == rpm as real / 2.0;
    var wait := need / r;
    assert DecideIn(half, c) == Decision(false, wait, None);
    RefillReaches(0.0, need, r, wait);
    RefillReaches(0.0, need, r, BUCKET_TTL);
    assert BUCKET_TTL * r == 2.0 * rpm as real;
    assert wait * r == need;
    assert 0.0 <= wait < BUCKET_TTL by { if wait >= BUCKET_TTL { ScaleMonotone(BUCKET_TTL, wait, r); } if wait < 0.0 { ScaleMonotone(wait, 0.0, r); } }
    assert Get(half, BUCKET_TTL, "", wait) == Some(b);
    assert Available(Some(b), rpm, wait) <= rpm as real;
    assert After(Next(half, c), []) == half;
  }

  /** The wait is exact after every denial of a cost up to `most` if and only if `most` is within the limit. */
  lemma ExactWaitIff(rpm: int, most: int)
    requires rpm > 0
    ensures WaitsExact(rpm, most) <==> most <= rpm
  {
    hide WaitExact;
    if most <= rpm {
      forall buckets, c, between, t | Denial(buckets, c, between, t, rpm, most)
        ensures WaitExact(buckets, c, between, t)
      {
        ExactWait(buckets, c, between, t);
      }
    } else {
      OversizedWaitFails(rpm);
      var half, c := map["" := Stamped(Bucket(rpm as real / 2.0, 0.0), 0.0)], Call("", rpm, rpm + 1, 0.0);
      assert Denial(half, c, [], DecideIn(half, c).wait, rpm, most);
    }
  }

  // ---------------------------------------------------------------------------------------
  // The pipeline step
  // ---------------------------------------------------------------------------------------

  /** A non-empty rate-limit configuration; a missing `enabled` counts as true, a missing `rpm` as 0. */
  datatype RateLimitConfig = RateLimitConfig(enabled: Option<bool>, rpm: Option<int>)

  function DeploymentKey(deploymentId: string): string {
    "deployment:" + deploymentId
  }

  /** Rejects with a Retry-After of whole seconds (delay-seconds, section 10.2.3 of RFC 9110) that is always
      long enough and less than a second longer than needed. */
  method CheckRateLimit(limiter: TokenBucketLimiter, config: Option<RateLimitConfig>, deploymentId: string,
                        policies: seq<string>, now: real)
    returns (retryAfter: Option<int>, applied: seq<string>)
    requires Sound(limiter.buckets, now)
    modifies limiter
    ensures Sound(limiter.buckets, now)
    ensures var active := config.Some? && config.value.enabled != Some(false);
            && applied == policies + (if active then ["rate_limit"] else [])
            && (!active ==> retryAfter == None && limiter.buckets == old(limiter.buckets))
    ensures retryAfter.Some? ==>
              && config.Some? && config.value.rpm.Some? && config.value.rpm.value > 0
              && var c := Call(DeploymentKey(deploymentId), config.value.rpm.value, 1, now);
              && limiter.buckets == old(limiter.buckets)
              && !DecideIn(limiter.buckets, c).allowed
              && (forall t: real | t >= now + retryAfter.value as real :: DecideIn(limiter.buckets, c.(now := t)).allowed)
              && (forall t: real | now <= t < now + retryAfter.value as real - 1.0 :: !DecideIn(limiter.buckets, c.(now := t)).allowed)
    ensures config.Some? && config.value.enabled != Some(false) && config.value.rpm.Some? && config.value.rpm.value > 0 ==>
              var c := Call(DeploymentKey(deploymentId), config.value.rpm.value, 1, now);
              && limiter.buckets == Next(old(limiter.buckets), c)
              && (retryAfter.None? <==> DecideIn(old(limiter.buckets), c).allowed)
  {
    retryAfter, applied := None, policies;
    if config.None? || config.value.enabled == Some(false) {
      return;
    }
    applied := applied + ["rate_limit"];
    var rpm := if config.value.rpm.Some? then config.value.rpm.value else 0;
    if rpm > 0 {
      var allowed, wait := limiter.CheckLimit(DeploymentKey(deploymentId), rpm, 1, now);
      ghost var c := Call(DeploymentKey(deploymentId), rpm, 1, now);
      NextSound(old(limiter.buckets), c, now);
      if !allowed {
        retryAfter := Some(wait.Floor + 1);
        forall t: real | now <= t
          ensures DecideIn(limiter.buckets, c.(now := t)).allowed <==> t >= now + wait
        {
          ExactWait(limiter.buckets, c, [], t);
        }
        assert wait >= 0.0;
      }
    }
  }
}
