/**
 The gateway's in-memory limiter: `TokenBucket` refills on every call, and `InMemoryRateLimiter`
 keeps one per key in a cache that replaces it 120 seconds after its creation, since neither a
 lookup nor a consumption refreshes the entry.
 */
module GatewayBucket {
  import opened Basics
  import opened TtlCache
  import opened DataPlaneBucket

  /** The bucket after a call at `now`, and whether the call took its tokens. */
  function Consumed(b: Bucket, capacity: real, rate: real, cost: int, now: real): (Bucket, bool) {
    var tokens := Refill(capacity, b.tokens, rate, now - b.lastRefill);
    if tokens >= cost as real then (Bucket(tokens - cost as real, now), true) else (Bucket(tokens, now), false)
  }

  class TokenBucket {
    const capacity: int
    const refillRate: real
    var tokens: real
    var lastRefill: real

    constructor (capacity: int, refillRate: real, now: real)
      ensures this.capacity == capacity && this.refillRate == refillRate
      ensures Level() == Bucket(capacity as real, now)
    {
      this.capacity := capacity;
      this.refillRate := refillRate;
      tokens := capacity as real;
      lastRefill := now;
    }

    ghost function Level(): Bucket
      reads this
    {
      Bucket(tokens, lastRefill)
    }

    method Consume(cost: int, now: real) returns (ok: bool)
      modifies this`tokens, this`lastRefill
      ensures (Level(), ok) == Consumed(old(Level()), capacity as real, refillRate, cost, now)
    {
      DoRefill(now);
      if tokens >= cost as real {
        tokens := tokens - cost as real;
        return true;
      }
      return false;
    }

    method DoRefill(now: real)
      modifies this`tokens, this`lastRefill
      ensures Level() == Bucket(Refill(capacity as real, old(tokens), refillRate, now - old(lastRefill)), now)
    {
      var elapsed := now - lastRefill;
      var refilled := tokens + elapsed * refillRate;
      tokens := if capacity as real <= refilled then capacity as real else refilled;
      lastRefill := now;
    }
  }

  /** The limiter's configuration: `rate_limit_burst_size` and `rate_limit_requests_per_minute`. */
  datatype Limits = Limits(burst: int, rpm: int)

  datatype Hit = Hit(key: string, now: real)

  /** The cache after `_get_bucket`: an absent or expired key gets a full bucket. */
  function WithBucket(levels: Buckets, limits: Limits, h: Hit): Buckets {
    if Get(levels, BUCKET_TTL, h.key, h.now).Some? then levels
    else Put(levels, BUCKET_TTL, h.key, Bucket(limits.burst as real, h.now), h.now)
  }

  function Spend(levels: Buckets, limits: Limits, h: Hit): (Bucket, bool)
    requires h.key in levels
  {
    Consumed(levels[h.key].value, limits.burst as real, Rate(limits.rpm), 1, h.now)
  }

  function Allowed(levels: Buckets, limits: Limits, h: Hit): bool {
    Spend(WithBucket(levels, limits, h), limits, h).1
  }

  /** The bucket is consumed from in place: its entry keeps the time it was created. */
  function NextLevels(levels: Buckets, limits: Limits, h: Hit): Buckets {
    var l := WithBucket(levels, limits, h);
    l[h.key := Stamped(Spend(l, limits, h).0, l[h.key].storedAt)]
  }

  class InMemoryRateLimiter {
    const limits: Limits
    var buckets: map<string, Stamped<TokenBucket>>

    constructor (limits: Limits)
      ensures this.limits == limits && Valid() && Levels() == map[]
    {
      this.limits := limits;
      buckets := map[];
    }

    /** No two keys share a bucket, and every bucket was built from the limiter's configuration. */
    ghost predicate Valid()
      reads this, Objects()
    {
      && (forall k | k in buckets ::
            buckets[k].value.capacity == limits.burst && buckets[k].value.refillRate == Rate(limits.rpm))
      && (forall j, k | j in buckets && k in buckets && j != k :: buckets[j].value != buckets[k].value)
    }

    ghost function Objects(): set<TokenBucket>
      reads this
    {
      set k | k in buckets :: buckets[k].value
    }

    ghost function Levels(): Buckets
      reads this, Objects()
    {
      map k | k in buckets :: Stamped(buckets[k].value.Level(), buckets[k].storedAt)
    }

    /** A new bucket takes the place of an absent or expired one. */
    method Install(key: string, bucket: TokenBucket, now: real)
      requires Valid() && bucket !in Objects() && bucket.capacity == limits.burst && bucket.refillRate == Rate(limits.rpm)
      modifies this`buckets
      ensures Valid() && buckets == Put(old(buckets), BUCKET_TTL, key, bucket, now)
      ensures Levels() == Put(old(Levels()), BUCKET_TTL, key, bucket.Level(), now) && Objects() <= old(Objects()) + {bucket}
    {
      ghost var levels := Levels();
      buckets := Put(buckets, BUCKET_TTL, key, bucket, now);
      ghost var after := Put(levels, BUCKET_TTL, key, bucket.Level(), now);
      forall k
        ensures k in Levels() <==> k in after
        ensures k in Levels() && k in after ==> Levels()[k] == after[k]
      {
        if k in buckets && k != key { assert k in old(buckets) && buckets[k] == old(buckets)[k]; }
      }
      assert Levels() == after;
    }

    method GetBucket(key: string, now: real) returns (bucket: TokenBucket)
      requires Valid()
      modifies this`buckets
      ensures Valid() && key in buckets && buckets[key].value == bucket
      ensures Levels() == WithBucket(old(Levels()), limits, Hit(key, now))
      ensures Objects() <= old(Objects()) + {bucket} && (bucket !in old(Objects()) ==> fresh(bucket))
    {
      var found := Get(buckets, BUCKET_TTL, key, now);
      assert found.Some? <==> Get(Levels(), BUCKET_TTL, key, now).Some?;
      if found.Some? {
        bucket := found.value;
      } else {
        bucket := new TokenBucket(limits.burst, limits.rpm as real / 60.0, now);
        assert Levels() == old(Levels()) && Objects() == old(Objects()) && bucket.Level() == Bucket(limits.burst as real, now);
        Install(key, bucket, now);
      }
    }

    method IsAllowed(key: string, now: real) returns (allowed: bool, remaining: int)
      requires Valid()
      modifies this`buckets, Objects()
      ensures Valid()
      ensures allowed == Allowed(old(Levels()), limits, Hit(key, now))
      ensures Levels() == NextLevels(old(Levels()), limits, Hit(key, now))
      ensures key in Levels() && remaining == Levels()[key].value.tokens.Floor
    {
      var bucket := GetBucket(key, now);
      allowed := bucket.Consume(1, now);
      remaining := bucket.tokens.Floor;
    }
  }

  // ---------------------------------------------------------------------------------------
  // The two buckets agree
  // ---------------------------------------------------------------------------------------

  /** The decisions of one gateway bucket of capacity rpm and rate rpm / 60. */
  function EagerDecisions(b: Bucket, rpm: int, calls: seq<Call>): seq<bool>
    decreases |calls|
  {
    if calls == [] then [] else
      var r := Consumed(b, rpm as real, Rate(rpm), calls[0].cost, calls[0].now);
      [r.1] + EagerDecisions(r.0, rpm, calls[1..])
  }

  lemma RefillTwice(capacity: real, tokens: real, rate: real, a: real, b: real)
    requires rate >= 0.0 && b >= 0.0
    ensures Refill(capacity, Refill(capacity, tokens, rate, a), rate, b) == Refill(capacity, tokens, rate, a + b)
  {
    ScaleMonotone(0.0, b, rate);
    ElapsedSplits(a, 0.0, a + b, rate);
  }

  /** The lazy bucket and the eager one hold the same tokens at every later moment. */
  ghost predicate SameLevel(lazy: Option<Bucket>, eager: Bucket, rpm: int, now: real) {
    && eager.lastRefill <= now
    && forall t: real :: t >= now ==> Available(lazy, rpm, t) == Refill(rpm as real, eager.tokens, Rate(rpm), t - eager.lastRefill)
  }

  lemma SameDecision(lazy: Option<Bucket>, eager: Bucket, rpm: int, c: Call, now: real)
    requires rpm > 0 && c.rpm == rpm && c.cost <= rpm && now <= c.now && SameLevel(lazy, eager, rpm, now)
    ensures var d := Decide(lazy, rpm, c.cost, c.now);
            var e := Consumed(eager, rpm as real, Rate(rpm), c.cost, c.now);
            && d.allowed == e.1
            && SameLevel(if d.write.Some? then d.write else lazy, e.0, rpm, c.now)
  {
    var d := Decide(lazy, rpm, c.cost, c.now);
    if d.write.None? {
      forall t: real | t >= c.now
        ensures Available(lazy, rpm, t)
             == Refill(rpm as real, Consumed(eager, rpm as real, Rate(rpm), c.cost, c.now).0.tokens, Rate(rpm), t - c.now)
      {
        RefillTwice(rpm as real, eager.tokens, Rate(rpm), c.now - eager.lastRefill, t - c.now);
      }
    }
  }

  lemma {:induction false} AgreeFrom(all: map<string, Bucket>, eager: Bucket, rpm: int, key: string, calls: seq<Call>, now: real)
    requires rpm > 0 && OrderedFrom(calls, now) && SameLevel(Recall(all, key), eager, rpm, now)
    requires forall i :: 0 <= i < |calls| ==> calls[i].key == key && calls[i].rpm == rpm && calls[i].cost <= rpm
    ensures |RememberedOutcomes(all, calls)| == |EagerDecisions(eager, rpm, calls)| == |calls|
    ensures forall i :: 0 <= i < |calls| ==> RememberedOutcomes(all, calls)[i].0 == EagerDecisions(eager, rpm, calls)[i]
    decreases |calls|
  {
    if calls != [] {
      var c := calls[0];
      SameDecision(Recall(all, key), eager, rpm, c, now);
      var d := Decide(Recall(all, key), rpm, c.cost, c.now);
      var eager' := Consumed(eager, rpm as real, Rate(rpm), c.cost, c.now).0;
      AgreeFrom(Remember(all, key, d), eager', rpm, key, calls[1..], c.now);
    }
  }

  /** The data plane's bucket, with its expiring cache, and a gateway bucket of the same capacity and rate admit the same
      calls. */
  ghost predicate SameCallsAdmitted(rpm: int, calls: seq<Call>, start: real) {
    && |Outcomes(map[], calls)| == |EagerDecisions(Bucket(rpm as real, start), rpm, calls)| == |calls|
    && forall i :: 0 <= i < |calls| ==> Outcomes(map[], calls)[i].0 == EagerDecisions(Bucket(rpm as real, start), rpm, calls)[i]
  }

  /** Calls for one key with one limit, costing at most `most`. */
  ghost predicate OneKey(calls: seq<Call>, key: string, rpm: int, most: int) {
    forall i :: 0 <= i < |calls| ==> calls[i].key == key && calls[i].rpm == rpm && calls[i].cost <= most
  }

  /** The two buckets agree on every non-decreasing sequence of calls for a key whose costs are within the limit. */
  lemma TwoBucketsAgree(key: string, rpm: int, calls: seq<Call>, start: real)
    requires rpm > 0 && OrderedFrom(calls, start) && OneKey(calls, key, rpm, rpm)
    ensures SameCallsAdmitted(rpm, calls, start)
  {
    InvisibleExpiry(calls, start);
    forall t: real | t >= start
      ensures Available(None, rpm, t) == Refill(rpm as real, rpm as real, Rate(rpm), t - start)
    {
      ScaleMonotone(0.0, t - start, Rate(rpm));
    }
    AgreeFrom(map[], Bucket(rpm as real, start), rpm, key, calls, start);
  }

  ghost predicate AlwaysAgree(key: string, rpm: int, most: int) {
    forall calls: seq<Call>, start: real | OrderedFrom(calls, start) && OneKey(calls, key, rpm, most) :: SameCallsAdmitted(rpm, calls, start)
  }

  /** A first call over the limit passes the lazy bucket and not the eager one. */
  lemma FirstCallDisagrees(key: string, rpm: int, cost: int)
    requires 0 < rpm < cost
    ensures !SameCallsAdmitted(rpm, [Call(key, rpm, cost, 0.0)], 0.0)
  {
    var c := Call(key, rpm, cost, 0.0);
    assert [c][1..] == [] && DecideIn(map[], c).allowed;
    assert (0.0 - 0.0) * Rate(rpm) == 0.0;
    assert !Consumed(Bucket(rpm as real, 0.0), rpm as real, Rate(rpm), cost, 0.0).1;
    assert Outcomes(map[], [c])[0].0 && !EagerDecisions(Bucket(rpm as real, 0.0), rpm, [c])[0];
  }

  /** Over all call sequences of a key with costs up to `most`, the two buckets agree if and only if `most` is within the
      limit. */
  lemma TwoBucketsAgreeIff(key: string, rpm: int, most: int)
    requires rpm > 0
    ensures AlwaysAgree(key, rpm, most) <==> most <= rpm
  {
    hide SameCallsAdmitted;
    if most <= rpm {
      forall calls: seq<Call>, start: real | OrderedFrom(calls, start) && OneKey(calls, key, rpm, most)
        ensures SameCallsAdmitted(rpm, calls, start)
      {
        TwoBucketsAgree(key, rpm, calls, start);
      }
    } else {
      var calls := [Call(key, rpm, most, 0.0)];
      FirstCallDisagrees(key, rpm, most);
      assert OrderedFrom(calls, 0.0) && OneKey(calls, key, rpm, most);
    }
  }

  // ---------------------------------------------------------------------------------------
  // Replacing buckets
  // ---------------------------------------------------------------------------------------

  ghost predicate HitsFrom(hits: seq<Hit>, t: real) {
    && (forall i :: 0 <= i < |hits| ==> t <= hits[i].now)
    && (forall i, j :: 0 <= i < j < |hits| ==> hits[i].now <= hits[j].now)
  }

  /** Requests admitted for `key` at times in [s, t]. */
  function Admissions(levels: Buckets, limits: Limits, hits: seq<Hit>, key: string, s: real, t: real): int
    decreases |hits|
  {
    if hits == [] then 0 else
      var h := hits[0];
      (if h.key == key && s <= h.now <= t && Allowed(levels, limits, h) then 1 else 0)
        + Admissions(NextLevels(levels, limits, h), limits, hits[1..], key, s, t)
  }

  /** `n` requests of a key at one instant. */
  function Burst(key: string, now: real, n: nat): (hits: seq<Hit>)
    ensures |hits| == n && forall i :: 0 <= i < n ==> hits[i] == Hit(key, now)
  {
    seq(n, _ => Hit(key, now))
  }

  function Least(a: nat, b: nat): nat {
    if a <= b then a else b
  }

  lemma SpendOne(limits: Limits, c: nat, now: real)
    requires c <= limits.burst
    ensures Consumed(Bucket(c as real, now), limits.burst as real, Rate(limits.rpm), 1, now) == (Bucket((if c >= 1 then c - 1 else 0) as real, now), c >= 1)
  {
    hide Rate;
    assert (now - now) * Rate(limits.rpm) == 0.0;
    assert Refill(limits.burst as real, c as real, Rate(limits.rpm), now - now) == c as real;
  }

  /** A bucket of `c` tokens that was just refilled admits exactly `c` more requests at the same instant. */
  lemma {:induction false} BurstOfLive(levels: Buckets, limits: Limits, key: string, now: real, c: nat, n: nat)
    requires c <= limits.burst && key in levels && Live(levels[key], BUCKET_TTL, now) && levels[key].value == Bucket(c as real, now)
    ensures Admissions(levels, limits, Burst(key, now, n), key, now, now) == Least(n, c)
    decreases n
  {
    if n > 0 {
      var h := Hit(key, now);
      assert Burst(key, now, n)[1..] == Burst(key, now, n - 1);
      assert WithBucket(levels, limits, h) == levels;
      var left := if c >= 1 then c - 1 else 0;
      SpendOne(limits, c, now);
      assert Spend(levels, limits, h) == (Bucket(left as real, now), c >= 1);
      BurstOfLive(NextLevels(levels, limits, h), limits, key, now, left, n - 1);
    }
  }

  /** Of any number of requests at one instant, a client without a live bucket has exactly the first `burst` admitted. */
  lemma FirstBurst(levels: Buckets, limits: Limits, key: string, now: real, n: nat)
    requires limits.burst >= 0 && Get(levels, 120.0, key, now).None?
    ensures Admissions(levels, limits, Burst(key, now, n), key, now, now) == Least(n, limits.burst)
  {
    if n > 0 {
      var h := Hit(key, now);
      var l := WithBucket(levels, limits, h);
      assert Burst(key, now, n)[1..] == Burst(key, now, n - 1);
      assert l[key] == Stamped(Bucket(limits.burst as real, now), now);
      var left := if limits.burst >= 1 then limits.burst - 1 else 0;
      SpendOne(limits, limits.burst, now);
      assert Spend(l, limits, h) == (Bucket(left as real, now), limits.burst >= 1);
      BurstOfLive(NextLevels(levels, limits, h), limits, key, now, left, n - 1);
    }
  }

  function Verdicts(levels: Buckets, limits: Limits, hits: seq<Hit>): seq<bool>
    decreases |hits|
  {
    if hits == [] then [] else [Allowed(levels, limits, hits[0])] + Verdicts(NextLevels(levels, limits, hits[0]), limits, hits[1..])
  }

  lemma EarnedHit(levels: Buckets, limits: Limits, h: Hit, last: real)
    requires limits.burst >= 1 && limits.rpm > 0 && last + EarnTime(limits.rpm, 1) <= h.now && WrittenBy(levels, h.key, last)
    ensures Allowed(levels, limits, h)
  {
    hide EarnTime;
    if Get(levels, BUCKET_TTL, h.key, h.now).Some? {
      var b := levels[h.key].value;
      Earns(limits.rpm, 1, h.now - b.lastRefill);
      RefillEnough(limits.burst as real, b.tokens, Rate(limits.rpm), h.now - b.lastRefill, 1.0);
      hide Rate, Refill;
    } else {
      hide Rate;
      SpendOne(limits, limits.burst, h.now);
    }
  }

  lemma HitKeepsLevel(levels: Buckets, limits: Limits, h: Hit, key: string, last: real)
    requires limits.burst >= 0 && limits.rpm > 0 && (h.key == key ==> h.now <= last) && WrittenBy(levels, key, last)
    requires h.key in levels ==> levels[h.key].value.lastRefill <= h.now
    ensures WrittenBy(NextLevels(levels, limits, h), key, last)
  {
    if h.key == key {
      var b := WithBucket(levels, limits, h)[key].value;
      ScaleMonotone(0.0, h.now - b.lastRefill, Rate(limits.rpm));
      RefillEnough(limits.burst as real, b.tokens, Rate(limits.rpm), h.now - b.lastRefill, 0.0);
    }
    hide Rate, Refill;
  }

  lemma {:induction false} SpacedFrom(levels: Buckets, limits: Limits, hits: seq<Hit>, i: nat, last: real, now: real)
    requires limits.burst >= 1 && limits.rpm > 0 && i < |hits| && HitsFrom(hits, now) && last + EarnTime(limits.rpm, 1) <= hits[i].now
    requires forall j | 0 <= j < i && hits[j].key == hits[i].key :: hits[j].now <= last
    requires SoundLevels(levels, limits, now) && WrittenBy(levels, hits[i].key, last)
    ensures i < |Verdicts(levels, limits, hits)| && Verdicts(levels, limits, hits)[i]
    decreases |hits|
  {
    if i == 0 {
      EarnedHit(levels, limits, hits[0], last);
      hide Allowed, NextLevels, EarnTime;
    } else {
      HitKeepsLevel(levels, limits, hits[0], hits[i].key, last);
      StepSoundLevels(levels, limits, hits[0], now);
      hide NextLevels, Allowed, EarnTime, SoundLevels, WrittenBy;
      assert hits[1..][i - 1] == hits[i];
      SpacedFrom(NextLevels(levels, limits, hits[0]), limits, hits[1..], i - 1, last, hits[0].now);
    }
  }

  /** In every run, whatever other keys do and however often buckets are replaced, a request that comes at least 60 / rpm
      seconds after the previous ones of its key is admitted. */
  lemma SpacedIsAdmitted(limits: Limits, hits: seq<Hit>, i: nat, last: real, start: real)
    requires limits.burst >= 1 && limits.rpm > 0 && i < |hits| && HitsFrom(hits, start) && last + 60.0 / limits.rpm as real <= hits[i].now
    requires forall j | 0 <= j < i && hits[j].key == hits[i].key :: hits[j].now <= last
    ensures i < |Verdicts(map[], limits, hits)| && Verdicts(map[], limits, hits)[i]
  {
    assert EarnTime(limits.rpm, 1) == 60.0 / limits.rpm as real;
    hide Verdicts, EarnTime;
    SpacedFrom(map[], limits, hits, i, last, start);
  }

  /** Levels are within capacity and nothing was refilled or created in the future. */
  ghost predicate SoundLevels(levels: Buckets, limits: Limits, now: real) {
    forall k | k in levels ::
      && 0.0 <= levels[k].value.tokens <= limits.burst as real
      && levels[k].storedAt <= levels[k].value.lastRefill <= now
  }

  /** How many times a bucket created `age` ago can have been replaced since. */
  function Replacements(age: real): int {
    (age / 120.0).Floor
  }

  /** What can still be admitted by `t` apart from what the rate adds: the current level, and a full
      bucket for each replacement. */
  function Credit(levels: Buckets, limits: Limits, key: string, now: real, t: real): real {
    if key in levels && Live(levels[key], BUCKET_TTL, now) then
      var b := levels[key].value;
      Refill(limits.burst as real, b.tokens, Rate(limits.rpm), now - b.lastRefill)
        + FullBuckets(limits, Replacements(t - levels[key].storedAt))
    else
      FullBuckets(limits, Replacements(t - now) + 1)
  }

  function FullBuckets(limits: Limits, n: int): real {
    limits.burst as real * n as real
  }

  lemma MoreBuckets(limits: Limits, m: int, n: int)
    requires limits.burst >= 0 && m <= n
    ensures FullBuckets(limits, m) <= FullBuckets(limits, n)
    ensures FullBuckets(limits, m + 1) == FullBuckets(limits, m) + limits.burst as real
  {
    var burst := limits.burst as real;
    ScaleMonotone(m as real, n as real, burst);
    assert (m + 1) as real == m as real + 1.0;
    Times(burst, m as real);
    Times(burst, n as real);
    assert FullBuckets(limits, m) == burst * m as real && FullBuckets(limits, n) == burst * n as real;
    assert FullBuckets(limits, m + 1) == burst * (m as real + 1.0);
    hide FullBuckets;
  }

  lemma Times(burst: real, m: real)
    ensures burst * m == m * burst && burst * (m + 1.0) == burst * m + burst
  {
  }

  lemma ReplacementsGrow(a: real, b: real)
    requires a <= b
    ensures Replacements(a) <= Replacements(b)
    ensures Replacements(a + BUCKET_TTL) == Replacements(a) + 1
    ensures a >= 0.0 ==> Replacements(a) >= 0
  {
    assert (a + BUCKET_TTL) / BUCKET_TTL == a / BUCKET_TTL + 1.0;
  }

  lemma StepSoundLevels(levels: Buckets, limits: Limits, h: Hit, now: real)
    requires SoundLevels(levels, limits, now) && now <= h.now && limits.burst >= 0 && limits.rpm >= 0
    ensures SoundLevels(NextLevels(levels, limits, h), limits, h.now)
  {
    var l := WithBucket(levels, limits, h);
    var b := l[h.key].value;
    RefillGrowth(limits.burst as real, b.tokens, Rate(limits.rpm), 0.0, h.now - b.lastRefill);
  }

  lemma LevelGrowth(limits: Limits, b: Bucket, from: real, now: real)
    requires 0.0 <= b.tokens <= limits.burst as real && limits.rpm >= 0 && b.lastRefill <= from <= now
    ensures var level := t => Refill(limits.burst as real, b.tokens, Rate(limits.rpm), t - b.lastRefill);
            0.0 <= level(from) <= limits.burst as real && level(now) <= level(from) + Accrued(limits.rpm, from, now)
  {
    RefillGrowth(limits.burst as real, b.tokens, Rate(limits.rpm), from - b.lastRefill, now - b.lastRefill);
    assert (now - b.lastRefill) - (from - b.lastRefill) == now - from;
  }

  /** A bucket that outlives its entry leaves room for one replacement fewer. */
  lemma ReplacedInTime(limits: Limits, born: real, now: real, t: real)
    requires born + BUCKET_TTL <= now <= t && limits.burst >= 0
    ensures FullBuckets(limits, Replacements(t - now) + 1) <= FullBuckets(limits, Replacements(t - born))
  {
    ReplacementsGrow(t - now, t - born - BUCKET_TTL);
    ReplacementsGrow(t - born - BUCKET_TTL, t - born);
    MoreBuckets(limits, Replacements(t - now) + 1, Replacements(t - born));
  }

  lemma MoreTime(limits: Limits, now: real, from: real, t: real)
    requires from <= now <= t && limits.burst >= 0
    ensures 0.0 <= FullBuckets(limits, Replacements(t - now) + 1) <= FullBuckets(limits, Replacements(t - from) + 1)
    ensures 0.0 <= FullBuckets(limits, Replacements(t - from))
  {
    ReplacementsGrow(t - now, t - from);
    MoreBuckets(limits, Replacements(t - now) + 1, Replacements(t - from) + 1);
    MoreBuckets(limits, 0, Replacements(t - now) + 1);
    MoreBuckets(limits, 0, Replacements(t - from));
  }

  /** Waiting earns at most the refill rate, whether or not the bucket is replaced meanwhile. */
  lemma CreditAges(levels: Buckets, limits: Limits, key: string, from: real, now: real, t: real)
    requires SoundLevels(levels, limits, from) && from <= now <= t && limits.burst >= 0 && limits.rpm >= 0
    ensures Credit(levels, limits, key, now, t) <= Credit(levels, limits, key, from, t) + Accrued(limits.rpm, from, now)
    ensures 0.0 <= Credit(levels, limits, key, from, t)
  {
    hide Refill, Rate, Accrued, FullBuckets, Replacements;
    AccruedGrows(limits.rpm, from, now, now);
    MoreTime(limits, now, from, t);
    if key in levels && Live(levels[key], BUCKET_TTL, from) {
      var b, born := levels[key].value, levels[key].storedAt;
      LevelGrowth(limits, b, from, now);
      MoreTime(limits, now, born, t);
      if !Live(levels[key], BUCKET_TTL, now) {
        ReplacedInTime(limits, born, now, t);
      }
    }
  }

  /** A full bucket at `now` is worth the credit of a key without one. */
  lemma FreshCredit(levels: Buckets, limits: Limits, h: Hit, key: string, t: real)
    requires limits.burst >= 0
    ensures Credit(WithBucket(levels, limits, h), limits, key, h.now, t) <= Credit(levels, limits, key, h.now, t)
  {
    assert (h.now - h.now) * Rate(limits.rpm) == 0.0;
    var n := Replacements(t - h.now);
    MoreBuckets(limits, n, n);
  }

  /** An admission is paid for out of the credit. */
  lemma CreditPays(levels: Buckets, limits: Limits, h: Hit, key: string, t: real)
    requires limits.burst >= 0
    ensures Credit(NextLevels(levels, limits, h), limits, key, h.now, t)
              + (if h.key == key && Allowed(levels, limits, h) then 1.0 else 0.0)
            <= Credit(levels, limits, key, h.now, t)
  {
    FreshCredit(levels, limits, h, key, t);
    var l := WithBucket(levels, limits, h);
    if h.key == key {
      var b := Spend(l, limits, h).0;
      JustRefilled(b, limits);
      hide Refill, Rate, FullBuckets, Replacements, WithBucket;
      assert Live(l[key], BUCKET_TTL, h.now) by { AlwaysLive(levels, limits, h); }
    }
  }

  lemma JustRefilled(b: Bucket, limits: Limits)
    ensures Refill(limits.burst as real, b.tokens, Rate(limits.rpm), b.lastRefill - b.lastRefill) <= b.tokens
  {
    assert (b.lastRefill - b.lastRefill) * Rate(limits.rpm) == 0.0;
  }

  lemma AlwaysLive(levels: Buckets, limits: Limits, h: Hit)
    ensures Live(WithBucket(levels, limits, h)[h.key], BUCKET_TTL, h.now)
  {
  }

  lemma {:induction false} CreditBound(levels: Buckets, limits: Limits, hits: seq<Hit>, key: string, from: real, s: real, t: real)
    requires SoundLevels(levels, limits, from) && HitsFrom(hits, from) && s <= from <= t
    requires limits.burst >= 0 && limits.rpm >= 0
    ensures Admissions(levels, limits, hits, key, s, t) as real <= Credit(levels, limits, key, from, t) + Accrued(limits.rpm, from, t)
    decreases |hits|
  {
    hide Credit, Accrued, Allowed, NextLevels;
    if hits == [] || t < hits[0].now {
      NoneAfter(levels, limits, hits, key, s, t);
      CreditAges(levels, limits, key, from, t, t);
      AccruedGrows(limits.rpm, from, t, t);
    } else {
      var h := hits[0];
      StepSoundLevels(levels, limits, h, from);
      AccruedSplits(limits.rpm, from, h.now, t);
      CreditAges(levels, limits, key, from, h.now, t);
      CreditPays(levels, limits, h, key, t);
      CreditBound(NextLevels(levels, limits, h), limits, hits[1..], key, h.now, s, t);
    }
  }

  lemma {:induction false} NoneAfter(levels: Buckets, limits: Limits, hits: seq<Hit>, key: string, s: real, t: real)
    requires forall i :: 0 <= i < |hits| ==> t < hits[i].now
    ensures Admissions(levels, limits, hits, key, s, t) == 0
    decreases |hits|
  {
    if hits != [] { NoneAfter(NextLevels(levels, limits, hits[0]), limits, hits[1..], key, s, t); }
  }

  lemma OpeningCredit(levels: Buckets, limits: Limits, key: string, s: real, now: real, t: real)
    requires SoundLevels(levels, limits, now) && s <= now <= t && limits.burst >= 0 && limits.rpm >= 0
    ensures Credit(levels, limits, key, now, t) <= FullBuckets(limits, Replacements(t - s) + 2)
  {
    ReplacementsGrow(t - now, t - s);
    MoreBuckets(limits, Replacements(t - now) + 1, Replacements(t - s) + 2);
    if key in levels && Live(levels[key], BUCKET_TTL, now) {
      var b, born := levels[key].value, levels[key].storedAt;
      RefillGrowth(limits.burst as real, b.tokens, Rate(limits.rpm), 0.0, now - b.lastRefill);
      ReplacementsGrow(t - born, t - s + BUCKET_TTL);
      ReplacementsGrow(t - s, t - s);
      MoreBuckets(limits, Replacements(t - born), Replacements(t - s) + 1);
      MoreBuckets(limits, Replacements(t - s) + 1, Replacements(t - s) + 1);
    }
  }

  lemma {:induction false} ReplacementBoundFrom(levels: Buckets, limits: Limits, hits: seq<Hit>, key: string, from: real, s: real, t: real)
    requires SoundLevels(levels, limits, from) && HitsFrom(hits, from) && s <= t
    requires limits.burst >= 0 && limits.rpm >= 0
    ensures Admissions(levels, limits, hits, key, s, t) as real
         <= FullBuckets(limits, Replacements(t - s) + 2) + Accrued(limits.rpm, s, t)
    decreases |hits|
  {
    hide Credit, Accrued, NextLevels, FullBuckets, Replacements;
    if hits != [] && hits[0].now < s {
      StepSoundLevels(levels, limits, hits[0], from);
      ReplacementBoundFrom(NextLevels(levels, limits, hits[0]), limits, hits[1..], key, hits[0].now, s, t);
    } else {
      var start := if from <= s then s else from;
      AccruedGrows(limits.rpm, s, start, t);
      MoreTime(limits, s, s, t);
      if t < start {
        NoneAfter(levels, limits, hits, key, s, t);
        MoreBuckets(limits, Replacements(t - s) + 1, Replacements(t - s) + 2);
      } else {
        CreditBound(levels, limits, hits, key, start, s, t);
        OpeningCredit(levels, limits, key, s, start, t);
      }
    }
  }

  /** Although a key's bucket is thrown away and refilled every 120 s, any run admits for it at most
      burst * (floor((t - s) / 120) + 2) + rpm / 60 * (t - s) requests in [s, t]. */
  lemma ReplacementBound(limits: Limits, hits: seq<Hit>, from: real, key: string, s: real, t: real)
    requires HitsFrom(hits, from) && s <= t && limits.burst >= 0 && limits.rpm >= 0
    ensures Admissions(map[], limits, hits, key, s, t) as real
         <= limits.burst as real * (((t - s) / 120.0).Floor + 2) as real + limits.rpm as real * (t - s) / 60.0
  {
    AccruedIs(limits.rpm, s, t);
    var n := Replacements(t - s) + 2;
    assert n == ((t - s) / 120.0).Floor + 2;
    assert FullBuckets(limits, n) == limits.burst as real * n as real;
    hide Accrued, FullBuckets, Replacements, Admissions;
    ReplacementBoundFrom(map[], limits, hits, key, from, s, t);
  }
}
