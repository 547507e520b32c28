/**
 The authentication endpoints' limiter (`common/rate_limit.py`): a fixed window per key that blocks a
 client once it exceeds the limit, and a `cleanup` that may run at any moment.
 */
module FixedWindow {
  import opened Basics

  datatype Limits = Limits(max: int, window: int, block: int)

  datatype Entry = Entry(count: int, firstRequest: real, blockedUntil: Option<real>)

  type Store = map<string, Entry>

  /** `retryAfter` is the whole number of seconds reported with a refusal. */
  datatype Verdict = Verdict(allowed: bool, retryAfter: Option<int>, entry: Option<Entry>)

  /** A block time counts only when it is neither missing nor zero. */
  predicate HasBlock(e: Entry) {
    e.blockedUntil.Some? && e.blockedUntil.value != 0.0
  }

  predicate Blocked(e: Entry, now: real) {
    HasBlock(e) && now < e.blockedUntil.value
  }

  predicate WindowOver(e: Entry, limits: Limits, now: real) {
    now - e.firstRequest > limits.window as real
  }

  /** One request for a key; `entry` of the verdict is what the store holds for the key afterwards. */
  function Decide(found: Option<Entry>, limits: Limits, now: real): Verdict {
    var entry := if found.Some? then found.value else Entry(0, now, None);
    if Blocked(entry, now) then
      Verdict(false, Some((entry.blockedUntil.value - now).Floor), found)
    else if WindowOver(entry, limits, now) then
      Verdict(true, None, Some(Entry(1, now, None)))
    else if entry.count >= limits.max then
      Verdict(false, Some(limits.block), Some(entry.(blockedUntil := Some(now + limits.block as real))))
    else
      Verdict(true, None, Some(entry.(count := entry.count + 1)))
  }

  predicate Stale(e: Entry, limits: Limits, now: real) {
    || (HasBlock(e) && now > e.blockedUntil.value)
    || now - e.firstRequest > limits.window as real * 2.0
  }

  function Swept(found: Option<Entry>, limits: Limits, now: real): Option<Entry> {
    if found.Some? && Stale(found.value, limits, now) then None else found
  }

  function Lookup(store: Store, key: string): Option<Entry> {
    if key in store then Some(store[key]) else None
  }

  class RateLimiter {
    const limits: Limits
    var store: Store

    constructor (limits: Limits)
      ensures this.limits == limits && store == map[]
    {
      this.limits := limits;
      store := map[];
    }

    method IsAllowed(key: string, now: real) returns (allowed: bool, retryAfter: Option<int>)
      modifies this`store
      ensures var v := Decide(Lookup(old(store), key), limits, now);
              && allowed == v.allowed && retryAfter == v.retryAfter
              && Lookup(store, key) == v.entry
              && forall k | k != key :: Lookup(store, k) == Lookup(old(store), k)
    {
      var entry := if key in store then store[key] else Entry(0, now, None);
      if HasBlock(entry) && now < entry.blockedUntil.value {
        return false, Some((entry.blockedUntil.value - now).Floor);
      }
      if now - entry.firstRequest > limits.window as real {
        store := store[key := Entry(1, now, None)];
        return true, None;
      }
      if entry.count >= limits.max {
        store := store[key := entry.(blockedUntil := Some(now + limits.block as real))];
        return false, Some(limits.block);
      }
      store := store[key := entry.(count := entry.count + 1)];
      return true, None;
    }

    method Cleanup(now: real)
      modifies this`store
      ensures forall k :: Lookup(store, k) == Swept(Lookup(old(store), k), limits, now)
      ensures forall k | k in old(store) ::
                var e := old(store)[k];
                k !in store <==>
                  || (e.blockedUntil.Some? && e.blockedUntil.value != 0.0 && now > e.blockedUntil.value)
                  || now - e.firstRequest > 2.0 * limits.window as real
    {
      var expired := set k | k in store && Stale(store[k], limits, now);
      while expired != {}
        invariant store.Keys <= old(store).Keys && expired <= store.Keys
        invariant forall k | k in old(store) :: k !in store <==> Stale(old(store)[k], limits, now) && k !in expired
        invariant forall k | k in store :: store[k] == old(store)[k]
        invariant forall k | k in expired :: Stale(store[k], limits, now)
        decreases |expired|
      {
        var k :| k in expired;
        store := store - {k};
        expired := expired - {k};
      }
    }
  }

  // ---------------------------------------------------------------------------------------
  // Runs
  // ---------------------------------------------------------------------------------------

  datatype Event =
    | Request(key: string, now: real)
    | Cleanup(now: real)

  ghost predicate Ordered(events: seq<Event>) {
    forall i, j :: 0 <= i < j < |events| ==> events[i].now <= events[j].now
  }

  /** What an event does to the entry of one key. */
  function Next(e: Option<Entry>, limits: Limits, ev: Event, key: string): Option<Entry> {
    match ev
    case Request(k, now) => if k == key then Decide(e, limits, now).entry else e
    case Cleanup(now) => Swept(e, limits, now)
  }

  function After(e: Option<Entry>, limits: Limits, events: seq<Event>, key: string): Option<Entry>
    decreases |events|
  {
    if events == [] then e else After(Next(e, limits, events[0], key), limits, events[1..], key)
  }

  predicate Admits(e: Option<Entry>, limits: Limits, ev: Event, key: string) {
    ev.Request? && ev.key == key && Decide(e, limits, ev.now).allowed
  }

  /** Requests admitted for `key` in [s, t]. */
  function Admissions(e: Option<Entry>, limits: Limits, events: seq<Event>, key: string, s: real, t: real): nat
    decreases |events|
  {
    if events == [] then 0 else
      (if s <= events[0].now <= t && Admits(e, limits, events[0], key) then 1 else 0)
        + Admissions(Next(e, limits, events[0], key), limits, events[1..], key, s, t)
  }

  /** What a caller is told: the verdict and the seconds to wait. */
  datatype Answer = Answer(allowed: bool, retryAfter: Option<int>)

  function Told(e: Option<Entry>, limits: Limits, now: real): Answer {
    Answer(Decide(e, limits, now).allowed, Decide(e, limits, now).retryAfter)
  }

  /** The answers to the requests of one key. */
  function Answers(e: Option<Entry>, limits: Limits, events: seq<Event>, key: string): seq<Answer>
    decreases |events|
  {
    if events == [] then [] else
      (if events[0].Request? && events[0].key == key then [Told(e, limits, events[0].now)] else [])
        + Answers(Next(e, limits, events[0], key), limits, events[1..], key)
  }

  /** The entry's times are consistent with how it was written. */
  ghost predicate Consistent(e: Option<Entry>, limits: Limits, now: real) {
    e.Some? ==>
      && e.value.firstRequest <= now
      && e.value.count >= 0
      && (e.value.blockedUntil.Some? ==>
            && e.value.count >= limits.max
            && e.value.firstRequest + limits.block as real <= e.value.blockedUntil.value
              <= e.value.firstRequest + limits.window as real + limits.block as real)
  }

  lemma NextConsistent(e: Option<Entry>, limits: Limits, ev: Event, key: string, now: real)
    requires Consistent(e, limits, now) && now <= ev.now && limits.window >= 0
    ensures Consistent(Next(e, limits, ev, key), limits, ev.now)
  {
  }

  // ---------------------------------------------------------------------------------------
  // At most twice the limit
  // ---------------------------------------------------------------------------------------

  /** What the key can still be granted by `end`: the rest of its window, and a further full window if one can
      open in time. */
  function Allowance(e: Option<Entry>, limits: Limits, end: real): nat
    requires limits.max >= 1
  {
    if e.None? then limits.max else
      (if e.value.blockedUntil.Some? || e.value.count >= limits.max || e.value.count < 0 then 0 else limits.max - e.value.count)
        + (if e.value.firstRequest + limits.window as real < end then limits.max else 0)
  }

  lemma AllowancePays(e: Option<Entry>, limits: Limits, ev: Event, key: string, from: real, s: real)
    requires Consistent(e, limits, from) && from <= ev.now && s <= ev.now <= s + limits.window as real
    requires 0 <= limits.window <= limits.block && limits.max >= 1
    ensures var end := s + limits.window as real;
            Allowance(Next(e, limits, ev, key), limits, end) + (if Admits(e, limits, ev, key) then 1 else 0) <= Allowance(e, limits, end)
  {
  }

  lemma {:induction false} AllowanceBound(e: Option<Entry>, limits: Limits, events: seq<Event>, key: string, from: real, s: real)
    requires Consistent(e, limits, from) && Ordered(events) && 0 <= limits.window <= limits.block && limits.max >= 1
    requires events != [] ==> from <= events[0].now && s <= events[0].now
    ensures Admissions(e, limits, events, key, s, s + limits.window as real) <= Allowance(e, limits, s + limits.window as real)
    decreases |events|
  {
    var end := s + limits.window as real;
    if events == [] {
    } else if end < events[0].now {
      NoneAfter(e, limits, events, key, s, end);
    } else {
      AllowancePays(e, limits, events[0], key, from, s);
      NextConsistent(e, limits, events[0], key, from);
      AllowanceBound(Next(e, limits, events[0], key), limits, events[1..], key, events[0].now, s);
    }
  }

  lemma {:induction false} NoneAfter(e: Option<Entry>, limits: Limits, events: seq<Event>, key: string, s: real, t: real)
    requires forall i :: 0 <= i < |events| ==> t < events[i].now
    ensures Admissions(e, limits, events, key, s, t) == 0
    decreases |events|
  {
    if events != [] { NoneAfter(Next(e, limits, events[0], key), limits, events[1..], key, s, t); }
  }

  lemma {:induction false} TwiceTheLimitFrom(e: Option<Entry>, limits: Limits, events: seq<Event>, key: string, from: real, s: real)
    requires Consistent(e, limits, from) && Ordered(events) && 0 <= limits.window <= limits.block && limits.max >= 1
    requires events != [] ==> from <= events[0].now
    ensures Admissions(e, limits, events, key, s, s + limits.window as real) <= 2 * limits.max
    decreases |events|
  {
    if events != [] && events[0].now < s {
      NextConsistent(e, limits, events[0], key, from);
      TwiceTheLimitFrom(Next(e, limits, events[0], key), limits, events[1..], key, events[0].now, s);
    } else {
      AllowanceBound(e, limits, events, key, from, s);
    }
  }

  /** With a positive limit and a block at least as long as the window, no interval of one window length admits more than
      twice the limit for a key, wherever `cleanup` runs. */
  lemma TwiceTheLimit(limits: Limits, events: seq<Event>, key: string, s: real)
    requires Ordered(events) && 0 <= limits.window <= limits.block && limits.max >= 1
    ensures Admissions(None, limits, events, key, s, s + limits.window as real) <= 2 * limits.max
  {
    TwiceTheLimitFrom(None, limits, events, key, if events == [] then s else events[0].now, s);
  }

  // ---------------------------------------------------------------------------------------
  // Building runs
  // ---------------------------------------------------------------------------------------

  lemma {:induction false} AfterConcatenates(e: Option<Entry>, limits: Limits, a: seq<Event>, b: seq<Event>, key: string)
    ensures After(e, limits, a + b, key) == After(After(e, limits, a, key), limits, b, key)
    decreases |a|
  {
    if a == [] {
      assert a + b == b;
    } else {
      assert (a + b)[0] == a[0] && (a + b)[1..] == a[1..] + b;
      hide Next;
      AfterConcatenates(Next(e, limits, a[0], key), limits, a[1..], b, key);
    }
  }

  lemma {:induction false} AnswersConcatenate(e: Option<Entry>, limits: Limits, a: seq<Event>, b: seq<Event>, key: string)
    ensures Answers(e, limits, a + b, key) == Answers(e, limits, a, key) + Answers(After(e, limits, a, key), limits, b, key)
    decreases |a|
  {
    if a == [] {
      assert a + b == b;
    } else {
      assert (a + b)[0] == a[0] && (a + b)[1..] == a[1..] + b;
      hide Next, Told;
      AnswersConcatenate(Next(e, limits, a[0], key), limits, a[1..], b, key);
    }
  }

  lemma {:induction false} AdmissionsAdd(e: Option<Entry>, limits: Limits, a: seq<Event>, b: seq<Event>, key: string, s: real, t: real)
    ensures Admissions(e, limits, a + b, key, s, t)
         == Admissions(e, limits, a, key, s, t) + Admissions(After(e, limits, a, key), limits, b, key, s, t)
    decreases |a|
  {
    if a == [] {
      assert a + b == b;
    } else {
      assert (a + b)[0] == a[0] && (a + b)[1..] == a[1..] + b;
      hide Next, Admits;
      AdmissionsAdd(Next(e, limits, a[0], key), limits, a[1..], b, key, s, t);
    }
  }

  /** `n` requests for `key` at one instant. */
  function Burst(key: string, now: real, n: nat): (events: seq<Event>)
    ensures |events| == n && forall i :: 0 <= i < n ==> events[i] == Request(key, now)
  {
    seq(n, _ => Request(key, now))
  }

  /** A burst that fits what is left of an open window is admitted in full. */
  lemma {:induction false} BurstFills(limits: Limits, key: string, first: real, now: real, c: nat, n: nat, s: real, t: real)
    requires first <= now <= first + limits.window as real && c + n <= limits.max && s <= now <= t
    ensures After(Some(Entry(c, first, None)), limits, Burst(key, now, n), key) == Some(Entry(c + n, first, None))
    ensures Admissions(Some(Entry(c, first, None)), limits, Burst(key, now, n), key, s, t) == n
    decreases n
  {
    if n > 0 {
      assert Burst(key, now, n)[1..] == Burst(key, now, n - 1);
      BurstFills(limits, key, first, now, c + 1, n - 1, s, t);
    }
  }

  /** A burst that opens a window is admitted up to the limit. */
  lemma BurstOpens(e: Option<Entry>, limits: Limits, key: string, now: real, n: nat, s: real, t: real)
    requires 1 <= n <= limits.max && limits.window >= 0 && s <= now <= t
    requires e.Some? ==> !Blocked(e.value, now) && WindowOver(e.value, limits, now)
    ensures After(e, limits, Burst(key, now, n), key) == Some(Entry(n, now, None))
    ensures Admissions(e, limits, Burst(key, now, n), key, s, t) == n
  {
    assert Burst(key, now, n)[1..] == Burst(key, now, n - 1);
    BurstFills(limits, key, now, now, 1, n - 1, s, t);
  }

  /** Three windows within one window length: the rest of one that opened earlier, one that follows it at
      `second`, and one that a sweep makes possible at `third`. */
  function ThreeWindows(limits: Limits, key: string, second: real, third: real): seq<Event>
    requires limits.max >= 2
  {
    var late := 1.0 + limits.window as real;
    Burst(key, 1.0, 1) + (Burst(key, late, limits.max - 1) + (Burst(key, second, limits.max)
      + ([Request(key, second), Cleanup(third)] + Burst(key, third, limits.max))))
  }

  lemma ThreeWindowsOrdered(limits: Limits, key: string, second: real, third: real)
    requires limits.max >= 2 && limits.window >= 0 && 1.0 + limits.window as real < second < third
    ensures Ordered(ThreeWindows(limits, key, second, third))
  {
  }

  lemma ThreeWindowsAdmit(limits: Limits, key: string, second: real, third: real)
    requires limits.max >= 2 && limits.window >= 0 && limits.block >= 0
    requires 1.0 + limits.window as real < second && second + limits.block as real < third <= 1.0 + 2.0 * limits.window as real
    ensures Admissions(None, limits, ThreeWindows(limits, key, second, third), key, 1.0 + limits.window as real, 1.0 + 2.0 * limits.window as real)
         >= 3 * limits.max - 1
  {
    hide After, Admissions, Burst;
    var s, t := 1.0 + limits.window as real, 1.0 + 2.0 * limits.window as real;
    var open, rest, next := Burst(key, 1.0, 1), Burst(key, s, limits.max - 1), Burst(key, second, limits.max);
    var final := [Request(key, second), Cleanup(third)] + Burst(key, third, limits.max);
    BurstOpens(None, limits, key, 1.0, 1, 1.0, t);
    BurstFills(limits, key, 1.0, s, 1, limits.max - 1, s, t);
    BurstOpens(Some(Entry(limits.max, 1.0, None)), limits, key, second, limits.max, s, t);
    ThirdWindowAdmits(limits, key, second, third, s, t);
    AdmissionsAdd(None, limits, open, rest + (next + final), key, s, t);
    AdmissionsAdd(Some(Entry(1, 1.0, None)), limits, rest, next + final, key, s, t);
    AdmissionsAdd(Some(Entry(limits.max, 1.0, None)), limits, next, final, key, s, t);
  }

  lemma ThirdWindowAdmits(limits: Limits, key: string, second: real, third: real, s: real, t: real)
    requires limits.max >= 1 && limits.window >= 0 && limits.block >= 0 && 0.0 < second
    requires second + limits.block as real < third && s <= third <= t
    ensures Admissions(Some(Entry(limits.max, second, None)), limits,
                       [Request(key, second), Cleanup(third)] + Burst(key, third, limits.max), key, s, t) == limits.max
  {
    hide After, Admissions, Burst;
    SweepForgets(limits, key, second, third, s, t);
    BurstOpens(None, limits, key, third, limits.max, s, t);
    AdmissionsAdd(Some(Entry(limits.max, second, None)), limits,
                  [Request(key, second), Cleanup(third)], Burst(key, third, limits.max), key, s, t);
  }

  lemma SweepForgets(limits: Limits, key: string, second: real, third: real, s: real, t: real)
    requires limits.max >= 1 && limits.window >= 0 && limits.block >= 0 && 0.0 < second
    requires second + limits.block as real < third
    ensures var full, sweep := Some(Entry(limits.max, second, None)), [Request(key, second), Cleanup(third)];
            After(full, limits, sweep, key) == None && Admissions(full, limits, sweep, key, s, t) == 0
  {
    var full, sweep := Some(Entry(limits.max, second, None)), [Request(key, second), Cleanup(third)];
    var blocked := Some(Entry(limits.max, second, Some(second + limits.block as real)));
    assert Next(full, limits, sweep[0], key) == blocked && !Admits(full, limits, sweep[0], key);
    assert sweep[1..] == [Cleanup(third)];
    assert After(blocked, limits, [Cleanup(third)], key) == None;
    assert Admissions(blocked, limits, [Cleanup(third)], key, s, t) == 0;
  }

  // ---------------------------------------------------------------------------------------
  // Limits of one and less
  // ---------------------------------------------------------------------------------------

  /** The least time between two admissions under a limit of one. */
  function Gap(limits: Limits): real {
    if limits.block <= limits.window then limits.block as real else limits.window as real
  }

  /** What the key's entry is at `now` when the latest admission, under a limit of one, was at `a`. */
  ghost predicate SinceAdmission(e: Option<Entry>, limits: Limits, a: real, now: real) {
    if e.None? then a + Gap(limits) < now
    else
      && a == e.value.firstRequest && a <= now && e.value.count >= 1
      && (e.value.blockedUntil.Some? ==> a + limits.block as real <= e.value.blockedUntil.value)
  }

  ghost predicate Counted(e: Option<Entry>) {
    e.Some? ==> e.value.count >= 1
  }

  /** Under a limit of one, the next admission comes more than the gap after the latest. */
  lemma AdmittedApart(e: Option<Entry>, limits: Limits, ev: Event, key: string, a: real, now: real)
    requires limits.max == 1 && limits.window >= 0 && limits.block >= 0 && SinceAdmission(e, limits, a, now) && now <= ev.now
    ensures Admits(e, limits, ev, key) ==> a + Gap(limits) < ev.now && SinceAdmission(Next(e, limits, ev, key), limits, ev.now, ev.now)
    ensures !Admits(e, limits, ev, key) ==> SinceAdmission(Next(e, limits, ev, key), limits, a, ev.now)
    ensures Counted(Next(e, limits, ev, key))
  {
  }

  lemma FirstAdmission(e: Option<Entry>, limits: Limits, ev: Event, key: string)
    requires limits.max == 1 && limits.window >= 0 && limits.block >= 0 && Counted(e)
    ensures Counted(Next(e, limits, ev, key))
    ensures Admits(e, limits, ev, key) ==> SinceAdmission(Next(e, limits, ev, key), limits, ev.now, ev.now)
  {
  }

  /** After an admission at `a`, at most one more by `t` when two gaps do not fit, and none when one does not. */
  lemma {:induction false} AfterOne(e: Option<Entry>, limits: Limits, events: seq<Event>, key: string, a: real, now: real, s: real, t: real)
    requires limits.max == 1 && limits.window >= 0 && limits.block >= 0 && SinceAdmission(e, limits, a, now) && Ordered(events)
    requires events != [] ==> now <= events[0].now
    ensures a + 2.0 * Gap(limits) >= t ==> Admissions(e, limits, events, key, s, t) <= 1
    ensures a + Gap(limits) >= t ==> Admissions(e, limits, events, key, s, t) == 0
    decreases |events|
  {
    if events != [] {
      var ev := events[0];
      AdmittedApart(e, limits, ev, key, a, now);
      hide Next, Admits, SinceAdmission;
      AfterOne(Next(e, limits, ev, key), limits, events[1..], key, if Admits(e, limits, ev, key) then ev.now else a, ev.now, s, t);
    }
  }

  lemma {:induction false} TwoUnderOne(e: Option<Entry>, limits: Limits, events: seq<Event>, key: string, s: real)
    requires limits.max == 1 && limits.window >= 0 && limits.block >= 0 && Counted(e) && Ordered(events) && 2 * limits.block >= limits.window
    ensures Admissions(e, limits, events, key, s, s + limits.window as real) <= 2
    decreases |events|
  {
    if events != [] {
      var ev, t := events[0], s + limits.window as real;
      FirstAdmission(e, limits, ev, key);
      var next := Next(e, limits, ev, key);
      assert 2.0 * Gap(limits) >= limits.window as real;
      hide Next, Admits, Gap, SinceAdmission, Counted;
      if Admits(e, limits, ev, key) && s <= ev.now {
        AfterOne(next, limits, events[1..], key, ev.now, ev.now, s, t);
      } else {
        TwoUnderOne(next, limits, events[1..], key, s);
      }
    }
  }

  /** Under a limit of zero or less, only a request after its window is over is admitted. */
  ghost predicate OpenedSince(e: Option<Entry>, a: real) {
    e.Some? ==> a <= e.value.firstRequest && e.value.count >= 0
  }

  lemma ZeroAdmits(e: Option<Entry>, limits: Limits, ev: Event, key: string, a: real)
    requires limits.max <= 0 && limits.window >= 0 && OpenedSince(e, a) && a <= ev.now
    ensures OpenedSince(Next(e, limits, ev, key), a)
    ensures Admits(e, limits, ev, key) ==> a + limits.window as real < ev.now && OpenedSince(Next(e, limits, ev, key), ev.now)
  {
  }

  lemma {:induction false} NoneUnderZero(e: Option<Entry>, limits: Limits, events: seq<Event>, key: string, a: real, s: real, t: real)
    requires limits.max <= 0 && limits.window >= 0 && OpenedSince(e, a) && Ordered(events) && t <= a + limits.window as real
    requires events != [] ==> a <= events[0].now
    ensures Admissions(e, limits, events, key, s, t) == 0
    decreases |events|
  {
    if events != [] {
      ZeroAdmits(e, limits, events[0], key, a);
      hide Next, Admits, OpenedSince;
      NoneUnderZero(Next(e, limits, events[0], key), limits, events[1..], key, a, s, t);
    }
  }

  lemma {:induction false} OneUnderZero(e: Option<Entry>, limits: Limits, events: seq<Event>, key: string, from: real, s: real)
    requires limits.max <= 0 && limits.window >= 0 && OpenedSince(e, from) && Ordered(events)
    requires events != [] ==> from <= events[0].now
    ensures Admissions(e, limits, events, key, s, s + limits.window as real) <= 1
    decreases |events|
  {
    if events != [] {
      var ev := events[0];
      ZeroAdmits(e, limits, ev, key, from);
      var next := Next(e, limits, ev, key);
      hide Next, Admits, OpenedSince;
      if Admits(e, limits, ev, key) && s <= ev.now {
        NoneUnderZero(next, limits, events[1..], key, ev.now, s, s + limits.window as real);
      } else {
        OneUnderZero(next, limits, events[1..], key, from, s);
      }
    }
  }

  /** Under a limit of zero or less, an interval of one window length admits at most one request, for any block. */
  lemma OnePerWindow(limits: Limits, events: seq<Event>, key: string, s: real)
    requires limits.max <= 0 && limits.window >= 0 && Ordered(events)
    ensures Admissions(None, limits, events, key, s, s + limits.window as real) <= 1
  {
    OneUnderZero(None, limits, events, key, if events == [] then s else events[0].now, s);
  }

  /** That one admission: a request once the block and the window of a refused one are over. */
  lemma ZeroAdmitsOne(limits: Limits, key: string, again: real)
    requires limits.max <= 0 && limits.window >= 0 && limits.block >= 0 && again == 2.0 + limits.window as real + limits.block as real
    ensures var events := [Request(key, 1.0), Request(key, again)];
            Ordered(events) && Admissions(None, limits, events, key, again, again + limits.window as real) == 1
  {
    var refused := Some(Entry(0, 1.0, Some(1.0 + limits.block as real)));
    var events, one := [Request(key, 1.0), Request(key, again)], [Request(key, again)];
    assert events[1..] == one && one[1..] == [];
    assert Next(None, limits, events[0], key) == refused && Admits(refused, limits, one[0], key);
    assert Admissions(refused, limits, one, key, again, again + limits.window as real) == 1;
  }

  /** Under a limit of one, a sweep after each short block lets three requests into one window. */
  function ThreeSingles(key: string, second: real, third: real): seq<Event> {
    Burst(key, 1.0, 1) + (([Request(key, 1.0), Cleanup(second)] + Burst(key, second, 1)) + ([Request(key, second), Cleanup(third)] + Burst(key, third, 1)))
  }

  lemma ThreeSinglesAdmit(limits: Limits, key: string, second: real, third: real)
    requires limits.max == 1 && limits.window >= 0 && limits.block >= 0
    requires 1.0 + limits.block as real < second && second + limits.block as real < third <= 1.0 + limits.window as real
    ensures Admissions(None, limits, ThreeSingles(key, second, third), key, 1.0, 1.0 + limits.window as real) == 3
  {
    hide After, Admissions, Burst;
    var t := 1.0 + limits.window as real;
    var one, two, three := Burst(key, 1.0, 1), Burst(key, second, 1), Burst(key, third, 1);
    var toSecond, toThird := [Request(key, 1.0), Cleanup(second)], [Request(key, second), Cleanup(third)];
    BurstOpens(None, limits, key, 1.0, 1, 1.0, t);
    ThirdWindowAdmits(limits, key, 1.0, second, 1.0, t);
    ThirdWindowAdmits(limits, key, second, third, 1.0, t);
    SweepForgets(limits, key, 1.0, second, 1.0, t);
    BurstOpens(None, limits, key, second, 1, 1.0, t);
    AfterConcatenates(Some(Entry(1, 1.0, None)), limits, toSecond, two, key);
    AdmissionsAdd(None, limits, one, (toSecond + two) + (toThird + three), key, 1.0, t);
    AdmissionsAdd(Some(Entry(1, 1.0, None)), limits, toSecond + two, toThird + three, key, 1.0, t);
  }

  lemma ThreeSinglesOrdered(key: string, second: real, third: real)
    requires 1.0 <= second <= third
    ensures Ordered(ThreeSingles(key, second, third))
  {
  }

  // ---------------------------------------------------------------------------------------
  // What is admitted, and what a refusal tells
  // ---------------------------------------------------------------------------------------

  function Asked(events: seq<Event>, key: string): nat {
    if events == [] then 0 else (if events[0].Request? && events[0].key == key then 1 else 0) + Asked(events[1..], key)
  }

  function Least(a: int, b: int): int {
    if a <= b then a else b
  }

  /** No sweep, and nothing later than `end`. */
  ghost predicate QuietUntil(events: seq<Event>, first: real, end: real) {
    forall i :: 0 <= i < |events| ==> events[i].Request? && first <= events[i].now <= end
  }

  lemma {:induction false} WindowFills(e: Entry, limits: Limits, events: seq<Event>, key: string)
    requires limits.window >= 0 && 0 <= e.count <= limits.max && QuietUntil(events, e.firstRequest, e.firstRequest + limits.window as real)
    requires e.blockedUntil.Some? ==> e.count == limits.max
    ensures Admissions(Some(e), limits, events, key, e.firstRequest, e.firstRequest + limits.window as real)
         == Least(Asked(events, key), limits.max - e.count)
    decreases |events|
  {
    if events != [] {
      var next := Next(Some(e), limits, events[0], key);
      assert next.Some? && next.value.firstRequest == e.firstRequest;
      WindowFills(next.value, limits, events[1..], key);
      hide Next;
    }
  }

  /** In a window that a key opens, whatever other keys do, exactly its first requests up to the limit are admitted, for any
      block. */
  lemma WindowAdmits(limits: Limits, events: seq<Event>, key: string, first: real)
    requires limits.max >= 1 && limits.window >= 0 && events != [] && events[0] == Request(key, first)
    requires QuietUntil(events, first, first + limits.window as real)
    ensures Admissions(None, limits, events, key, first, first + limits.window as real) == Least(Asked(events, key), limits.max)
  {
    WindowFills(Entry(1, first, None), limits, events[1..], key);
    assert Next(None, limits, events[0], key) == Some(Entry(1, first, None));
  }

  lemma {:induction false} AfterConsistent(e: Option<Entry>, limits: Limits, events: seq<Event>, key: string, from: real, last: real)
    requires Consistent(e, limits, from) && Ordered(events) && limits.window >= 0 && from <= last
    requires events != [] ==> from <= events[0].now && events[|events| - 1].now <= last
    ensures Consistent(After(e, limits, events, key), limits, last)
    decreases |events|
  {
    if events != [] {
      NextConsistent(e, limits, events[0], key, from);
      hide Next;
      AfterConsistent(Next(e, limits, events[0], key), limits, events[1..], key, events[0].now, last);
    }
  }

  /** Whatever happened before, sweeps included, a client that has rested for the window and the block is admitted. */
  lemma RestedIsAdmitted(limits: Limits, events: seq<Event>, key: string, last: real, now: real)
    requires limits.max >= 1 && limits.window >= 0 && limits.block >= 0 && Ordered(events)
    requires events != [] ==> events[|events| - 1].now <= last
    requires last + limits.window as real + limits.block as real < now
    ensures Told(After(None, limits, events, key), limits, now) == Answer(true, None)
  {
    AfterConsistent(None, limits, events, key, if events == [] then last else events[0].now, last);
  }

  /** A refusal tells the whole seconds until the block ends. */
  lemma RefusalTells(e: Option<Entry>, limits: Limits, now: real)
    requires !Decide(e, limits, now).allowed
    ensures var v := Decide(e, limits, now);
            && v.entry.Some? && v.entry.value.blockedUntil.Some? && v.retryAfter.Some?
            && v.retryAfter.value as real <= v.entry.value.blockedUntil.value - now < v.retryAfter.value as real + 1.0
  {
  }

  // ---------------------------------------------------------------------------------------
  // Exactly when twice the limit is a bound
  // ---------------------------------------------------------------------------------------

  ghost predicate AtMostTwice(limits: Limits, events: seq<Event>, key: string, s: real) {
    Admissions(None, limits, events, key, s, s + limits.window as real) <= 2 * limits.max
  }

  /** A positive limit, and a block at least as long as the window; under a limit of one, half as long is enough. */
  predicate BlocksLongEnough(limits: Limits) {
    limits.max >= 1 && (limits.block >= limits.window || (limits.max == 1 && 2 * limits.block >= limits.window))
  }

  lemma LongBlocksBound(limits: Limits, events: seq<Event>, key: string, s: real)
    requires Ordered(events) && limits.window >= 0 && limits.block >= 0 && BlocksLongEnough(limits)
    ensures AtMostTwice(limits, events, key, s)
  {
    if limits.block >= limits.window {
      TwiceTheLimit(limits, events, key, s);
    } else {
      TwoUnderOne(None, limits, events, key, s);
    }
  }

  lemma ShortBlocksFail(limits: Limits) returns (events: seq<Event>, s: real)
    requires limits.window >= 0 && limits.block >= 0 && !BlocksLongEnough(limits)
    ensures Ordered(events) && !AtMostTwice(limits, events, "", s)
  {
    var w, b := limits.window as real, limits.block as real;
    if limits.max <= 0 {
      s := 2.0 + w + b;
      events := [Request("", 1.0), Request("", s)];
      ZeroAdmitsOne(limits, "", s);
    } else if limits.max == 1 {
      var gap := (w - 2.0 * b) / 2.0;
      s := 1.0;
      events := ThreeSingles("", 1.0 + b + gap, 1.0 + 2.0 * b + 2.0 * gap);
      ThreeSinglesAdmit(limits, "", 1.0 + b + gap, 1.0 + 2.0 * b + 2.0 * gap);
      ThreeSinglesOrdered("", 1.0 + b + gap, 1.0 + 2.0 * b + 2.0 * gap);
    } else {
      var gap := (w - b) / 3.0;
      var second, third := 1.0 + w + gap, 1.0 + w + b + 2.0 * gap;
      s := 1.0 + w;
      events := ThreeWindows(limits, "", second, third);
      ThreeWindowsAdmit(limits, "", second, third);
      ThreeWindowsOrdered(limits, "", second, third);
      assert 1.0 + w + w == 1.0 + 2.0 * w;
    }
    hide Admissions, ThreeSingles, ThreeWindows;
  }

  ghost predicate AlwaysAtMostTwice(limits: Limits) {
    forall events: seq<Event>, key: string, s: real | Ordered(events) :: AtMostTwice(limits, events, key, s)
  }

  /** Twice the limit bounds every interval of one window length in every run if and only if the limit is positive and
      blocks are long enough. */
  lemma TwiceTheLimitIff(limits: Limits)
    requires limits.window >= 0 && limits.block >= 0
    ensures AlwaysAtMostTwice(limits) <==> BlocksLongEnough(limits)
  {
    hide AtMostTwice, Ordered, BlocksLongEnough;
    if BlocksLongEnough(limits) {
      forall events: seq<Event>, key: string, s: real | Ordered(events)
        ensures AtMostTwice(limits, events, key, s)
      {
        LongBlocksBound(limits, events, key, s);
      }
    } else {
      var events, s := ShortBlocksFail(limits);
      assert !AtMostTwice(limits, events, "", s);
    }
  }

  // ---------------------------------------------------------------------------------------
  // When cleanup is invisible
  // ---------------------------------------------------------------------------------------

  function WithoutCleanup(events: seq<Event>): seq<Event> {
    if events == [] then [] else
      (if events[0].Cleanup? then [] else [events[0]]) + WithoutCleanup(events[1..])
  }

  /** `swept` is `kept`, unless `kept` is a closed window that neither blocks nor counts any more. */
  ghost predicate SameButSwept(swept: Option<Entry>, kept: Option<Entry>, limits: Limits, now: real) {
    || swept == kept
    || (swept.None? && kept.Some? && !Blocked(kept.value, now) && WindowOver(kept.value, limits, now))
  }

  /** With a positive limit and a block at least as long as the window, sweeping an unblocked entry does not change what
      the next request gets or leaves behind. */
  lemma CleanupKeepsNextVerdict(e: Option<Entry>, limits: Limits, now: real, t: real)
    requires Consistent(e, limits, now) && now <= t && 0 <= limits.window <= limits.block && limits.max >= 1
    requires e.Some? ==> !Blocked(e.value, now)
    ensures SameAfterSweep(e, limits, now, t)
  {
  }

  ghost predicate SameAfterSweep(e: Option<Entry>, limits: Limits, now: real, t: real) {
    Decide(Swept(e, limits, now), limits, t) == Decide(e, limits, t)
  }

  ghost predicate SweepsHarmless(limits: Limits) {
    forall e, now, t | Consistent(e, limits, now) && now <= t && (e.Some? ==> !Blocked(e.value, now)) :: SameAfterSweep(e, limits, now, t)
  }

  /** Sweeping an unblocked entry is harmless for the next request if and only if the limit is positive and the block lasts at
      least the window. */
  lemma SweepsHarmlessIff(limits: Limits)
    requires limits.window >= 0 && limits.block >= 0
    ensures SweepsHarmless(limits) <==> limits.max >= 1 && limits.block >= limits.window
  {
    var w, b := limits.window as real, limits.block as real;
    if limits.max >= 1 && limits.block >= limits.window {
      forall e, now, t | Consistent(e, limits, now) && now <= t && (e.Some? ==> !Blocked(e.value, now))
        ensures SameAfterSweep(e, limits, now, t)
      {
        CleanupKeepsNextVerdict(e, limits, now, t);
      }
    } else {
      var e := Some(Entry(if limits.max >= 0 then limits.max else 0, 1.0, Some(1.0 + b)));
      var now := if limits.max <= 0 then 2.0 + b + w else 1.0 + (b + w) / 2.0;
      assert Consistent(e, limits, now) && !Blocked(e.value, now) && Swept(e, limits, now) == None;
      assert !SameAfterSweep(e, limits, now, now);
    }
  }

  lemma SameButSweptStep(swept: Option<Entry>, kept: Option<Entry>, limits: Limits, ev: Event, key: string, now: real)
    requires SameButSwept(swept, kept, limits, now) && Consistent(kept, limits, now) && now <= ev.now
    requires limits.max >= 1 && 0 <= limits.window == limits.block
    ensures ev.Request? && ev.key == key ==> Told(swept, limits, ev.now) == Told(kept, limits, ev.now)
    ensures SameButSwept(Next(swept, limits, ev, key), if ev.Cleanup? then kept else Next(kept, limits, ev, key), limits, ev.now)
  {
  }

  lemma {:induction false} SameAnswers(swept: Option<Entry>, kept: Option<Entry>, limits: Limits, events: seq<Event>, key: string, now: real)
    requires SameButSwept(swept, kept, limits, now) && Consistent(kept, limits, now) && Ordered(events)
    requires events != [] ==> now <= events[0].now
    requires limits.max >= 1 && 0 <= limits.window == limits.block
    ensures Answers(swept, limits, events, key) == Answers(kept, limits, WithoutCleanup(events), key)
    decreases |events|
  {
    if events != [] {
      var ev, rest := events[0], WithoutCleanup(events[1..]);
      SameButSweptStep(swept, kept, limits, ev, key, now);
      if ev.Cleanup? {
        assert WithoutCleanup(events) == rest;
        assert Consistent(kept, limits, ev.now);
        SameAnswers(Next(swept, limits, ev, key), kept, limits, events[1..], key, ev.now);
      } else {
        assert WithoutCleanup(events) == [ev] + rest;
        assert WithoutCleanup(events)[1..] == rest;
        NextConsistent(kept, limits, ev, key, now);
        SameAnswers(Next(swept, limits, ev, key), Next(kept, limits, ev, key), limits, events[1..], key, ev.now);
      }
    }
  }

  lemma {:induction false} WithoutCleanupConcatenates(a: seq<Event>, b: seq<Event>)
    ensures WithoutCleanup(a + b) == WithoutCleanup(a) + WithoutCleanup(b)
    ensures (forall i :: 0 <= i < |a| ==> a[i].Request?) ==> WithoutCleanup(a) == a
  {
    if a == [] {
      assert a + b == b;
    } else {
      assert (a + b)[1..] == a[1..] + b;
      WithoutCleanupConcatenates(a[1..], b);
    }
  }

  /** The end of a run in which a client with a full window asks at `again` and, after a sweep, at `last`. */
  function Provocation(key: string, again: real, last: real): seq<Event> {
    [Request(key, again), Cleanup(last), Request(key, last)]
  }

  /** Two answers, the last with the given verdict. */
  predicate Lasts(answers: seq<Answer>, allowed: bool) {
    |answers| == 2 && answers[1].allowed == allowed
  }

  lemma OneAnswer(e: Option<Entry>, limits: Limits, key: string, now: real)
    ensures Answers(e, limits, [Request(key, now)], key) == [Told(e, limits, now)]
  {
    hide Next, Told;
    var one := [Request(key, now)];
    assert one[1..] == [];
    assert Answers(Next(e, limits, one[0], key), limits, [], key) == [];
  }

  lemma ProvocationAnswers(limits: Limits, key: string, again: real, last: real)
    requires limits.max >= 1 && limits.window >= 0 && 1.0 <= again <= 1.0 + limits.window as real
    requires Stale(Entry(limits.max, 1.0, Some(again + limits.block as real)), limits, last)
    requires limits.block >= 0 && (last < again + limits.block as real || last <= 1.0 + limits.window as real)
    ensures var full := Some(Entry(limits.max, 1.0, None));
            && WithoutCleanup(Provocation(key, again, last)) == [Request(key, again), Request(key, last)]
            && Lasts(Answers(full, limits, Provocation(key, again, last), key), true)
            && Lasts(Answers(full, limits, [Request(key, again), Request(key, last)], key), false)
  {
    var full := Some(Entry(limits.max, 1.0, None));
    var blocked := Some(Entry(limits.max, 1.0, Some(again + limits.block as real)));
    var tail, one := Provocation(key, again, last), [Request(key, last)];
    var sweep, quiet := [Cleanup(last)] + one, [Request(key, again)] + one;
    assert one[1..] == [] && tail[1..] == sweep && sweep[1..] == one && quiet[1..] == one;
    assert Decide(full, limits, again).entry == blocked && Swept(blocked, limits, last) == None;
    assert WithoutCleanup(one) == one && sweep[0].Cleanup? && WithoutCleanup(sweep) == [] + one;
    assert Told(None, limits, last).allowed && !Told(blocked, limits, last).allowed;
    OneAnswer(None, limits, key, last);
    OneAnswer(blocked, limits, key, last);
    assert Answers(blocked, limits, sweep, key) == [Told(None, limits, last)];
  }

  lemma ProvocationShowsCleanup(limits: Limits, key: string, again: real, last: real)
    requires limits.max >= 1 && limits.window >= 0 && 1.0 <= again <= 1.0 + limits.window as real && again <= last
    requires Stale(Entry(limits.max, 1.0, Some(again + limits.block as real)), limits, last)
    requires limits.block >= 0 && (last < again + limits.block as real || last <= 1.0 + limits.window as real)
    ensures var events := Burst(key, 1.0, limits.max) + Provocation(key, again, last);
            Ordered(events) && Answers(None, limits, events, key) != Answers(None, limits, WithoutCleanup(events), key)
  {
    var fill, tail := Burst(key, 1.0, limits.max), Provocation(key, again, last);
    var quiet := [Request(key, again), Request(key, last)];
    WithoutCleanupConcatenates(fill, tail);
    BurstOpens(None, limits, key, 1.0, limits.max, 1.0, 1.0);
    ProvocationAnswers(limits, key, again, last);
    AnswersConcatenate(None, limits, fill, tail, key);
    AnswersConcatenate(None, limits, fill, quiet, key);
    assert Ordered(fill + tail);
    hide Answers, After, WithoutCleanup, Ordered, Burst, Provocation;
    var told := Answers(None, limits, fill, key);
    var full := Some(Entry(limits.max, 1.0, None));
    var with, without := Answers(full, limits, tail, key), Answers(full, limits, quiet, key);
    assert (told + with)[|told| + 1] == with[1] && (told + without)[|told| + 1] == without[1];
  }

  lemma ProvocationQuiet(key: string, again: real, last: real)
    ensures WithoutCleanup(Provocation(key, again, last)) == [Request(key, again), Request(key, last)]
  {
    WithoutCleanupConcatenates([Request(key, again)], [Cleanup(last)] + [Request(key, last)]);
    WithoutCleanupConcatenates([Cleanup(last)], [Request(key, last)]);
    WithoutCleanupConcatenates([Request(key, last)], []);
    assert [Cleanup(last)][1..] == [] && WithoutCleanup([Cleanup(last)]) == [] + WithoutCleanup([]);
    assert Provocation(key, again, last) == [Request(key, again)] + ([Cleanup(last)] + [Request(key, last)]);
  }

  lemma OneEvent(e: Option<Entry>, limits: Limits, ev: Event, key: string)
    ensures After(e, limits, [ev], key) == Next(e, limits, ev, key) && (ev.Cleanup? ==> Answers(e, limits, [ev], key) == [])
  {
    hide Next;
    assert [ev][1..] == [];
    assert After(Next(e, limits, ev, key), limits, [], key) == Next(e, limits, ev, key);
    assert Answers(Next(e, limits, ev, key), limits, [], key) == [];
  }

  /** Under a limit of zero or less, a sweep makes the client start over with a refusal. */
  lemma ZeroShowsCleanup(limits: Limits, key: string, last: real)
    requires limits.max <= 0 && limits.window >= 0 && limits.block >= 0 && last == 2.0 + limits.window as real + limits.block as real
    ensures var events := Provocation(key, 1.0, last);
            Ordered(events) && Answers(None, limits, events, key) != Answers(None, limits, WithoutCleanup(events), key)
  {
    var full := Some(Entry(0, 1.0, Some(1.0 + limits.block as real)));
    var asked, swept, one := [Request(key, 1.0)], [Cleanup(last)], [Request(key, last)];
    ProvocationQuiet(key, 1.0, last);
    assert Decide(None, limits, 1.0).entry == full && Swept(full, limits, last) == None;
    assert !Told(None, limits, last).allowed && Told(full, limits, last).allowed;
    OneAnswer(None, limits, key, 1.0);
    OneAnswer(None, limits, key, last);
    OneAnswer(full, limits, key, last);
    OneEvent(None, limits, asked[0], key);
    OneEvent(full, limits, swept[0], key);
    assert asked == [asked[0]] && swept == [swept[0]];
    AnswersConcatenate(None, limits, asked, swept + one, key);
    AnswersConcatenate(full, limits, swept, one, key);
    AnswersConcatenate(None, limits, asked, one, key);
    assert Provocation(key, 1.0, last) == asked + (swept + one) && asked + one == [Request(key, 1.0), Request(key, last)];
    hide Answers, After, Told, WithoutCleanup;
    assert Answers(None, limits, asked + (swept + one), key)[1] != Answers(None, limits, asked + one, key)[1];
  }

  ghost predicate CleanupInvisible(limits: Limits, events: seq<Event>, key: string) {
    Answers(None, limits, events, key) == Answers(None, limits, WithoutCleanup(events), key)
  }

  ghost predicate AlwaysInvisible(limits: Limits) {
    forall events: seq<Event>, key: string | Ordered(events) :: CleanupInvisible(limits, events, key)
  }

  lemma VisibleCleanup(limits: Limits) returns (events: seq<Event>)
    requires limits.window >= 0 && limits.block >= 0 && !(limits.max >= 1 && limits.block == limits.window)
    ensures Ordered(events) && !CleanupInvisible(limits, events, "")
  {
    hide Answers, WithoutCleanup, Burst, Provocation, Ordered;
    var w, b := limits.window as real, limits.block as real;
    if limits.max <= 0 {
      ZeroShowsCleanup(limits, "", 2.0 + w + b);
      events := Provocation("", 1.0, 2.0 + w + b);
    } else if limits.block < limits.window {
      ProvocationShowsCleanup(limits, "", 1.0, 1.0 + (w + b) / 2.0);
      events := Burst("", 1.0, limits.max) + Provocation("", 1.0, 1.0 + (w + b) / 2.0);
    } else {
      ProvocationShowsCleanup(limits, "", 1.0 + w, 1.0 + w + (w + b) / 2.0);
      events := Burst("", 1.0, limits.max) + Provocation("", 1.0 + w, 1.0 + w + (w + b) / 2.0);
    }
  }

  /** Sweeping never changes any answer or any reported wait, in any run and for any key, if and only if the limit is
      positive and the block lasts exactly as long as the window: a shorter block is forgotten with its count, a longer one is
      dropped while active. */
  lemma CleanupInvisibleIff(limits: Limits)
    requires limits.window >= 0 && limits.block >= 0
    ensures AlwaysInvisible(limits) <==> limits.max >= 1 && limits.block == limits.window
  {
    if limits.max >= 1 && limits.block == limits.window {
      forall events: seq<Event>, key: string | Ordered(events)
        ensures CleanupInvisible(limits, events, key)
      {
        SameAnswers(None, None, limits, events, key, if events == [] then 0.0 else events[0].now);
      }
    } else {
      hide CleanupInvisible, Ordered;
      var events := VisibleCleanup(limits);
      assert !CleanupInvisible(limits, events, "");
    }
  }

  /** While a block lasts, every request of the key is refused, whatever else happens, as long as no sweep
      comes more than two windows after the blocked window opened. */
  lemma {:induction false} BlockHolds(e: Entry, limits: Limits, events: seq<Event>, key: string)
    requires HasBlock(e)
    requires forall i :: 0 <= i < |events| ==> events[i].now < e.blockedUntil.value
    requires forall i :: 0 <= i < |events| && events[i].Cleanup? ==> events[i].now - e.firstRequest <= limits.window as real * 2.0
    ensures After(Some(e), limits, events, key) == Some(e)
    ensures forall i :: 0 <= i < |Answers(Some(e), limits, events, key)| ==> !Answers(Some(e), limits, events, key)[i].allowed
    decreases |events|
  {
    if events != [] {
      BlockHolds(e, limits, events[1..], key);
    }
  }
}
