/**
 The per-key token bucket of the rate limiter, with its background sweep that
 evicts visitors idle for more than ten minutes.  Tokens and times are reals
 (seconds); rounding is not modelled.
 */
module TokenBucket {

  datatype Visitor = Visitor(tokens: real, last: real)

  type Visitors = map<string, Visitor>

  const IDLE_LIMIT := 600.0

  function Min(a: real, b: real): real {
    if a < b then a else b
  }

  /** Tokens gained in `elapsed` seconds. */
  function Gain(elapsed: real, rps: real): real {
    elapsed * rps
  }

  /** The bucket of an existing visitor at `now`, before the request is served. */
  function Refill(v: Visitor, now: real, rps: real, burst: int): real {
    Min(v.tokens + Gain(now - v.last, rps), burst as real)
  }

  predicate Admits(vs: Visitors, key: string, now: real, rps: real, burst: int) {
    key in vs ==> Refill(vs[key], now, rps, burst) >= 1.0
  }

  function Served(vs: Visitors, key: string, now: real, rps: real, burst: int): Visitors {
    if key !in vs then vs[key := Visitor((burst - 1) as real, now)]
    else
      var tokens := Refill(vs[key], now, rps, burst);
      vs[key := Visitor(if tokens >= 1.0 then tokens - 1.0 else tokens, now)]
  }

  function Evicted(vs: Visitors, now: real): Visitors {
    map key | key in vs && !(vs[key].last < now - IDLE_LIMIT) :: vs[key]
  }

  // ---------------------------------------------------------- the limiter

  class Limiter {
    var rate: real
    var burst: int
    var visitors: Visitors

    ghost predicate Valid()
      reads this
    {
      rate > 0.0 && burst >= 1
    }

    constructor (rps: real, burst: int)
      ensures Valid() && visitors == map[]
      ensures this.rate == if rps <= 0.0 then 10.0 else rps
      ensures this.burst == if burst <= 0 then 20 else burst
    {
      rate := if rps <= 0.0 then 10.0 else rps;
      this.burst := if burst <= 0 then 20 else burst;
      visitors := map[];
    }

    method AllowRate(key: string, rps: real, burst: int, now: real) returns (ok: bool)
      requires Valid()
      modifies this
      ensures Valid() && rate == old(rate) && this.burst == old(this.burst)
      ensures var r := if rps <= 0.0 then rate else rps;
              var b := if burst <= 0 then this.burst else burst;
              ok == Admits(old(visitors), key, now, r, b) && visitors == Served(old(visitors), key, now, r, b)
    {
      var r := if rps <= 0.0 then rate else rps;
      var b := if burst <= 0 then this.burst else burst;
      if key !in visitors {
        visitors := visitors[key := Visitor((b - 1) as real, now)];
        return true;
      }
      var v := visitors[key];
      var elapsed := now - v.last;
      v := v.(tokens := v.tokens + Gain(elapsed, r));
      if v.tokens > b as real {
        v := v.(tokens := b as real);
      }
      v := v.(last := now);
      if v.tokens < 1.0 {
        visitors := visitors[key := v];
        return false;
      }
      v := v.(tokens := v.tokens - 1.0);
      visitors := visitors[key := v];
      return true;
    }

    /** One tick of the background sweep. */
    method Cleanup(now: real)
      modifies this`visitors
      ensures visitors == Evicted(old(visitors), now)
    {
      var cutoff := now - IDLE_LIMIT;
      var todo := visitors.Keys;
      while todo != {}
        invariant todo <= old(visitors).Keys
        invariant visitors == map key | key in old(visitors) &&
                    (key in todo || !(old(visitors)[key].last < cutoff)) :: old(visitors)[key]
        decreases todo
      {
        var key :| key in todo;
        if visitors[key].last < cutoff {
          visitors := visitors - {key};
        }
        todo := todo - {key};
      }
    }
  }

  // ----------------------------------------------------------------- runs

  datatype Event = Request(key: string, now: real, rps: real, burst: int) | Sweep(now: real)

  /** Times never go back, starting from `t`. */
  predicate Ordered(run: seq<Event>, t: real) {
    run == [] || (t <= run[0].now && Ordered(run[1..], run[0].now))
  }

  /** The requests of `key` carry a usable rate and burst, as AllowRate's defaulting leaves them. */
  predicate Usable(run: seq<Event>, key: string) {
    forall e :: e in run && Asks(e, key) ==> e.rps > 0.0 && e.burst >= 1
  }

  function Next(vs: Visitors, e: Event, evicting: bool): Visitors {
    match e
    case Request(key, now, rps, burst) => Served(vs, key, now, rps, burst)
    case Sweep(now) => if evicting then Evicted(vs, now) else vs
  }

  function After(vs: Visitors, run: seq<Event>, evicting: bool): Visitors
    decreases |run|
  {
    if run == [] then vs else After(Next(vs, run[0], evicting), run[1..], evicting)
  }

  predicate Asks(e: Event, key: string) {
    e.Request? && e.key == key
  }

  /** The answers given to the requests of `key`, in order. */
  function Answers(vs: Visitors, run: seq<Event>, key: string, evicting: bool): seq<bool>
    decreases |run|
  {
    if run == [] then [] else Answer(vs, run[0], key) + Answers(Next(vs, run[0], evicting), run[1..], key, evicting)
  }

  function Answer(vs: Visitors, e: Event, key: string): seq<bool> {
    if Asks(e, key) then [Admits(vs, key, e.now, e.rps, e.burst)] else []
  }

  // ------------------------------------------- eviction is unobservable

  /** Ten minutes of refill fill the bucket. */
  predicate Generous(rps: real, burst: int) {
    Gain(IDLE_LIMIT, rps) >= burst as real
  }

  /** Every request of `key` has such a rate; other keys may have any. */
  predicate GenerousTo(run: seq<Event>, key: string) {
    forall e :: e in run && Asks(e, key) ==> Generous(e.rps, e.burst)
  }

  ghost predicate Sane(vs: Visitors, key: string, t: real) {
    key in vs ==> vs[key].tokens >= 0.0 && vs[key].last <= t
  }

  /** The evicting limiter knows the same of `key`, or has forgotten it after it was idle too long. */
  ghost predicate Simulates(evicted: Visitors, full: Visitors, key: string, t: real) {
    && Sane(full, key, t)
    && (key in evicted ==> key in full && evicted[key] == full[key])
    && (key in full && key !in evicted ==> full[key].last < t - IDLE_LIMIT)
  }

  lemma GainMonotone(a: real, b: real, rps: real)
    requires a <= b && rps >= 0.0
    ensures Gain(a, rps) <= Gain(b, rps)
  {
  }

  lemma GainAdds(a: real, b: real, rps: real)
    ensures Gain(a + b, rps) == Gain(a, rps) + Gain(b, rps)
  {
  }

  lemma GainNonNegative(elapsed: real, rps: real)
    requires elapsed >= 0.0 && rps >= 0.0
    ensures Gain(elapsed, rps) >= 0.0
  {
  }

  /** A visitor idle past the limit has a full bucket, so it looks like a new one. */
  lemma IdleLooksFresh(v: Visitor, now: real, rps: real, burst: int)
    requires v.tokens >= 0.0 && v.last < now - IDLE_LIMIT
    requires rps > 0.0 && burst >= 1 && Generous(rps, burst)
    ensures Refill(v, now, rps, burst) == burst as real
  {
    GainMonotone(IDLE_LIMIT, now - v.last, rps);
  }

  lemma RefillNonNegative(v: Visitor, now: real, rps: real, burst: int)
    requires v.tokens >= 0.0 && v.last <= now && rps > 0.0 && burst >= 1
    ensures Refill(v, now, rps, burst) >= 0.0
  {
    GainNonNegative(now - v.last, rps);
  }

  lemma SaneServed(vs: Visitors, key: string, t: real, now: real, rps: real, burst: int)
    requires Sane(vs, key, t) && t <= now && rps > 0.0 && burst >= 1
    ensures Sane(Served(vs, key, now, rps, burst), key, now)
  {
    if key in vs {
      RefillNonNegative(vs[key], now, rps, burst);
    }
  }

  lemma SimulatesStep(evicted: Visitors, full: Visitors, e: Event, key: string, t: real)
    requires Simulates(evicted, full, key, t) && t <= e.now
    requires Asks(e, key) ==> e.rps > 0.0 && e.burst >= 1 && Generous(e.rps, e.burst)
    ensures Simulates(Next(evicted, e, true), Next(full, e, false), key, e.now)
    ensures Asks(e, key) ==> Admits(evicted, key, e.now, e.rps, e.burst) == Admits(full, key, e.now, e.rps, e.burst)
  {
    if Asks(e, key) {
      SaneServed(full, key, t, e.now, e.rps, e.burst);
      if key in full && key !in evicted {
        IdleLooksFresh(full[key], e.now, e.rps, e.burst);
      }
    }
  }

  lemma {:induction false} EvictionSimulated(evicted: Visitors, full: Visitors, run: seq<Event>, key: string, t: real)
    requires Simulates(evicted, full, key, t)
    requires Ordered(run, t) && Usable(run, key) && GenerousTo(run, key)
    ensures Answers(evicted, run, key, true) == Answers(full, run, key, false)
    decreases |run|
  {
    if run != [] {
      var e := run[0];
      assert e in run;
      SimulatesStep(evicted, full, e, key, t);
      EvictionSimulated(Next(evicted, e, true), Next(full, e, false), run[1..], key, e.now);
    }
  }

  /**
   Sweeping at arbitrary times never changes an answer given to a key if ten minutes refill the bucket of
   each of its requests, whatever rates other keys have.
   */
  lemma EvictionUnobservable(run: seq<Event>, key: string, t: real)
    requires Ordered(run, t) && Usable(run, key) && GenerousTo(run, key)
    ensures Answers(map[], run, key, true) == Answers(map[], run, key, false)
  {
    EvictionSimulated(map[], map[], run, key, t);
  }

  // ---------------------------------------- and observable otherwise

  /** `n` requests for one key at one instant. */
  function Volley(key: string, now: real, rps: real, burst: int, n: nat): seq<Event> {
    if n == 0 then [] else [Request(key, now, rps, burst)] + Volley(key, now, rps, burst, n - 1)
  }

  lemma {:induction false} AnswersAppend(vs: Visitors, a: seq<Event>, b: seq<Event>, key: string, evicting: bool)
    ensures Answers(vs, a + b, key, evicting)
            == Answers(vs, a, key, evicting) + Answers(After(vs, a, evicting), b, key, evicting)
    decreases |a|
  {
    if a == [] {
      assert a + b == b;
    } else {
      var next, head := Next(vs, a[0], evicting), Answer(vs, a[0], key);
      AnswersAppend(next, a[1..], b, key, evicting);
      assert (a + b)[0] == a[0] && (a + b)[1..] == a[1..] + b;
      var x, y := Answers(next, a[1..], key, evicting), Answers(After(next, a[1..], evicting), b, key, evicting);
      assert Answers(vs, a + b, key, evicting) == head + (x + y);
      assert head + (x + y) == (head + x) + y;
    }
  }

  /** A volley is answered by whole tokens: all admitted exactly when the bucket covers it. */
  lemma {:induction false} VolleyDrains(vs: Visitors, key: string, now: real, rps: real, burst: int, n: nat,
                                        evicting: bool)
    requires key in vs && vs[key].last == now && vs[key].tokens <= burst as real
    ensures vs[key].tokens >= n as real ==>
              && (forall ok :: ok in Answers(vs, Volley(key, now, rps, burst, n), key, evicting) ==> ok)
              && After(vs, Volley(key, now, rps, burst, n), evicting)
                 == vs[key := Visitor(vs[key].tokens - n as real, now)]
    ensures n > 0 && vs[key].tokens < n as real ==>
              false in Answers(vs, Volley(key, now, rps, burst, n), key, evicting)
    decreases n
  {
    if n > 0 {
      var run := Volley(key, now, rps, burst, n);
      assert run[0] == Request(key, now, rps, burst) && run[1..] == Volley(key, now, rps, burst, n - 1);
      var vs' := Served(vs, key, now, rps, burst);
      var rest := Answers(vs', run[1..], key, evicting);
      assert Answers(vs, run, key, evicting) == [Admits(vs, key, now, rps, burst)] + rest;
      assert Answers(vs, run, key, evicting)[0] == Admits(vs, key, now, rps, burst);
      assert Gain(0.0, rps) == 0.0;
      assert Refill(vs[key], now, rps, burst) == vs[key].tokens;
      if vs[key].tokens >= 1.0 {
        VolleyDrains(vs', key, now, rps, burst, n - 1, evicting);
        assert After(vs, run, evicting) == After(vs', run[1..], evicting);
        assert vs[key].tokens - 1.0 - (n - 1) as real == vs[key].tokens - n as real;
      }
    }
  }

  lemma {:induction false} VolleyShape(key: string, now: real, rps: real, burst: int, n: nat)
    ensures |Volley(key, now, rps, burst, n)| == n
    ensures forall e :: e in Volley(key, now, rps, burst, n) ==> e == Request(key, now, rps, burst)
  {
    if n > 0 {
      VolleyShape(key, now, rps, burst, n - 1);
    }
  }

  lemma {:induction false} OrderedAppend(a: seq<Event>, b: seq<Event>, t: real, u: real)
    requires t <= u && Ordered(b, u)
    requires forall e :: e in a ==> e.now == t
    ensures Ordered(a + b, t)
    decreases |a|
  {
    if a == [] {
      assert a + b == b;
      if b != [] {
        assert Ordered(b[1..], b[0].now);
      }
    } else {
      assert a[0] in a && (a + b)[1..] == a[1..] + b;
      OrderedAppend(a[1..], b, t, u);
    }
  }

  /** Drain the bucket, sleep just over ten minutes, sweep, and ask for a full burst again. */
  function Probe(key: string, rps: real, burst: nat, wake: real): seq<Event> {
    Volley(key, 0.0, rps, burst, burst) + ([Sweep(wake)] + Volley(key, wake, rps, burst, burst))
  }

  /** The evicting limiter admits the whole probe. */
  lemma ProbeEvicted(key: string, rps: real, burst: nat, wake: real)
    requires burst >= 1 && wake > IDLE_LIMIT
    ensures forall ok :: ok in Answers(map[], Probe(key, rps, burst, wake), key, true) ==> ok
  {
    var v1, v2 := Volley(key, 0.0, rps, burst, burst), Volley(key, wake, rps, burst, burst);
    FreshVolley(key, 0.0, rps, burst, true);
    var drained := map[key := Visitor(0.0, 0.0)];
    AnswersAppend(map[], v1, [Sweep(wake)] + v2, key, true);
    assert Evicted(drained, wake) == map[];
    assert ([Sweep(wake)] + v2)[1..] == v2;
    assert Answers(drained, [Sweep(wake)] + v2, key, true) == [] + Answers(map[], v2, key, true);
    FreshVolley(key, wake, rps, burst, true);
  }

  /** A full burst from a new key is admitted and leaves an empty bucket. */
  lemma FreshVolley(key: string, now: real, rps: real, burst: nat, evicting: bool)
    requires burst >= 1
    ensures forall ok :: ok in Answers(map[], Volley(key, now, rps, burst, burst), key, evicting) ==> ok
    ensures After(map[], Volley(key, now, rps, burst, burst), evicting) == map[key := Visitor(0.0, now)]
  {
    var run := Volley(key, now, rps, burst, burst);
    assert run[0] == Request(key, now, rps, burst) && run[1..] == Volley(key, now, rps, burst, burst - 1);
    VolleyDrains(map[key := Visitor((burst - 1) as real, now)], key, now, rps, burst, burst - 1, evicting);
  }

  /** The limiter that never evicts refuses part of it. */
  lemma ProbeRefused(key: string, rps: real, burst: nat, wake: real)
    requires burst >= 1 && rps > 0.0 && wake > IDLE_LIMIT && Gain(wake, rps) < burst as real
    ensures false in Answers(map[], Probe(key, rps, burst, wake), key, false)
  {
    var v1, v2 := Volley(key, 0.0, rps, burst, burst), Volley(key, wake, rps, burst, burst);
    FreshVolley(key, 0.0, rps, burst, false);
    var drained := map[key := Visitor(0.0, 0.0)];
    AnswersAppend(map[], v1, [Sweep(wake)] + v2, key, false);
    assert ([Sweep(wake)] + v2)[1..] == v2;
    assert Answers(drained, [Sweep(wake)] + v2, key, false) == [] + Answers(drained, v2, key, false);
    assert v2[0] == Request(key, wake, rps, burst) && v2[1..] == Volley(key, wake, rps, burst, burst - 1);
    var tokens := Gain(wake, rps);
    assert Refill(drained[key], wake, rps, burst) == tokens;
    if tokens >= 1.0 {
      VolleyDrains(drained[key := Visitor(tokens - 1.0, wake)], key, wake, rps, burst, burst - 1, false);
    }
  }

  /** Every request of `key` uses this rate and burst; other keys may use any. */
  predicate FixedFor(run: seq<Event>, key: string, rps: real, burst: int) {
    forall e :: e in run && Asks(e, key) ==> e.rps == rps && e.burst == burst
  }

  /** No run in which `key` uses this rate and burst shows `key` the sweeps. */
  ghost predicate SweepsHidden(key: string, rps: real, burst: int) {
    forall run, t :: Ordered(run, t) && FixedFor(run, key, rps, burst) ==>
      Answers(map[], run, key, true) == Answers(map[], run, key, false)
  }

  lemma ProbeRuns(key: string, rps: real, burst: nat, wake: real)
    requires wake >= 0.0
    ensures Ordered(Probe(key, rps, burst, wake), 0.0) && FixedFor(Probe(key, rps, burst, wake), key, rps, burst)
  {
    var v1, v2 := Volley(key, 0.0, rps, burst, burst), Volley(key, wake, rps, burst, burst);
    VolleyShape(key, 0.0, rps, burst, burst);
    VolleyShape(key, wake, rps, burst, burst);
    OrderedAppend(v2, [], wake, wake);
    assert v2 + [] == v2 && ([Sweep(wake)] + v2)[1..] == v2;
    OrderedAppend(v1, [Sweep(wake)] + v2, 0.0, wake);
  }

  /**
   For a key with a fixed rate and burst, and other keys with any, sweeps are invisible to the key in every
   run exactly when ten minutes refill its bucket.
   */
  lemma EvictionHiddenExactly(key: string, rps: real, burst: int)
    requires rps > 0.0 && burst >= 1
    ensures SweepsHidden(key, rps, burst) <==> 600.0 * rps >= burst as real
  {
    if Generous(rps, burst) {
      forall run, t | Ordered(run, t) && FixedFor(run, key, rps, burst)
        ensures Answers(map[], run, key, true) == Answers(map[], run, key, false)
      {
        EvictionUnobservable(run, key, t);
      }
    } else {
      var gap := burst as real - IDLE_LIMIT * rps;
      var wake := IDLE_LIMIT + gap / (2.0 * rps);
      assert wake * rps == IDLE_LIMIT * rps + gap / 2.0;
      assert gap / (2.0 * rps) > 0.0;
      ProbeEvicted(key, rps, burst, wake);
      ProbeRefused(key, rps, burst, wake);
      ProbeRuns(key, rps, burst, wake);
      var run := Probe(key, rps, burst, wake);
      assert Answers(map[], run, key, true) != Answers(map[], run, key, false);
    }
  }

  // ------------------------------------------------------- window bounds

  /** How many requests of `key` the never-evicting limiter admits. */
  function Admitted(vs: Visitors, run: seq<Event>, key: string): nat
    decreases |run|
  {
    if run == [] then 0
    else
      (if run[0].Request? && run[0].key == key && Admits(vs, key, run[0].now, run[0].rps, run[0].burst) then 1 else 0)
      + Admitted(Next(vs, run[0], false), run[1..], key)
  }

  /** Tokens of `key` stay between empty and full. */
  ghost predicate Within(vs: Visitors, key: string, burst: int, t: real) {
    key in vs ==> 0.0 <= vs[key].tokens <= burst as real && vs[key].last <= t
  }

  /** What `key` could still spend at time `t`. */
  function Credit(vs: Visitors, key: string, rps: real, burst: int, t: real): real {
    if key in vs then Refill(vs[key], t, rps, burst) else burst as real
  }

  lemma RefillLater(v: Visitor, t: real, now: real, rps: real, burst: int)
    requires rps > 0.0 && v.last <= t <= now
    ensures Refill(v, now, rps, burst) <= Refill(v, t, rps, burst) + Gain(now - t, rps)
  {
    GainNonNegative(now - t, rps);
    GainAdds(t - v.last, now - t, rps);
    assert (t - v.last) + (now - t) == now - v.last;
  }

  /** A visitor served at `now` is worth its tokens at `now`. */
  lemma RefillNow(v: Visitor, now: real, rps: real, burst: int)
    requires rps > 0.0 && v.last == now && v.tokens <= burst as real
    ensures Refill(v, now, rps, burst) == v.tokens
  {
    assert Gain(0.0, rps) == 0.0;
  }

  lemma StepWithin(vs: Visitors, e: Event, key: string, rps: real, burst: int, t: real)
    requires rps > 0.0 && burst >= 1 && FixedFor([e], key, rps, burst)
    requires Within(vs, key, burst, t) && t <= e.now
    ensures Within(Next(vs, e, false), key, burst, e.now)
    ensures (if e.Request? && e.key == key && Admits(vs, key, e.now, e.rps, e.burst) then 1.0 else 0.0)
            + Credit(Next(vs, e, false), key, rps, burst, e.now)
            <= Credit(vs, key, rps, burst, t) + Gain(e.now - t, rps)
  {
    assert e in [e];
    var vs' := Next(vs, e, false);
    GainNonNegative(e.now - t, rps);
    if key in vs {
      RefillNonNegative(vs[key], e.now, rps, burst);
      RefillLater(vs[key], t, e.now, rps, burst);
    }
    if e.Request? && e.key == key {
      RefillNow(vs'[key], e.now, rps, burst);
    }
  }

  lemma {:induction false} AdmittedByCredit(vs: Visitors, run: seq<Event>, key: string, rps: real, burst: int,
                                            t: real, end: real)
    requires rps > 0.0 && burst >= 1 && FixedFor(run, key, rps, burst)
    requires Within(vs, key, burst, t) && Ordered(run, t)
    requires t <= end && forall e :: e in run ==> e.now <= end
    ensures Admitted(vs, run, key) as real <= Credit(vs, key, rps, burst, t) + Gain(end - t, rps)
    decreases |run|
  {
    GainNonNegative(end - t, rps);
    if key in vs {
      RefillNonNegative(vs[key], t, rps, burst);
    }
    if run != [] {
      var e := run[0];
      assert e in run && FixedFor([e], key, rps, burst);
      StepWithin(vs, e, key, rps, burst, t);
      AdmittedByCredit(Next(vs, e, false), run[1..], key, rps, burst, e.now, end);
      GainAdds(e.now - t, end - e.now, rps);
      assert (e.now - t) + (end - e.now) == end - t;
    }
  }

  lemma {:induction false} RunWithin(vs: Visitors, run: seq<Event>, key: string, rps: real, burst: int,
                                     t: real, end: real)
    requires rps > 0.0 && burst >= 1 && FixedFor(run, key, rps, burst)
    requires Within(vs, key, burst, t) && Ordered(run, t)
    requires t <= end && forall e :: e in run ==> e.now <= end
    ensures Within(After(vs, run, false), key, burst, end)
    decreases |run|
  {
    if run != [] {
      var e := run[0];
      assert e in run && FixedFor([e], key, rps, burst);
      StepWithin(vs, e, key, rps, burst, t);
      RunWithin(Next(vs, e, false), run[1..], key, rps, burst, e.now, end);
    }
  }

  /**
   For a key with a fixed rate and burst and no eviction: after any earlier run the
   bucket is between empty and full, and a window from `t` to `end` admits at most
   burst + rps * (end - t) requests, whatever other keys do.
   */
  lemma WindowBound(earlier: seq<Event>, run: seq<Event>, key: string, rps: real, burst: int, t0: real,
                    t: real, end: real)
    requires rps > 0.0 && burst >= 1 && FixedFor(earlier, key, rps, burst) && FixedFor(run, key, rps, burst)
    requires Ordered(earlier, t0) && t0 <= t && forall e :: e in earlier ==> e.now <= t
    requires Ordered(run, t) && t <= end && forall e :: e in run ==> e.now <= end
    ensures Within(After(map[], earlier, false), key, burst, t)
    ensures Admitted(After(map[], earlier, false), run, key) as real <= burst as real + Gain(end - t, rps)
  {
    RunWithin(map[], earlier, key, rps, burst, t0, t);
    AdmittedByCredit(After(map[], earlier, false), run, key, rps, burst, t, end);
  }

  // ------------------------------------------------- patient callers

  /** Two requests of `key` are always at least 1/rps apart. */
  predicate Spaced(run: seq<Event>, key: string, rps: real) {
    forall i, j :: 0 <= i < j < |run| && Asks(run[i], key) && Asks(run[j], key) ==>
      Gain(run[j].now - run[i].now, rps) >= 1.0
  }

  predicate Refuses(vs: Visitors, run: seq<Event>, key: string, evicting: bool)
    decreases |run|
  {
    run != [] &&
    (|| (Asks(run[0], key) && !Admits(vs, key, run[0].now, run[0].rps, run[0].burst))
     || Refuses(Next(vs, run[0], evicting), run[1..], key, evicting))
  }

  /** The key's bucket has refilled by a token before each of its requests. */
  ghost predicate Rested(vs: Visitors, run: seq<Event>, key: string, rps: real) {
    key in vs ==>
      && vs[key].tokens >= 0.0
      && forall e :: e in run && Asks(e, key) ==> Gain(e.now - vs[key].last, rps) >= 1.0
  }

  lemma RestedAdmits(vs: Visitors, run: seq<Event>, key: string, rps: real, burst: int)
    requires run != [] && burst >= 1 && FixedFor(run, key, rps, burst) && Rested(vs, run, key, rps) && Asks(run[0], key)
    ensures Admits(vs, key, run[0].now, run[0].rps, run[0].burst)
  {
    assert run[0] in run;
  }

  lemma {:induction false} PatientFrom(vs: Visitors, run: seq<Event>, key: string, rps: real, burst: int,
                                       evicting: bool)
    requires rps > 0.0 && burst >= 1 && FixedFor(run, key, rps, burst) && Spaced(run, key, rps)
    requires Rested(vs, run, key, rps)
    ensures !Refuses(vs, run, key, evicting)
    decreases |run|
  {
    if run != [] {
      if Asks(run[0], key) {
        RestedAdmits(vs, run, key, rps, burst);
      }
      StaysRested(vs, run, key, rps, burst, evicting);
      PatientFrom(Next(vs, run[0], evicting), run[1..], key, rps, burst, evicting);
    }
  }

  lemma StaysRested(vs: Visitors, run: seq<Event>, key: string, rps: real, burst: int, evicting: bool)
    requires run != [] && rps > 0.0 && burst >= 1 && FixedFor(run, key, rps, burst) && Spaced(run, key, rps)
    requires Rested(vs, run, key, rps)
    ensures FixedFor(run[1..], key, rps, burst) && Spaced(run[1..], key, rps)
    ensures Rested(Next(vs, run[0], evicting), run[1..], key, rps)
  {
    SpacedLater(run, key, rps);
    var vs' := Next(vs, run[0], evicting);
    assert run[0] in run;
    KeyAfter(vs, run[0], key, rps, burst, evicting);
    if key in vs' {
      LaterRequests(vs, run, key, rps, vs'[key].last);
    }
  }

  lemma LaterRequests(vs: Visitors, run: seq<Event>, key: string, rps: real, last: real)
    requires run != [] && Spaced(run, key, rps) && Rested(vs, run, key, rps)
    requires if Asks(run[0], key) then last == run[0].now else key in vs && last == vs[key].last
    ensures forall f :: f in run[1..] && Asks(f, key) ==> Gain(f.now - last, rps) >= 1.0
  {
    forall f | f in run[1..] && Asks(f, key) ensures Gain(f.now - last, rps) >= 1.0 {
      var j :| 1 <= j < |run| && run[j] == f;
      assert f in run;
      if Asks(run[0], key) {
        assert Asks(run[0], key) && Asks(run[j], key);
      }
    }
  }

  lemma SpacedLater(run: seq<Event>, key: string, rps: real)
    requires run != [] && Spaced(run, key, rps)
    ensures Spaced(run[1..], key, rps)
  {
    forall i, j | 0 <= i < j < |run| - 1 && Asks(run[1..][i], key) && Asks(run[1..][j], key)
      ensures Gain(run[1..][j].now - run[1..][i].now, rps) >= 1.0
    {
      assert Asks(run[i + 1], key) && Asks(run[j + 1], key);
    }
  }

  /** What one event makes of a key's visitor, when its request is admitted. */
  lemma KeyAfter(vs: Visitors, e: Event, key: string, rps: real, burst: int, evicting: bool)
    requires burst >= 1 && FixedFor([e], key, rps, burst) && (key in vs ==> vs[key].tokens >= 0.0)
    requires key in vs && Asks(e, key) ==> Gain(e.now - vs[key].last, rps) >= 1.0
    ensures var vs' := Next(vs, e, evicting);
            key in vs' ==>
              && vs'[key].tokens >= 0.0
              && (if Asks(e, key) then vs'[key].last == e.now else key in vs && vs'[key] == vs[key])
  {
    assert e in [e];
  }

  /** A caller whose requests are at least 1/rps apart is never refused, evicting or not. */
  lemma PatientCallerNeverRefused(run: seq<Event>, key: string, rps: real, burst: int, evicting: bool)
    requires rps > 0.0 && burst >= 1 && FixedFor(run, key, rps, burst) && Spaced(run, key, rps)
    ensures !Refuses(map[], run, key, evicting)
  {
    PatientFrom(map[], run, key, rps, burst, evicting);
  }

  // -------------------------------------------------- refusals are free

  /** What a visitor's bucket would hold at `t` if it had no brim. */
  function Level(v: Visitor, t: real, rps: real): real {
    v.tokens + Gain(t - v.last, rps)
  }

  lemma LevelLater(v: Visitor, t: real, now: real, rps: real)
    ensures Level(v, now, rps) == Level(v, t, rps) + Gain(now - t, rps)
  {
    GainAdds(t - v.last, now - t, rps);
    assert (t - v.last) + (now - t) == now - v.last;
  }

  /** Both limiters know the key and have filled its bucket alike. */
  ghost predicate Alike(x: Visitors, y: Visitors, key: string, rps: real, t: real) {
    key in x && key in y && Level(x[key], t, rps) == Level(y[key], t, rps)
  }

  lemma AlikeStep(x: Visitors, y: Visitors, e: Event, key: string, rps: real, burst: int, t: real)
    requires Alike(x, y, key, rps, t) && (Asks(e, key) ==> e.rps == rps && e.burst == burst)
    ensures Alike(Next(x, e, false), Next(y, e, false), key, rps, e.now)
    ensures Asks(e, key) ==> Admits(x, key, e.now, e.rps, e.burst) == Admits(y, key, e.now, e.rps, e.burst)
  {
    LevelLater(x[key], t, e.now, rps);
    LevelLater(y[key], t, e.now, rps);
  }

  /** From then on they answer the key alike. */
  lemma {:induction false} AlikeAnswers(x: Visitors, y: Visitors, run: seq<Event>, key: string, rps: real, burst: int,
                                        t: real)
    requires Alike(x, y, key, rps, t) && FixedFor(run, key, rps, burst)
    ensures Answers(x, run, key, false) == Answers(y, run, key, false)
    decreases |run|
  {
    if run != [] {
      assert run[0] in run;
      AlikeStep(x, y, run[0], key, rps, burst, t);
      AlikeAnswers(Next(x, run[0], false), Next(y, run[0], false), run[1..], key, rps, burst, run[0].now);
    }
  }

  /** A refused request leaves the bucket filling as if it had not been made. */
  lemma RefusalAlike(vs: Visitors, e: Event, key: string)
    requires Asks(e, key) && e.burst >= 1 && !Admits(vs, key, e.now, e.rps, e.burst)
    ensures Alike(Next(vs, e, false), vs, key, e.rps, e.now)
  {
    assert Gain(0.0, e.rps) == 0.0;
  }

  /**
   A refused request costs nothing: for a key with a fixed rate and burst, leaving it out of the run changes no
   other answer to that key.
   */
  lemma RefusalIsFree(before: seq<Event>, e: Event, after: seq<Event>, key: string, rps: real, burst: int)
      returns (earlier: seq<bool>, later: seq<bool>)
    requires burst >= 1 && Asks(e, key) && FixedFor(before + [e] + after, key, rps, burst)
    requires !Admits(After(map[], before, false), key, e.now, e.rps, e.burst)
    ensures earlier == Answers(map[], before, key, false)
    ensures Answers(map[], before + [e] + after, key, false) == earlier + [false] + later
    ensures Answers(map[], before + after, key, false) == earlier + later
  {
    var vs := After(map[], before, false);
    earlier, later := Answers(map[], before, key, false), Answers(vs, after, key, false);
    assert e in before + [e] + after && forall x :: x in after ==> x in before + [e] + after;
    RefusalNext(vs, e, after, key, rps, burst);
    AnswersAppend(map[], before, [e] + after, key, false);
    AnswersAppend(map[], before, after, key, false);
    assert before + [e] + after == before + ([e] + after);
    assert earlier + ([false] + later) == earlier + [false] + later;
  }

  lemma RefusalNext(vs: Visitors, e: Event, after: seq<Event>, key: string, rps: real, burst: int)
    requires burst >= 1 && Asks(e, key) && e.rps == rps && e.burst == burst && FixedFor(after, key, rps, burst)
    requires !Admits(vs, key, e.now, rps, burst)
    ensures Answers(vs, [e] + after, key, false) == [false] + Answers(vs, after, key, false)
  {
    assert ([e] + after)[0] == e && ([e] + after)[1..] == after;
    RefusalAlike(vs, e, key);
    AlikeAnswers(Next(vs, e, false), vs, after, key, rps, burst, e.now);
  }

  /** With sweeps too, when ten minutes refill the key's bucket. */
  lemma RefusalIsFreeSwept(before: seq<Event>, e: Event, after: seq<Event>, key: string, rps: real, burst: int, t: real)
      returns (earlier: seq<bool>, later: seq<bool>)
    requires rps > 0.0 && burst >= 1 && Generous(rps, burst)
    requires Asks(e, key) && FixedFor(before + [e] + after, key, rps, burst)
    requires Ordered(before + [e] + after, t) && Ordered(before + after, t)
    requires !Admits(After(map[], before, false), key, e.now, e.rps, e.burst)
    ensures Answers(map[], before + [e] + after, key, true) == earlier + [false] + later
    ensures Answers(map[], before + after, key, true) == earlier + later
  {
    earlier, later := RefusalIsFree(before, e, after, key, rps, burst);
    assert forall x :: x in before + after ==> x in before + [e] + after;
    EvictionUnobservable(before + [e] + after, key, t);
    EvictionUnobservable(before + after, key, t);
  }
}
