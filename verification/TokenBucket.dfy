/** The limiter of general traffic: a token bucket per key, which forgets the keys
    nobody used for a while (internal/platform/ratelimit/memory.go). Floating
    point is modelled by real numbers. */
module TokenBucket {
  import opened Base

  /** burst is the size of a full bucket, refill its tokens per second. */
  datatype Limits = Limits(burst: real, refill: real)

  const IDLE: nat := 600_000_000_000
  const WORTH_WALKING: nat := 1024

  function New(burst: int, perMinute: int): Limits { Limits(burst as real, perMinute as real / 60.0) }

  predicate Sensible(l: Limits) { l.burst >= 1.0 && l.refill > 0.0 }

  datatype Bucket = Bucket(tokens: real, seen: Time)

  /** What a duration in nanoseconds refills. */
  function Gain(l: Limits, d: int): real { d as real / 1_000_000_000.0 * l.refill }

  lemma GainAdds(l: Limits, a: int, b: int)
    ensures Gain(l, a + b) == Gain(l, a) + Gain(l, b)
  {
    var x, y := a as real / 1_000_000_000.0, b as real / 1_000_000_000.0;
    assert (a + b) as real / 1_000_000_000.0 == x + y;
    Distributes(x, y, l.refill);
  }

  lemma Distributes(x: real, y: real, r: real)
    ensures (x + y) * r == x * r + y * r
  {
  }

  lemma GainGrows(l: Limits, a: int, b: int)
    requires l.refill >= 0.0 && a <= b
    ensures Gain(l, a) <= Gain(l, b)
  {
    var x, y := a as real / 1_000_000_000.0, b as real / 1_000_000_000.0;
    Monotone(x, y, l.refill);
  }

  lemma Monotone(x: real, y: real, r: real)
    requires x <= y && r >= 0.0
    ensures x * r <= y * r
  {
    Distributes(x, y - x, r);
    assert (y - x) * r >= 0.0;
  }

  function Min(a: real, b: real): real { if a <= b then a else b }

  /** The tokens a key has at a moment: a key nobody has seen starts full. */
  function Level(l: Limits, b: Option<Bucket>, now: Time): real {
    match b case None => l.burst case Some(k) => Min(l.burst, k.tokens + Gain(l, now - k.seen))
  }

  datatype Decision = Allowed | Refused(retryAfter: nat)

  /** time.Duration.Round to a second, of no negative duration. */
  function RoundToSecond(d: nat): (r: nat)
    ensures d < r + SECOND && 2 * r <= 2 * d + SECOND && r % SECOND == 0 && 2 * d < 2 * r + SECOND
  {
    var past := d % SECOND;
    if past + past < SECOND then d - past else d + SECOND - past
  }

  function Nanoseconds(seconds: real): nat
    requires seconds >= 0.0
  {
    (seconds * 1_000_000_000.0).Floor
  }

  /** How long a key that has so many tokens is told to wait for a whole one. */
  function Wait(l: Limits, tokens: real): nat
    requires l.refill > 0.0 && tokens < 1.0
  {
    assert (1.0 - tokens) / l.refill >= 0.0 by { Quotient(1.0 - tokens, l.refill); }
    RoundToSecond(Nanoseconds((1.0 - tokens) / l.refill)) + SECOND
  }

  lemma Quotient(x: real, r: real)
    requires x >= 0.0 && r > 0.0
    ensures x / r >= 0.0 && x / r * r == x
  {
  }

  type Buckets = map<string, Bucket>

  function BucketOf(buckets: Buckets, key: string): Option<Bucket> {
    if key in buckets then Some(buckets[key]) else None
  }

  function Outcome(l: Limits, level: real): Decision
    requires l.refill > 0.0
  {
    if level < 1.0 then Refused(Wait(l, level)) else Allowed
  }

  /** One request of a key, on a limiter that forgets nothing. */
  function Ask(l: Limits, buckets: Buckets, key: string, now: Time): (Buckets, Decision)
    requires l.refill > 0.0
  {
    var level := Level(l, BucketOf(buckets, key), now);
    (buckets[key := Bucket(if level < 1.0 then level else level - 1.0, now)], Outcome(l, level))
  }

  predicate Idle(b: Bucket, now: Time) { now - b.seen > IDLE }

  /** forgetIdle. */
  function Forget(buckets: Buckets, now: Time): Buckets {
    if |buckets| < WORTH_WALKING then buckets
    else map key | key in buckets && !Idle(buckets[key], now) :: buckets[key]
  }

  /** One request on the limiter as it is. */
  function Serve(l: Limits, buckets: Buckets, key: string, now: Time): (Buckets, Decision)
    requires l.refill > 0.0
  {
    Ask(l, Forget(buckets, now), key, now)
  }

  class Memory {
    const l: Limits
    var buckets: Buckets

    constructor (burst: int, perMinute: int)
      ensures l == New(burst, perMinute) && buckets == map[]
    {
      l, buckets := New(burst, perMinute), map[];
    }

    method ForgetIdle(now: Time)
      modifies this
      ensures buckets == Forget(old(buckets), now)
    {
      if |buckets| < WORTH_WALKING {
        return;
      }
      var left := buckets.Keys;
      while left != {}
        invariant left <= old(buckets).Keys
        invariant forall key ::
                    key in buckets <==> key in old(buckets) && (key in left || !Idle(old(buckets)[key], now))
        invariant forall key :: key in buckets ==> buckets[key] == old(buckets)[key]
        decreases left
      {
        var key :| key in left;
        if now - buckets[key].seen > IDLE {
          buckets := buckets - {key};
        }
        left := left - {key};
      }
    }

    method Allow(key: string, now: Time) returns (d: Decision)
      requires l.refill > 0.0
      modifies this
      ensures (buckets, d) == Serve(l, old(buckets), key, now)
    {
      ForgetIdle(now);
      ghost var kept := buckets;
      if key !in buckets {
        buckets := buckets[key := Bucket(l.burst, now)];
        NothingGained(l);
      }
      var b := buckets[key];
      var tokens := Min(l.burst, b.tokens + Gain(l, now - b.seen));
      assert tokens == Level(l, BucketOf(kept, key), now);
      if tokens < 1.0 {
        buckets := buckets[key := Bucket(tokens, now)];
        assert buckets == kept[key := Bucket(tokens, now)];
        return Refused(Wait(l, tokens));
      }
      buckets := buckets[key := Bucket(tokens - 1.0, now)];
      assert buckets == kept[key := Bucket(tokens - 1.0, now)];
      return Allowed;
    }
  }

  lemma NothingGained(l: Limits)
    ensures Gain(l, 0) == 0.0
  {
  }

  // Runs: requests of any keys, at moments that never go back.

  datatype Request = Request(key: string, at: Time)

  predicate InOrder(run: seq<Request>) {
    forall i, j :: 0 <= i <= j < |run| ==> run[i].at <= run[j].at
  }

  function After(l: Limits, run: seq<Request>, n: nat, forgets: bool): Buckets
    requires l.refill > 0.0 && n <= |run|
  {
    if n == 0 then map[]
    else
      var before := After(l, run, n - 1, forgets);
      if forgets then Serve(l, before, run[n - 1].key, run[n - 1].at).0
      else Ask(l, before, run[n - 1].key, run[n - 1].at).0
  }

  /** What the n-th request was told. */
  function Told(l: Limits, run: seq<Request>, n: nat, forgets: bool): Decision
    requires l.refill > 0.0 && n < |run|
  {
    var before := After(l, run, n, forgets);
    if forgets then Serve(l, before, run[n].key, run[n].at).1 else Ask(l, before, run[n].key, run[n].at).1
  }

  /** Both limiters hold the same of every key from a moment on. */
  ghost predicate Alike(l: Limits, a: Buckets, b: Buckets, now: Time) {
    forall key: string, t: Time :: now <= t ==> Level(l, BucketOf(a, key), t) == Level(l, BucketOf(b, key), t)
  }

  predicate NoDebt(buckets: Buckets, now: Time) {
    forall key :: key in buckets ==> buckets[key].tokens >= 0.0 && buckets[key].seen <= now
  }

  /** The shortest time after which a bucket may be forgotten fills it. */
  predicate FillsWhileKept(l: Limits) { Gain(l, IDLE + 1) >= l.burst }

  /** Which limiters of whole numbers those are; up to a thousand million requests
      a second, those whose burst ten minutes at the rate make up for. */
  lemma FillsWhenTenMinutesDo(burst: int, perMinute: int)
    ensures FillsWhileKept(New(burst, perMinute)) <==> (IDLE + 1) * perMinute >= 60 * SECOND * burst
    ensures 0 <= perMinute < 60 * SECOND ==> (FillsWhileKept(New(burst, perMinute)) <==> 10 * perMinute >= burst)
  {
    var l, r := New(burst, perMinute), perMinute as real;
    assert Gain(l, IDLE + 1) == 600_000_000_001.0 / 1_000_000_000.0 * (r / 60.0);
    assert Gain(l, IDLE + 1) * 60_000_000_000.0 == 600_000_000_001.0 * r;
  }

  lemma IdleIsFull(l: Limits, b: Bucket, now: Time, t: Time)
    requires l.refill > 0.0 && b.tokens >= 0.0 && Idle(b, now) && now <= t && FillsWhileKept(l)
    ensures Level(l, Some(b), t) == l.burst
  {
    GainGrows(l, IDLE + 1, t - b.seen);
  }

  /** Forgetting one bucket changes nothing about its key exactly when the bucket
      is full by then. */
  lemma ForgettingOneIsHarmless(l: Limits, b: Bucket, now: Time)
    requires l.refill > 0.0 && b.seen <= now
    ensures (forall t: Time :: now <= t ==> Level(l, Some(b), t) == Level(l, None, t))
            <==> b.tokens + Gain(l, now - b.seen) >= l.burst
  {
    if b.tokens + Gain(l, now - b.seen) >= l.burst {
      forall t: Time | now <= t ensures Level(l, Some(b), t) == Level(l, None, t) {
        GainGrows(l, now - b.seen, t - b.seen);
      }
    } else {
      assert Level(l, Some(b), now) != Level(l, None, now);
    }
  }

  lemma ForgetIsAlike(l: Limits, buckets: Buckets, now: Time)
    requires l.refill > 0.0 && NoDebt(buckets, now) && FillsWhileKept(l)
    ensures Alike(l, Forget(buckets, now), buckets, now)
  {
    forall key: string, t: Time | now <= t
      ensures Level(l, BucketOf(Forget(buckets, now), key), t) == Level(l, BucketOf(buckets, key), t)
    {
      if key in buckets && Idle(buckets[key], now) {
        IdleIsFull(l, buckets[key], now, t);
      }
    }
  }

  lemma AskIsAlike(l: Limits, a: Buckets, b: Buckets, key: string, now: Time)
    requires l.refill > 0.0 && Alike(l, a, b, now)
    ensures Ask(l, a, key, now).1 == Ask(l, b, key, now).1
    ensures Alike(l, Ask(l, a, key, now).0, Ask(l, b, key, now).0, now)
  {
    assert Level(l, BucketOf(a, key), now) == Level(l, BucketOf(b, key), now);
    var x, y := Ask(l, a, key, now).0, Ask(l, b, key, now).0;
    forall other: string, t: Time | now <= t
      ensures Level(l, BucketOf(x, other), t) == Level(l, BucketOf(y, other), t)
    {
      assert Level(l, BucketOf(a, other), t) == Level(l, BucketOf(b, other), t);
    }
  }

  lemma AskKeepsNoDebt(l: Limits, buckets: Buckets, key: string, now: Time)
    requires Sensible(l) && NoDebt(buckets, now)
    ensures NoDebt(Ask(l, buckets, key, now).0, now)
  {
    if key in buckets {
      GainGrows(l, 0, now - buckets[key].seen);
      NothingGained(l);
    }
  }

  /** Forgetting the idle buckets gives every request of every run the answer it
      would have had if nothing were ever forgotten. */
  lemma {:induction false} ForgettingChangesNothing(l: Limits, run: seq<Request>, n: nat)
    requires Sensible(l) && FillsWhileKept(l) && InOrder(run) && n < |run|
    ensures Told(l, run, n, true) == Told(l, run, n, false)
    ensures Alike(l, After(l, run, n + 1, true), After(l, run, n + 1, false), run[n].at)
    ensures NoDebt(After(l, run, n + 1, true), run[n].at)
  {
    var a, b := After(l, run, n, true), After(l, run, n, false);
    var r := run[n];
    if n > 0 {
      ForgettingChangesNothing(l, run, n - 1);
    }
    var kept := Forget(a, r.at);
    ForgetIsAlike(l, a, r.at);
    assert Alike(l, kept, b, r.at) by {
      forall key: string, t: Time | r.at <= t
        ensures Level(l, BucketOf(kept, key), t) == Level(l, BucketOf(b, key), t)
      {
        assert Level(l, BucketOf(kept, key), t) == Level(l, BucketOf(a, key), t);
      }
    }
    AskIsAlike(l, kept, b, r.key, r.at);
    AskKeepsNoDebt(l, kept, r.key, r.at);
  }

  /** How many of the first n requests of a key, made between two moments, a
      limiter admitted. */
  function Admitted(l: Limits, run: seq<Request>, n: nat, key: string, from: Time, until: Time, forgets: bool): nat
    requires l.refill > 0.0 && n <= |run|
  {
    if n == 0 then 0
    else
      var r := run[n - 1];
      Admitted(l, run, n - 1, key, from, until, forgets)
      + if r.key == key && from <= r.at <= until && Told(l, run, n - 1, forgets) == Allowed then 1 else 0
  }

  /** Whatever was admitted since a moment, and what the key still has. */
  lemma {:induction false} SpentAndLeft(l: Limits, run: seq<Request>, n: nat, key: string, from: Time, until: Time,
                                        t: Time)
    requires Sensible(l) && InOrder(run) && n <= |run| && from <= t <= until
    requires n > 0 ==> run[n - 1].at <= t
    ensures Admitted(l, run, n, key, from, until, false) as real + Level(l, BucketOf(After(l, run, n, false), key), t)
            <= l.burst + Gain(l, t - from)
    ensures n > 0 ==> NoDebt(After(l, run, n, false), run[n - 1].at)
    decreases n
  {
    GainGrows(l, 0, t - from);
    NothingGained(l);
    if n > 0 {
      var r, before := run[n - 1], After(l, run, n - 1, false);
      if r.at >= from {
        SpentAndLeft(l, run, n - 1, key, from, until, r.at);
        SpentOnce(l, before, r, key, t);
        GainAdds(l, r.at - from, t - r.at);
      } else {
        NoneAdmittedBefore(l, run, n, key, from, until);
        if n > 1 {
          SpentAndLeft(l, run, n - 1, key, from, until, t);
        }
      }
      AskKeepsNoDebt(l, before, r.key, r.at);
      if r.key != key && r.at >= from {
        LevelGrowsSlowly(l, BucketOf(before, key), r.at, t);
      }
    }
  }

  lemma LevelGrowsSlowly(l: Limits, b: Option<Bucket>, s: Time, t: Time)
    requires l.refill > 0.0 && s <= t
    ensures Level(l, b, t) <= Level(l, b, s) + Gain(l, t - s)
  {
    GainGrows(l, 0, t - s);
    NothingGained(l);
    if b.Some? {
      GainAdds(l, s - b.value.seen, t - s);
    }
  }

  /** A request of the key takes one token if it is admitted and none if not. */
  lemma SpentOnce(l: Limits, before: Buckets, r: Request, key: string, t: Time)
    requires Sensible(l) && r.at <= t
    ensures r.key == key ==>
              Level(l, BucketOf(Ask(l, before, r.key, r.at).0, key), t)
              <= Level(l, BucketOf(before, key), r.at) - (if Ask(l, before, r.key, r.at).1 == Allowed then 1.0 else 0.0)
                + Gain(l, t - r.at)
  {
  }

  lemma {:induction false} NoneAdmittedBefore(l: Limits, run: seq<Request>, n: nat, key: string, from: Time,
                                              until: Time)
    requires l.refill > 0.0 && InOrder(run) && 0 < n <= |run| && run[n - 1].at < from
    ensures Admitted(l, run, n, key, from, until, false) == 0
    decreases n
  {
    if n > 1 {
      NoneAdmittedBefore(l, run, n - 1, key, from, until);
    }
  }

  /** In any span of time no key is admitted more often than a full bucket and
      what the span refills. */
  lemma {:induction false} AdmittedIsBounded(l: Limits, run: seq<Request>, n: nat, key: string, from: Time, until: Time)
    requires Sensible(l) && InOrder(run) && n <= |run| && from <= until
    ensures Admitted(l, run, n, key, from, until, false) as real <= l.burst + Gain(l, until - from)
    decreases n
  {
    if n > 0 && run[n - 1].at > until {
      AdmittedIsBounded(l, run, n - 1, key, from, until);
    } else {
      SpentAndLeft(l, run, n, key, from, until, until);
      LevelIsNotNegative(l, run, n, key, until);
    }
  }

  lemma LevelIsNotNegative(l: Limits, run: seq<Request>, n: nat, key: string, t: Time)
    requires Sensible(l) && n <= |run|
    requires n > 0 ==> run[n - 1].at <= t && NoDebt(After(l, run, n, false), run[n - 1].at)
    ensures Level(l, BucketOf(After(l, run, n, false), key), t) >= 0.0
  {
    var b := BucketOf(After(l, run, n, false), key);
    if b.Some? {
      GainGrows(l, 0, t - b.value.seen);
      NothingGained(l);
    }
  }

  lemma {:induction false} AdmittedAlike(l: Limits, run: seq<Request>, n: nat, key: string, from: Time, until: Time)
    requires Sensible(l) && FillsWhileKept(l) && InOrder(run) && n <= |run|
    ensures Admitted(l, run, n, key, from, until, true) == Admitted(l, run, n, key, from, until, false)
    decreases n
  {
    if n > 0 {
      AdmittedAlike(l, run, n - 1, key, from, until);
      ForgettingChangesNothing(l, run, n - 1);
    }
  }

  /** The same of the limiter that forgets, when a bucket fills while it is kept. */
  lemma ForgettingKeepsTheBound(l: Limits, run: seq<Request>, key: string, from: Time, until: Time)
    requires Sensible(l) && FillsWhileKept(l) && InOrder(run) && from <= until
    ensures Admitted(l, run, |run|, key, from, until, true) as real <= l.burst + Gain(l, until - from)
  {
    AdmittedAlike(l, run, |run|, key, from, until);
    AdmittedIsBounded(l, run, |run|, key, from, until);
  }

  /** A refused key that waits as long as it was told, or half a second less, and asks
      nothing meanwhile, is admitted: by the limiter that remembers it and by the one
      that forgot. */
  lemma WaitingIsEnough(l: Limits, buckets: Buckets, key: string, now: Time, later: Time)
    requires Sensible(l)
    requires var asked := Ask(l, buckets, key, now);
             asked.1.Refused? && later + SECOND / 2 >= now + asked.1.retryAfter && later >= now
    ensures Ask(l, Ask(l, buckets, key, now).0, key, later).1 == Allowed
    ensures Ask(l, Ask(l, buckets, key, now).0 - {key}, key, later).1 == Allowed
  {
    var tokens := Level(l, BucketOf(buckets, key), now);
    WaitRefills(l, tokens, later - now);
  }

  lemma WaitRefills(l: Limits, tokens: real, d: nat)
    requires Sensible(l) && tokens < 1.0 && d + SECOND / 2 >= Wait(l, tokens)
    ensures tokens + Gain(l, d) >= 1.0
  {
    var seconds := (1.0 - tokens) / l.refill;
    Quotient(1.0 - tokens, l.refill);
    var exact := Nanoseconds(seconds);
    assert exact as real > seconds * 1_000_000_000.0 - 1.0;
    assert d >= exact + 1;
    assert d as real >= seconds * 1_000_000_000.0;
    Monotone(seconds, d as real / 1_000_000_000.0, l.refill);
  }

  lemma WaitIsShort(l: Limits, tokens: real, d: nat)
    requires l.refill > 0.0 && tokens < 1.0 && (d == 0 || d + 3 * SECOND / 2 < Wait(l, tokens))
    ensures tokens + Gain(l, d) < 1.0
  {
    var seconds := (1.0 - tokens) / l.refill;
    Quotient(1.0 - tokens, l.refill);
    NothingGained(l);
    if d > 0 {
      var exact := Nanoseconds(seconds);
      assert RoundToSecond(exact) + RoundToSecond(exact) <= exact + exact + SECOND;
      assert d < exact;
      assert d as real / 1_000_000_000.0 < seconds;
      StrictlyMonotone(d as real / 1_000_000_000.0, seconds, l.refill);
    }
  }

  lemma StrictlyMonotone(x: real, y: real, r: real)
    requires x < y && r > 0.0
    ensures x * r < y * r
  {
    Distributes(x, y - x, r);
    assert (y - x) * r > 0.0;
  }

  /** And is told to wait no longer than it takes: the wait is of whole seconds, and
      at once, and until a second and a half before it is over, the key would still
      be refused. */
  lemma WaitingIsNeeded(l: Limits, buckets: Buckets, key: string, now: Time, early: Time)
    requires Sensible(l) && Ask(l, buckets, key, now).1.Refused?
    requires var asked := Ask(l, buckets, key, now);
             early == now || now <= early < now + asked.1.retryAfter - 3 * SECOND / 2
    ensures Ask(l, buckets, key, now).1.retryAfter % 1_000_000_000 == 0
    ensures Ask(l, Ask(l, buckets, key, now).0, key, early).1.Refused?
  {
    WaitIsShort(l, Level(l, BucketOf(buckets, key), now), early - now);
  }

  // The bound is what decides.

  /** The tokens a key still has are a full bucket and what was refilled since some
      moment, less what was admitted since. */
  lemma {:induction false} SomeSpanIsSpent(l: Limits, run: seq<Request>, n: nat, key: string, until: Time, t: Time)
    returns (from: Time)
    requires Sensible(l) && InOrder(run) && n <= |run| && t <= until
    requires n > 0 ==> run[n - 1].at <= t
    ensures from <= t
    ensures Level(l, BucketOf(After(l, run, n, false), key), t)
            >= l.burst + Gain(l, t - from) - Admitted(l, run, n, key, from, until, false) as real
  {
    NothingGained(l);
    if n == 0 {
      from := t;
    } else {
      var r := run[n - 1];
      if r.key != key {
        from := SomeSpanIsSpent(l, run, n - 1, key, until, t);
      } else if Level(l, BucketOf(After(l, run, n, false), key), t) == l.burst {
        from := t;
      } else {
        from := SomeSpanIsSpent(l, run, n - 1, key, until, r.at);
        GainAdds(l, r.at - from, t - r.at);
        AskSpends(l, After(l, run, n - 1, false), r, t);
      }
    }
  }

  lemma AskSpends(l: Limits, before: Buckets, r: Request, t: Time)
    requires l.refill > 0.0 && r.at <= t
    requires Level(l, BucketOf(Ask(l, before, r.key, r.at).0, r.key), t) != l.burst
    ensures Level(l, BucketOf(Ask(l, before, r.key, r.at).0, r.key), t)
            == Level(l, BucketOf(before, r.key), r.at) + Gain(l, t - r.at)
               - (if Ask(l, before, r.key, r.at).1 == Allowed then 1.0 else 0.0)
  {
  }

  /** A request keeps within the bound, counted from any moment before. */
  ghost predicate WithinEverySpan(l: Limits, run: seq<Request>, n: nat)
    requires l.refill > 0.0 && n < |run|
  {
    forall from: Time :: from <= run[n].at ==>
      Admitted(l, run, n, run[n].key, from, run[n].at, false) as real + 1.0 <= l.burst + Gain(l, run[n].at - from)
  }

  /** A request is admitted exactly when, with it, no span up to then has more than a
      full bucket and what the span refills. */
  lemma AdmittedExactly(l: Limits, run: seq<Request>, n: nat)
    requires Sensible(l) && InOrder(run) && n < |run|
    ensures Told(l, run, n, false) == Allowed <==> WithinEverySpan(l, run, n)
  {
    var r := run[n];
    if Told(l, run, n, false) == Allowed {
      forall from: Time | from <= r.at
        ensures Admitted(l, run, n, r.key, from, r.at, false) as real + 1.0 <= l.burst + Gain(l, r.at - from)
      {
        AdmittedIsBounded(l, run, n + 1, r.key, from, r.at);
      }
    } else {
      var from := SomeSpanIsSpent(l, run, n, r.key, r.at, r.at);
      assert Admitted(l, run, n, r.key, from, r.at, false) as real + 1.0 > l.burst + Gain(l, r.at - from);
    }
  }
}
