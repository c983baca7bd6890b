/** When the token bucket may forget: forgetting idle buckets changes no answer of
    any run exactly when a bucket fills in the time it is kept. Otherwise there is
    a run that shows it (internal/platform/ratelimit/memory.go). */
module Forgetting {
  import opened Base
  import opened TokenBucket

  /** The i-th of as many keys as are wanted. */
  function Key(i: nat): (key: string)
    ensures |key| == i
  {
    seq(i, _ => 'k')
  }

  /** The first moment at which a bucket seen at the beginning is idle. */
  const LATER: Time := IDLE + 1

  /** One key spends its whole burst, as many others as make a crowd ask once, and
      when all have been idle the first key asks again and again. */
  function Showing(burst: nat, more: nat): (run: seq<Request>)
    ensures |run| == burst + WORTH_WALKING - 1 + more
    ensures forall n :: 0 <= n < |run| ==>
              run[n] == if n < burst then Request(Key(0), 0)
                        else if n < burst + WORTH_WALKING - 1 then Request(Key(n - burst + 1), 0)
                        else Request(Key(0), LATER)
  {
    seq(burst + WORTH_WALKING - 1 + more, n requires 0 <= n =>
      if n < burst then Request(Key(0), 0)
      else if n < burst + WORTH_WALKING - 1 then Request(Key(n - burst + 1), 0)
      else Request(Key(0), LATER))
  }

  /** A limiter that holds the first key's bucket alone, with so many whole tokens
      at a moment; a full one may as well not be held. */
  ghost predicate Alone(l: Limits, buckets: Buckets, tokens: nat, at: Time) {
    buckets == map[Key(0) := Bucket(tokens as real, at)] || (buckets == map[] && l.burst == tokens as real)
  }

  lemma SpendOne(l: Limits, buckets: Buckets, tokens: nat, at: Time)
    requires l.refill > 0.0 && 1 <= tokens && tokens as real <= l.burst && Alone(l, buckets, tokens, at)
    ensures Ask(l, buckets, Key(0), at) == (map[Key(0) := Bucket((tokens - 1) as real, at)], Allowed)
    ensures Forget(buckets, at) == buckets
  {
    NothingGained(l);
    assert |buckets| <= 1;
    assert Level(l, BucketOf(buckets, Key(0)), at) == tokens as real;
    var b := Bucket((tokens - 1) as real, at);
    assert b.tokens == tokens as real - 1.0;
    assert buckets[Key(0) := b] == map[Key(0) := b];
  }

  /** What the limiter holds while the first key spends its burst. */
  lemma {:induction false} Spending(l: Limits, burst: nat, more: nat, n: nat, forgets: bool)
    requires l.refill > 0.0 && l.burst == burst as real && n <= burst
    ensures Alone(l, After(l, Showing(burst, more), n, forgets), burst - n, 0)
    ensures n > 0 ==> Key(0) in After(l, Showing(burst, more), n, forgets)
  {
    if n > 0 {
      Spending(l, burst, more, n - 1, forgets);
      SpendOne(l, After(l, Showing(burst, more), n - 1, forgets), burst - n + 1, 0);
    }
  }

  /** The crowd: the first key's empty bucket, and one more with every request. */
  ghost predicate Crowd(buckets: Buckets, others: nat) {
    && |buckets| == others + 1
    && Key(0) in buckets && buckets[Key(0)].tokens == 0.0
    && (forall key :: key in buckets ==> buckets[key].seen == 0 && |key| <= others)
  }

  lemma NobodyIsIdleYet(buckets: Buckets)
    requires forall key :: key in buckets ==> buckets[key].seen == 0
    ensures Forget(buckets, 0) == buckets
  {
  }

  lemma {:induction false} Crowding(l: Limits, burst: nat, more: nat, others: nat, forgets: bool)
    requires l.refill > 0.0 && l.burst == burst as real && burst > 0 && others < WORTH_WALKING
    ensures Crowd(After(l, Showing(burst, more), burst + others, forgets), others)
    decreases others
  {
    if others == 0 {
      Spending(l, burst, more, burst, forgets);
    } else {
      Crowding(l, burst, more, others - 1, forgets);
      var n := burst + others;
      var before := After(l, Showing(burst, more), n - 1, forgets);
      NobodyIsIdleYet(before);
      assert Showing(burst, more)[n - 1] == Request(Key(others), 0);
      OneMoreOfTheCrowd(l, before, others);
      assert After(l, Showing(burst, more), n, forgets) == Ask(l, before, Key(others), 0).0;
    }
  }

  lemma OneMoreOfTheCrowd(l: Limits, before: Buckets, others: nat)
    requires l.refill > 0.0 && others > 0 && Crowd(before, others - 1)
    ensures Crowd(Ask(l, before, Key(others), 0).0, others)
  {
    var later := Ask(l, before, Key(others), 0).0;
    assert Key(others) !in before;
    assert later.Keys == before.Keys + {Key(others)};
    assert |later| == |later.Keys| && |before| == |before.Keys|;
  }

  lemma AllAreIdle(buckets: Buckets)
    requires |buckets| >= WORTH_WALKING && forall key :: key in buckets ==> buckets[key].seen == 0
    ensures Forget(buckets, LATER) == map[]
  {
  }

  /** All forgotten, the first key has its whole burst again. */
  lemma {:induction false} SpendingAgain(l: Limits, burst: nat, more: nat, j: nat)
    requires l.refill > 0.0 && l.burst == burst as real && burst > 0 && j <= more && j <= burst
    ensures Alone(l, Forget(After(l, Showing(burst, more), burst + WORTH_WALKING - 1 + j, true), LATER), burst - j,
                  LATER)
  {
    if j == 0 {
      Crowding(l, burst, more, WORTH_WALKING - 1, true);
      AllAreIdle(After(l, Showing(burst, more), burst + WORTH_WALKING - 1, true));
    } else {
      SpendingAgain(l, burst, more, j - 1);
      var run, n := Showing(burst, more), burst + WORTH_WALKING - 1 + j;
      assert run[n - 1] == Request(Key(0), LATER);
      SpendOnceMore(l, After(l, run, n - 1, true), burst - j + 1);
      assert After(l, run, n, true) == Serve(l, After(l, run, n - 1, true), Key(0), LATER).0;
    }
  }

  lemma SpendOnceMore(l: Limits, buckets: Buckets, tokens: nat)
    requires l.refill > 0.0 && 1 <= tokens && tokens as real <= l.burst
             && Alone(l, Forget(buckets, LATER), tokens, LATER)
    ensures Alone(l, Forget(Serve(l, buckets, Key(0), LATER).0, LATER), tokens - 1, LATER)
  {
    SpendOne(l, Forget(buckets, LATER), tokens, LATER);
    AloneIsKept(l, Serve(l, buckets, Key(0), LATER).0, tokens - 1, LATER);
  }

  lemma AloneIsKept(l: Limits, buckets: Buckets, tokens: nat, at: Time)
    requires Alone(l, buckets, tokens, at)
    ensures Forget(buckets, at) == buckets
  {
    assert |buckets| <= 1;
  }

  /** Remembered, it has only what the idle time refilled. */
  lemma {:induction false} SpendingTheRest(l: Limits, burst: nat, more: nat, j: nat)
    requires l.refill > 0.0 && l.burst == burst as real && burst > 0 && j <= more
    requires Gain(l, LATER) < l.burst && j as real <= Gain(l, LATER)
    ensures var held := After(l, Showing(burst, more), burst + WORTH_WALKING - 1 + j, false);
            Level(l, BucketOf(held, Key(0)), LATER) == Gain(l, LATER) - j as real
  {
    var run, n := Showing(burst, more), burst + WORTH_WALKING - 1 + j;
    if j == 0 {
      Crowding(l, burst, more, WORTH_WALKING - 1, false);
    } else {
      SpendingTheRest(l, burst, more, j - 1);
      var held := After(l, run, n - 1, false);
      assert run[n - 1] == Request(Key(0), LATER);
      NothingGained(l);
      assert After(l, run, n, false) == Ask(l, held, Key(0), LATER).0;
    }
  }

  lemma ShowingIsInOrder(burst: nat, more: nat)
    ensures InOrder(Showing(burst, more))
  {
  }

  /** Once the remembered bucket is spent, the two answer differently. */
  lemma AnswersPart(l: Limits, burst: nat, k: nat)
    requires l.refill > 0.0 && l.burst == burst as real && burst > 0 && k < burst
    requires Gain(l, LATER) < l.burst && k as real <= Gain(l, LATER) < (k + 1) as real
    ensures var run, n := Showing(burst, k + 1), burst + WORTH_WALKING - 1 + k;
            Told(l, run, n, true) == Allowed && Told(l, run, n, false) != Allowed
  {
    var run, n := Showing(burst, k + 1), burst + WORTH_WALKING - 1 + k;
    assert run[n] == Request(Key(0), LATER);
    SpendingAgain(l, burst, k + 1, k);
    SpendOne(l, Forget(After(l, run, n, true), LATER), burst - k, LATER);
    SpendingTheRest(l, burst, k + 1, k);
  }

  /** For every limiter whose bucket does not fill while it is kept there is a run
      in which the forgetful one admits a request that the other refuses. */
  lemma ForgettingTooSoon(burst: nat, perMinute: nat) returns (run: seq<Request>, n: nat)
    requires burst >= 1 && perMinute >= 1 && !FillsWhileKept(New(burst, perMinute))
    ensures InOrder(run) && n < |run|
    ensures Told(New(burst, perMinute), run, n, true) == Allowed
            && Told(New(burst, perMinute), run, n, false) != Allowed
  {
    var l := New(burst, perMinute);
    NothingGained(l);
    GainGrows(l, 0, LATER);
    var k: nat := Gain(l, LATER).Floor;
    run, n := Showing(burst, k + 1), burst + WORTH_WALKING - 1 + k;
    ShowingIsInOrder(burst, k + 1);
    AnswersPart(l, burst, k);
  }

  /** Forgetting changes no answer of any run exactly when it is not too soon. */
  lemma ForgettingIsHarmlessExactly(burst: nat, perMinute: nat)
    requires burst >= 1 && perMinute >= 1
    ensures FillsWhileKept(New(burst, perMinute))
       <==> forall run: seq<Request>, n: nat :: InOrder(run) && n < |run|
              ==> Told(New(burst, perMinute), run, n, true) == Told(New(burst, perMinute), run, n, false)
  {
    var l := New(burst, perMinute);
    if FillsWhileKept(l) {
      forall run: seq<Request>, n: nat | InOrder(run) && n < |run|
        ensures Told(l, run, n, true) == Told(l, run, n, false)
      {
        ForgettingChangesNothing(l, run, n);
      }
    } else {
      var run, n := ForgettingTooSoon(burst, perMinute);
    }
  }
}
