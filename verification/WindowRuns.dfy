/** Runs of the limiters that share a table: many limits, on many instances whose
    clocks differ, each statement on its own, sweeping each other's rows or not
    (internal/platform/ratelimit/database.go). */
module WindowRuns {
  import opened Base
  import opened FixedWindow

  /** One statement, in the order the table took them: an attempt counted by an
      instance of a limiter, for a key, at what that instance's clock said; and the
      windows before one forgotten, which whoever opened that window does at once,
      later or, failing, never. */
  datatype Statement = Attempt(l: Limiter, key: string, now: Time) | Sweep(l: Limiter, start: int)

  function SubjectOf(c: Statement): string
    requires c.Attempt?
  {
    Subject(c.l.name, c.key)
  }

  function StartOf(c: Statement): int
    requires c.Attempt? && Valid(c.l)
  {
    Truncate(c.now, c.l.window)
  }

  /** Limiters that NewDatabase made. */
  predicate Made(run: seq<Statement>) {
    forall i :: 0 <= i < |run| ==> Valid(run[i].l)
  }

  /** The sweep at j forgets what is before a window of an earlier attempt. */
  ghost predicate SweepsFor(run: seq<Statement>, i: nat, j: nat)
    requires Made(run) && j < |run|
  {
    i < j && run[i].Attempt? && run[j].Sweep? && run[i].l == run[j].l && StartOf(run[i]) == run[j].start
  }

  /** One name is one limit, no instance's clock is a window or more behind what
      another's said before, and a window is swept before only by who was in it. */
  ghost predicate Fair(run: seq<Statement>) {
    && Made(run)
    && (forall i, j :: 0 <= i < j < |run| && run[i].l.name == run[j].l.name ==> run[i].l == run[j].l)
    && (forall i, j :: 0 <= i < j < |run| && run[i].Attempt? && run[j].Attempt? && run[i].l.name == run[j].l.name
                       ==> run[i].now < run[j].now + run[j].l.window)
    && (forall j :: 0 <= j < |run| && run[j].Sweep? ==> exists i: nat :: SweepsFor(run, i, j))
  }

  function Apply(rows: Rows, c: Statement): Rows
    requires Valid(c.l)
  {
    match c
    case Attempt(l, key, now) => Counted(rows, Subject(l.name, key), Truncate(now, l.window))
    case Sweep(l, start) => Swept(rows, Pattern(l.name), start - l.window)
  }

  function After(run: seq<Statement>, n: nat): Rows
    requires n <= |run| && Made(run)
  {
    if n == 0 then map[] else Apply(After(run, n - 1), run[n - 1])
  }

  function Told(run: seq<Statement>, n: nat): Decision
    requires n < |run| && Made(run) && run[n].Attempt?
  {
    Verdict(run[n].l, Hits(After(run, n), SubjectOf(run[n]), StartOf(run[n])) + 1, run[n].now)
  }

  /** Whether a statement is an attempt of a subject in a window. */
  predicate IsIn(c: Statement, subject: string, start: int)
    requires Valid(c.l)
  {
    c.Attempt? && SubjectOf(c) == subject && StartOf(c) == start
  }

  /** How many of the first n statements were attempts of a subject in a window:
      what a table nobody swept would hold. */
  function Attempts(run: seq<Statement>, n: nat, subject: string, start: int): nat
    requires n <= |run| && Made(run)
  {
    if n == 0 then 0 else Attempts(run, n - 1, subject, start) + if IsIn(run[n - 1], subject, start) then 1 else 0
  }

  /** A window that no limiter of this name has left behind by more than one. */
  ghost predicate Recent(run: seq<Statement>, n: nat, name: string, start: int)
    requires n <= |run| && Made(run)
  {
    forall i :: 0 <= i < n && run[i].Attempt? && run[i].l.name == name ==> StartOf(run[i]) - run[i].l.window <= start
  }

  lemma StatementKeeps(rows: Rows, c: Statement, name: string, key: string, start: int)
    requires Valid(c.l) && ValidName(name)
    requires c.Sweep? && c.l.name == name ==> c.start - c.l.window <= start
    ensures var subject := Subject(name, key);
            Hits(Apply(rows, c), subject, start)
            == Hits(rows, subject, start) + if IsIn(c, subject, start) then 1 else 0
  {
    SweepMatchesItsOwn(c.l.name, name, key);
  }

  lemma SweptIsOlder(run: seq<Statement>, i: nat, n: nat, start: int)
    requires Made(run) && n < |run| && SweepsFor(run, i, n) && Recent(run, n, run[n].l.name, start)
    ensures run[n].start - run[n].l.window <= start
  {
    assert StartOf(run[i]) - run[i].l.window <= start;
  }

  /** A sweep that deletes the counters of a limiter's name and window. */
  predicate Covers(c: Statement, name: string, start: int) {
    c.Sweep? && c.l.name == name && start < c.start - c.l.window
  }

  lemma {:induction false} AttemptsGrow(run: seq<Statement>, m: nat, n: nat, subject: string, start: int)
    requires m <= n <= |run| && Made(run)
    ensures Attempts(run, m, subject, start) <= Attempts(run, n, subject, start)
  {
    if m < n {
      AttemptsGrow(run, m, n - 1, subject, start);
    }
  }

  /** Among the first n statements, a sweep that deleted a counter. */
  ghost predicate Deleted(run: seq<Statement>, n: nat, name: string, key: string, start: int)
    requires n <= |run| && Made(run)
  {
    exists j :: 0 <= j < n && Covers(run[j], name, start) && Attempts(run, j, Subject(name, key), start) > 0
  }

  lemma DeletedByTheLast(run: seq<Statement>, n: nat, name: string, key: string, start: int)
    requires Made(run) && n < |run| && Covers(run[n], name, start)
    ensures Deleted(run, n + 1, name, key, start) <==> Attempts(run, n, Subject(name, key), start) > 0
  {
    if j :| 0 <= j < n && Covers(run[j], name, start) && Attempts(run, j, Subject(name, key), start) > 0 {
      AttemptsGrow(run, j, n, Subject(name, key), start);
    }
  }

  /** Whatever the clocks say and whoever sweeps, a counter never holds too many,
      and it holds too few exactly when it was deleted after something was counted
      in it. */
  lemma {:induction false} CountersAreShortExactly(run: seq<Statement>, n: nat, name: string, key: string, start: int)
    requires Made(run) && n <= |run| && ValidName(name)
    ensures Hits(After(run, n), Subject(name, key), start) <= Attempts(run, n, Subject(name, key), start)
    ensures Hits(After(run, n), Subject(name, key), start) < Attempts(run, n, Subject(name, key), start)
       <==> Deleted(run, n, name, key, start)
  {
    if n > 0 {
      CountersAreShortExactly(run, n - 1, name, key, start);
      if Covers(run[n - 1], name, start) {
        SweepMatchesItsOwn(name, name, key);
        DeletedByTheLast(run, n - 1, name, key, start);
      } else {
        assert Deleted(run, n, name, key, start) <==> Deleted(run, n - 1, name, key, start);
        StatementKeeps(After(run, n - 1), run[n - 1], name, key, start);
      }
    }
  }

  /** Sweeping, whenever it comes, changes nothing that a later attempt will look
      at. */
  lemma CountersAreExact(run: seq<Statement>, n: nat, name: string, key: string, start: int)
    requires Fair(run) && n <= |run| && ValidName(name) && Recent(run, n, name, start)
    ensures Hits(After(run, n), Subject(name, key), start) == Attempts(run, n, Subject(name, key), start)
  {
    CountersAreShortExactly(run, n, name, key, start);
    forall j | 0 <= j < n && run[j].Sweep? && run[j].l.name == name ensures !Covers(run[j], name, start) {
      var i: nat :| SweepsFor(run, i, j);
      SweptIsOlder(run, i, j, start);
    }
  }

  /** The window of an attempt is recent when it comes. */
  lemma OwnWindowIsRecent(run: seq<Statement>, n: nat)
    requires Fair(run) && n < |run| && run[n].Attempt?
    ensures Recent(run, n, run[n].l.name, StartOf(run[n]))
  {
    forall i | 0 <= i < n && run[i].Attempt? && run[i].l.name == run[n].l.name
      ensures StartOf(run[i]) - run[i].l.window <= StartOf(run[n])
    {
      StartsNear(run[i].now, run[n].now, run[n].l.window);
    }
  }

  /** An attempt is admitted exactly when, with it, its key has made no more than
      the limit in its window: as if nothing were ever swept. */
  lemma AdmittedWithinTheLimit(run: seq<Statement>, n: nat)
    requires Fair(run) && n < |run| && run[n].Attempt?
    ensures Told(run, n) == Allowed <==> Attempts(run, n, SubjectOf(run[n]), StartOf(run[n])) + 1 <= run[n].l.limit
  {
    OwnWindowIsRecent(run, n);
    CountersAreExact(run, n, run[n].l.name, run[n].key, StartOf(run[n]));
  }

  /** Whether the n-th statement is an attempt of a limiter's key that was admitted. */
  predicate Admitted(run: seq<Statement>, n: nat, l: Limiter, key: string)
    requires n < |run| && Made(run)
  {
    run[n].Attempt? && run[n].l == l && run[n].key == key && Told(run, n) == Allowed
  }

  /** How many of the first n were admitted of those in one window. */
  function AdmittedIn(run: seq<Statement>, n: nat, l: Limiter, key: string, index: nat): nat
    requires n <= |run| && Made(run)
  {
    if n == 0 then 0
    else
      AdmittedIn(run, n - 1, l, key, index)
      + if Admitted(run, n - 1, l, key) && Index(run[n - 1].now, l.window) == index then 1 else 0
  }

  /** No more than the limit in a window. */
  lemma {:induction false} LimitHolds(run: seq<Statement>, n: nat, l: Limiter, key: string, index: nat, start: int)
    requires Fair(run) && n <= |run| && Valid(l) && start == l.window * index - YEAR_ONE
    ensures AdmittedIn(run, n, l, key, index) <= Attempts(run, n, Subject(l.name, key), start)
    ensures AdmittedIn(run, n, l, key, index) <= l.limit
  {
    if n > 0 {
      var c := run[n - 1];
      LimitHolds(run, n - 1, l, key, index, start);
      if Admitted(run, n - 1, l, key) && Index(c.now, l.window) == index {
        assert StartOf(c) == start;
        AdmittedWithinTheLimit(run, n - 1);
      }
    }
  }

  function AdmittedBetween(run: seq<Statement>, n: nat, l: Limiter, key: string, from: Time, until: Time): nat
    requires n <= |run| && Made(run)
  {
    if n == 0 then 0
    else
      AdmittedBetween(run, n - 1, l, key, from, until)
      + if Admitted(run, n - 1, l, key) && from <= run[n - 1].now <= until then 1 else 0
  }

  lemma {:induction false} SpanIsTwoWindows(run: seq<Statement>, n: nat, l: Limiter, key: string, from: Time,
                                            until: Time)
    requires Fair(run) && n <= |run| && Valid(l) && from <= until <= from + l.window
    ensures var first := Index(from, l.window);
            AdmittedBetween(run, n, l, key, from, until)
            <= AdmittedIn(run, n, l, key, first) + AdmittedIn(run, n, l, key, first + 1)
  {
    if n > 0 {
      SpanIsTwoWindows(run, n - 1, l, key, from, until);
      if Admitted(run, n - 1, l, key) && from <= run[n - 1].now <= until {
        IndexesNear(from, run[n - 1].now, l.window);
      }
    }
  }

  /** In any span no longer than a window a key is admitted at most twice the
      limit, by whichever instances' clocks. */
  lemma TwiceTheLimitInASpan(run: seq<Statement>, l: Limiter, key: string, from: Time, until: Time)
    requires Fair(run) && Valid(l) && from <= until <= from + l.window
    ensures AdmittedBetween(run, |run|, l, key, from, until) <= 2 * l.limit
  {
    SpanIsTwoWindows(run, |run|, l, key, from, until);
    var first := Index(from, l.window);
    LimitHolds(run, |run|, l, key, first, l.window * first - YEAR_ONE);
    LimitHolds(run, |run|, l, key, first + 1, l.window * (first + 1) - YEAR_ONE);
  }

  // And twice is reached, by every limiter.

  /** The limit asked at one moment and again at another. */
  function Doubled(l: Limiter, key: string, before: Time, after: Time): (run: seq<Statement>)
    ensures |run| == 2 * l.limit
    ensures forall i :: 0 <= i < |run| ==> run[i] == Attempt(l, key, if i < l.limit then before else after)
  {
    seq(2 * l.limit, i requires 0 <= i < 2 * l.limit => Attempt(l, key, if i < l.limit then before else after))
  }

  lemma DoubledIsFair(l: Limiter, key: string, before: Time, after: Time)
    requires Valid(l) && before <= after
    ensures Fair(Doubled(l, key, before, after))
  {
  }

  lemma DoubledAsks(l: Limiter, key: string, before: Time, after: Time, n: nat)
    requires Valid(l) && n < 2 * l.limit && Truncate(before, l.window) != Truncate(after, l.window)
    ensures var c, subject := Doubled(l, key, before, after)[n], Subject(l.name, key);
            && c == Attempt(l, key, if n < l.limit then before else after)
            && (IsIn(c, subject, Truncate(before, l.window)) <==> n < l.limit)
            && (IsIn(c, subject, Truncate(after, l.window)) <==> n >= l.limit)
  {
  }

  lemma {:induction false} DoubledAttempts(l: Limiter, key: string, before: Time, after: Time, n: nat)
    requires Valid(l) && n <= 2 * l.limit && Truncate(before, l.window) != Truncate(after, l.window)
    ensures var run, subject := Doubled(l, key, before, after), Subject(l.name, key);
            && Attempts(run, n, subject, Truncate(before, l.window)) == (if n < l.limit then n else l.limit)
            && Attempts(run, n, subject, Truncate(after, l.window)) == (if n < l.limit then 0 else n - l.limit)
  {
    if n > 0 {
      DoubledAttempts(l, key, before, after, n - 1);
      DoubledAsks(l, key, before, after, n - 1);
    }
  }

  lemma DoubledIsTold(l: Limiter, key: string, before: Time, after: Time, n: nat)
    requires Valid(l) && n < 2 * l.limit && before <= after
    requires Truncate(before, l.window) != Truncate(after, l.window)
    ensures Told(Doubled(l, key, before, after), n) == Allowed
  {
    DoubledIsFair(l, key, before, after);
    DoubledAttempts(l, key, before, after, n);
    AdmittedWithinTheLimit(Doubled(l, key, before, after), n);
  }

  lemma {:induction false} DoubledIsAdmitted(l: Limiter, key: string, before: Time, after: Time, n: nat)
    requires Valid(l) && n <= 2 * l.limit && before <= after
    requires Truncate(before, l.window) != Truncate(after, l.window)
    ensures AdmittedBetween(Doubled(l, key, before, after), n, l, key, before, after) == n
  {
    if n > 0 {
      DoubledIsAdmitted(l, key, before, after, n - 1);
      DoubledIsTold(l, key, before, after, n - 1);
    }
  }

  /** The edge of a window: the moment that opens it and the one before. */
  lemma Edge(window: nat) returns (opens: Time)
    requires window > 0
    ensures opens > 0 && Truncate(opens, window) == opens && Truncate(opens - 1, window) == opens - window
  {
    opens := Truncate(window, window);
    var i := Index(window, window);
    Scale(window, i - 1, i);
    IsIndex(opens, window, i);
    IsIndex(opens - 1, window, i - 1);
  }

  lemma IsIndex(now: Time, window: nat, i: nat)
    requires window > 0 && window * i <= now + YEAR_ONE < window * i + window
    ensures Index(now, window) == i
  {
    var j := Index(now, window);
    var start := Truncate(now, window);
    if j < i {
      Scale(window, j + 1, i);
      Scale(window, j, j);
    } else if i < j {
      Scale(window, i + 1, j);
      Scale(window, i, i);
    }
  }

  /** The bound is tight: every limiter admits twice its limit in a moment and the
      next, at the edge of a window. */
  lemma TwiceIsReached(l: Limiter, key: string) returns (run: seq<Statement>, from: Time)
    requires Valid(l)
    ensures Fair(run) && AdmittedBetween(run, |run|, l, key, from, from + 1) == 2 * l.limit
  {
    var opens := Edge(l.window);
    from := opens - 1;
    run := Doubled(l, key, from, opens);
    DoubledIsFair(l, key, from, opens);
    DoubledIsAdmitted(l, key, from, opens, |run|);
  }

  // Waiting, and clocks.

  lemma {:induction false} NoneInALaterWindow(run: seq<Statement>, n: nat, subject: string, start: int)
    requires n <= |run| && Made(run)
    requires forall i :: 0 <= i < n ==> !IsIn(run[i], subject, start)
    ensures Attempts(run, n, subject, start) == 0
  {
    if n > 0 {
      NoneInALaterWindow(run, n - 1, subject, start);
    }
  }

  /** A refused key that waits as long as it was told is admitted when it next asks,
      whoever else asks and sweeps in between, if no clock had been ahead of its
      own when it was refused. */
  lemma WaitingIsEnough(run: seq<Statement>, n: nat, m: nat)
    requires Fair(run) && n < m < |run| && run[n].Attempt? && run[m].Attempt?
    requires run[m].l == run[n].l && run[m].key == run[n].key && run[n].l.limit > 0
    requires Told(run, n).Refused? && run[m].now >= run[n].now + Told(run, n).retryAfter
    requires forall i :: 0 <= i < m && i != n && run[i].Attempt? && SubjectOf(run[i]) == SubjectOf(run[n])
                         ==> i < n && run[i].now <= run[n].now
    ensures Told(run, m) == Allowed
  {
    var l, subject, start := run[n].l, SubjectOf(run[n]), StartOf(run[m]);
    WaitingReachesTheNextWindow(l, Hits(After(run, n), subject, StartOf(run[n])) + 1, run[n].now, run[m].now);
    forall i | 0 <= i < m ensures !IsIn(run[i], subject, start) {
      if run[i].Attempt? && SubjectOf(run[i]) == subject {
        SubjectsDiffer(run[i].l.name, run[i].key, l.name, run[n].key);
        LaterIsNoEarlier(run[i].now, run[n].now, l.window);
      }
    }
    NoneInALaterWindow(run, m, subject, start);
    AdmittedWithinTheLimit(run, m);
  }

  /** A clock a whole window and more behind finds its counter swept, and starts
      counting again. */
  lemma ASlowClockCountsAgain(l: Limiter, key: string, other: string)
    requires Valid(l) && l.limit == 1 && l.window == 60 * SECOND && key != other
    ensures var newer := Truncate(120 * SECOND, l.window);
            var run := [Attempt(l, key, 0), Attempt(l, other, 120 * SECOND), Sweep(l, newer), Attempt(l, key, 0)];
            !Fair(run) && Told(run, 0) == Allowed && Told(run, 3) == Allowed
            && Attempts(run, 3, Subject(l.name, key), StartOf(run[3])) == 1
  {
    var newer := Truncate(120 * SECOND, l.window);
    var run := [Attempt(l, key, 0), Attempt(l, other, 120 * SECOND), Sweep(l, newer), Attempt(l, key, 0)];
    var subject, start := Subject(l.name, key), StartOf(run[0]);
    SweepMatchesItsOwn(l.name, l.name, key);
    assert Subject(l.name, other) != subject by {
      if Subject(l.name, other) == subject { SubjectsDiffer(l.name, key, l.name, other); }
    }
    assert Index(0, l.window) + 2 == Index(120 * SECOND, l.window);
    assert newer == start + 2 * l.window;
    assert !Fair(run) by {
      assert run[1].l.name == run[3].l.name && run[1].now >= run[3].now + run[3].l.window;
    }
    assert After(run, 0) == map[];
    assert (subject, start) !in After(run, 3) by {
      assert After(run, 3) == Apply(After(run, 2), run[2]);
    }
    assert Attempts(run, 1, subject, start) == Attempts(run, 0, subject, start) + 1;
    assert Attempts(run, 2, subject, start) == Attempts(run, 1, subject, start);
    assert Attempts(run, 3, subject, start) == Attempts(run, 2, subject, start);
  }
}
