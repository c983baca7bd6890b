/** The limiter of the sensitive endpoints: one counter a key and window, in a
    table that every instance and every limit share
    (internal/platform/ratelimit/database.go). */
module FixedWindow {
  import opened Base

  // Names, subjects and the pattern a sweep deletes by.

  predicate IsLower(c: char) { 'a' <= c <= 'z' }

  /** ^[a-z][a-z0-9-]*$ */
  predicate ValidName(name: string) {
    name != "" && IsLower(name[0])
    && forall i :: 0 <= i < |name| ==> IsLower(name[i]) || IsDigit(name[i]) || name[i] == '-'
  }

  function Subject(name: string, key: string): string { name + ":" + key }

  /** PostgreSQL's LIKE: % is any text, _ any one character, and a backslash
      takes what follows it as it is. */
  predicate Like(s: string, pattern: string)
    decreases |pattern|
  {
    if pattern == "" then s == ""
    else if pattern[0] == '%' then exists k :: 0 <= k <= |s| && Like(s[k..], pattern[1..])
    else if pattern[0] == '\\' && |pattern| > 1 then s != "" && s[0] == pattern[1] && Like(s[1..], pattern[2..])
    else s != "" && (pattern[0] == '_' || pattern[0] == s[0]) && Like(s[1..], pattern[1..])
  }

  function Pattern(name: string): string { name + ":%" }

  predicate Plain(c: char) { c != '%' && c != '_' && c != '\\' }

  lemma {:induction false} PlainPatternIsPrefix(s: string, text: string)
    requires forall i :: 0 <= i < |text| ==> Plain(text[i])
    ensures Like(s, text + "%") <==> text <= s
  {
    var pattern := text + "%";
    if text == "" {
      assert pattern[1..] == "";
      assert s[|s|..] == "";
      assert Like(s[|s|..], pattern[1..]);
    } else {
      assert pattern[1..] == text[1..] + "%";
      if s != "" {
        PlainPatternIsPrefix(s[1..], text[1..]);
        assert text <= s <==> text[0] == s[0] && text[1..] <= s[1..];
      }
    }
  }

  /** The sweep of a limiter matches its own rows and no other limiter's,
      whatever the keys hold: a name has no colon and no wildcard. */
  lemma SweepMatchesItsOwn(name: string, other: string, key: string)
    requires ValidName(name) && ValidName(other)
    ensures Like(Subject(other, key), Pattern(name)) <==> other == name
  {
    var text, s := name + ":", Subject(other, key);
    assert Pattern(name) == text + "%";
    assert forall i :: 0 <= i < |name| ==> Plain(name[i]) && name[i] != ':' && text[i] == name[i];
    assert forall i :: 0 <= i < |other| ==> other[i] != ':' && s[i] == other[i];
    PlainPatternIsPrefix(s, text);
    if text <= s {
      assert s[|name|] == text[|name|] == ':' && s[|other|] == ':';
      assert |name| == |other|;
      assert name == text[..|name|] == s[..|name|] == other;
    }
  }

  lemma SubjectsDiffer(name: string, key: string, other: string, otherKey: string)
    requires ValidName(name) && ValidName(other) && Subject(name, key) == Subject(other, otherKey)
    ensures name == other && key == otherKey
  {
    var s := Subject(name, key);
    assert forall i :: 0 <= i < |name| ==> s[i] == name[i] != ':';
    assert forall i :: 0 <= i < |other| ==> s[i] == other[i] != ':';
    assert s[|name|] == ':' && s[|other|] == ':';
    assert name == s[..|name|] == s[..|other|] == other;
    assert key == s[|name| + 1..] == otherKey;
  }

  /** A name with an underscore would sweep another limiter's rows, which is what
      refusing it prevents. */
  lemma AWildcardWouldSweepOthers(key: string)
    ensures !ValidName("a_b") && ValidName("axb") && Like(Subject("axb", key), Pattern("a_b"))
  {
    var s, p := Subject("axb", key), Pattern("a_b");
    assert "a_b"[1] == '_';
    assert p == ['a', '_', 'b', ':', '%'] && s[..4] == ['a', 'x', 'b', ':'];
    assert s[4..][|key|..] == "" && |s[4..]| == |key|;
    assert Like(s[4..][|key|..], "");
    assert p[4..] == "%" && p[4..][1..] == "";
    assert Like(s[4..], p[4..]);
    assert s[3..][1..] == s[4..] && p[3..][1..] == p[4..];
    assert Like(s[3..], p[3..]);
    assert s[2..][1..] == s[3..] && p[2..][1..] == p[3..];
    assert Like(s[2..], p[2..]);
    assert s[1..][1..] == s[2..] && p[1..][1..] == p[2..];
    assert Like(s[1..], p[1..]);
  }

  // Windows.

  /** Nanoseconds from the year 1, which Truncate counts from, to 1970. */
  const YEAR_ONE: nat := 62_135_596_800_000_000_000

  /** Which window, counted from the year 1, a moment belongs to. */
  function Index(now: Time, window: nat): nat
    requires window > 0
  {
    (now + YEAR_ONE) / window
  }

  /** time.Truncate: the window's start. */
  function Truncate(now: Time, window: nat): (start: int)
    requires window > 0
    ensures start <= now < start + window
    ensures start == window * Index(now, window) - YEAR_ONE
  {
    var past := (now + YEAR_ONE) % window;
    now - past
  }

  /** Windows are counted from the year 1: of a minute they begin on the minute, of a
      day at midnight, and of seven days on a Monday, as on 29 December 1969. */
  lemma WindowsBegin(now: Time)
    ensures Truncate(now, MINUTE) == now - now % 60_000_000_000
    ensures Truncate(now, DAY) == now - now % 86_400_000_000_000
    ensures Truncate(0, 7 * DAY) == -3 * 86_400_000_000_000
  {
  }

  lemma Scale(window: nat, x: int, y: int)
    requires x <= y
    ensures window * x <= window * y
    ensures window * (x + 1) == window * x + window
  {
    assert window * y - window * x == window * (y - x);
    assert window * (y - x) >= 0;
  }

  /** Moments no more than a window apart lie in one window or two neighbours. */
  lemma IndexesNear(earlier: Time, later: Time, window: nat)
    requires window > 0 && earlier <= later <= earlier + window
    ensures Index(earlier, window) <= Index(later, window) <= Index(earlier, window) + 1
  {
    var e, l := Index(earlier, window), Index(later, window);
    var a, b := Truncate(earlier, window), Truncate(later, window);
    if l < e {
      Scale(window, l + 1, e);
      Scale(window, l, l);
    }
    if e + 2 <= l {
      Scale(window, e + 2, l);
      Scale(window, e, e);
      Scale(window, e + 1, e + 1);
    }
  }

  lemma LaterIsNoEarlier(earlier: Time, later: Time, window: nat)
    requires window > 0 && earlier <= later
    ensures Index(earlier, window) <= Index(later, window)
    ensures Truncate(earlier, window) <= Truncate(later, window)
  {
    var e, l := Index(earlier, window), Index(later, window);
    var a, b := Truncate(earlier, window), Truncate(later, window);
    if l < e {
      Scale(window, l + 1, e);
      Scale(window, l, l);
    } else {
      Scale(window, e, l);
    }
  }

  /** A window of a moment less than a window behind another is at most one window
      behind. */
  lemma StartsNear(first: Time, second: Time, window: nat)
    requires window > 0 && first < second + window
    ensures Truncate(first, window) - window <= Truncate(second, window)
  {
    var i, j := Index(first, window), Index(second, window);
    var a, b := Truncate(first, window), Truncate(second, window);
    if first <= second {
      LaterIsNoEarlier(first, second, window);
    } else {
      IndexesNear(second, first, window);
      Scale(window, i, j + 1);
      Scale(window, j, j);
    }
  }

  // The limiter.

  datatype Limiter = Limiter(name: string, limit: nat, window: nat)

  type Rows = map<(string, int), nat>

  function Hits(rows: Rows, subject: string, start: int): nat {
    if (subject, start) in rows then rows[(subject, start)] else 0
  }

  function Counted(rows: Rows, subject: string, start: int): Rows {
    rows[(subject, start) := Hits(rows, subject, start) + 1]
  }

  function Swept(rows: Rows, pattern: string, before: int): Rows {
    map r | r in rows && !(Like(r.0, pattern) && r.1 < before) :: rows[r]
  }

  /** A sweep of a limiter's pattern deletes exactly its own rows of earlier windows. */
  lemma SweptExactly(rows: Rows, name: string, before: int, other: string, key: string, start: int)
    requires ValidName(name) && ValidName(other)
    ensures var row, swept := (Subject(other, key), start), Swept(rows, Pattern(name), before);
            && (row in swept <==> row in rows && !(other == name && start < before))
            && (row in swept ==> swept[row] == rows[row])
  {
    SweepMatchesItsOwn(name, other, key);
  }

  datatype Decision = Allowed | Refused(retryAfter: nat)

  function RoundToSecond(d: nat): (r: nat)
    ensures d < r + SECOND && 2 * r <= 2 * d + SECOND && r % SECOND == 0 && 2 * d < 2 * r + SECOND
  {
    var past := d % SECOND;
    if past + past < SECOND then d - past else d + SECOND - past
  }

  predicate Valid(l: Limiter) { ValidName(l.name) && l.window > 0 }

  /** What an attempt is told that was the hits-th of its window. */
  function Verdict(l: Limiter, hits: nat, now: Time): Decision
    requires Valid(l)
  {
    if hits > l.limit then Refused(RoundToSecond(Truncate(now, l.window) + l.window - now) + SECOND) else Allowed
  }

  /** A refused key that waits as long as it was told, or half a second less, and any
      time more, is in a later window. */
  lemma WaitingReachesTheNextWindow(l: Limiter, hits: nat, now: Time, later: Time)
    requires Valid(l)
    requires Verdict(l, hits, now).Refused? && later >= now
    requires later + SECOND / 2 >= now + Verdict(l, hits, now).retryAfter
    ensures Truncate(later, l.window) >= Truncate(now, l.window) + l.window
  {
    var i, j := Index(now, l.window), Index(later, l.window);
    var a, b := Truncate(now, l.window), Truncate(later, l.window);
    if j < i + 1 {
      Scale(l.window, j, i);
      Scale(l.window, i, i);
    } else {
      Scale(l.window, i + 1, j);
      Scale(l.window, i, i);
    }
  }

  /** The wait is of whole seconds, and between one and two seconds, give or take half of
      one, more than what is left of the window. */
  lemma WaitIsWhole(l: Limiter, hits: nat, now: Time)
    requires Valid(l) && Verdict(l, hits, now).Refused?
    ensures var told, left := Verdict(l, hits, now).retryAfter, Truncate(now, l.window) + l.window - now;
            told % 1_000_000_000 == 0 && left + SECOND / 2 < told <= left + 3 * SECOND / 2
  {
  }

  /** And no longer than it takes: until a second and a half before it is over the window
      is still the same. */
  lemma WaitingIsNeeded(l: Limiter, hits: nat, now: Time, told: nat, early: Time)
    requires Valid(l) && Verdict(l, hits, now) == Refused(told)
    requires now <= early && early + 3 * SECOND / 2 < now + told
    ensures Truncate(early, l.window) == Truncate(now, l.window)
  {
    WaitIsWhole(l, hits, now);
    InTheSameWindow(now, early, l.window);
  }

  lemma InTheSameWindow(now: Time, later: Time, window: nat)
    requires window > 0 && now <= later < Truncate(now, window) + window
    ensures Truncate(later, window) == Truncate(now, window)
  {
    var i, j := Index(now, window), Index(later, window);
    LaterIsNoEarlier(now, later, window);
    if i + 1 <= j {
      Scale(window, i + 1, j);
      Scale(window, i, i);
    }
  }

  class Table {
    var rows: Rows
    constructor () ensures rows == map[] { rows := map[]; }
  }

  class Database {
    const table: Table
    const l: Limiter

    constructor (table: Table, l: Limiter)
      requires Valid(l)
      ensures this.table == table && this.l == l
    {
      this.table, this.l := table, l;
    }

    /** Allow counts one attempt in one statement; and whoever opens a window
        forgets those that have passed in another, before which the other instances
        make of the table what they may. */
    method Allow(key: string, now: Time, meanwhile: Rows) returns (d: Decision)
      requires Valid(l)
      modifies table
      ensures var subject, start := Subject(l.name, key), Truncate(now, l.window);
              var hits := Hits(old(table.rows), subject, start) + 1;
              && d == Verdict(l, hits, now)
              && table.rows == if hits == 1 then Swept(meanwhile, Pattern(l.name), start - l.window)
                               else Counted(old(table.rows), subject, start)
    {
      var start, subject := Truncate(now, l.window), Subject(l.name, key);
      var hits := 1;
      if (subject, start) in table.rows {
        hits := table.rows[(subject, start)] + 1;
      }
      table.rows := table.rows[(subject, start) := hits];
      if hits == 1 {
        table.rows := meanwhile;
        var pattern := l.name + ":%";
        table.rows := map r | r in table.rows && !(Like(r.0, pattern) && r.1 < start - l.window) :: table.rows[r];
      }
      if hits > l.limit {
        return Refused(RoundToSecond(start + l.window - now) + SECOND);
      }
      return Allowed;
    }
  }

  /** NewDatabase panics on a name that is none. */
  method NewDatabase(table: Table, l: Limiter) returns (d: Option<Database>)
    requires l.window > 0
    ensures d.Some? <==> ValidName(l.name)
    ensures d.Some? ==> d.value.table == table && d.value.l == l
  {
    if !ValidName(l.name) {
      return None;
    }
    var made := new Database(table, l);
    return Some(made);
  }
}
