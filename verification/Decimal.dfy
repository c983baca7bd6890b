/** Decimal numbers, as fmt writes them and scans them. */
module Decimal {
  import opened Base

  function Digit(v: nat): (c: char)
    requires v < 10
    ensures IsDigit(c)
  {
    v as char + '0'
  }

  /** The number a string of digits writes. */
  function Value(s: string): nat
    requires AllDigits(s)
  {
    if s == [] then 0 else 10 * Value(s[..|s| - 1]) + (s[|s| - 1] as int - '0' as int)
  }

  /** fmt.Sprintf("%d", n). */
  function Written(n: nat): (s: string)
    ensures s != "" && AllDigits(s)
    ensures s[0] == '0' <==> n == 0
  {
    if n < 10 then [Digit(n)] else Written(n / 10) + [Digit(n % 10)]
  }

  lemma {:induction false} ValueOfWritten(n: nat)
    ensures Value(Written(n)) == n
  {
    var s := Written(n);
    if n < 10 {
      assert Value(s[..0]) == 0;
    } else {
      ValueOfWritten(n / 10);
      assert s[..|s| - 1] == Written(n / 10);
    }
  }

  /** No other digits without a zero in front write it. */
  lemma {:induction false} WrittenIsTheOnly(s: string)
    requires s != "" && AllDigits(s) && (s[0] == '0' ==> |s| == 1)
    ensures Written(Value(s)) == s
  {
    var front := s[..|s| - 1];
    if front == "" {
      assert Value(front) == 0;
    } else {
      WrittenIsTheOnly(front);
      assert Written(Value(front))[0] != '0';
    }
  }

  /** How many digits a text begins with. */
  function Leading(s: string): (k: nat)
    ensures k <= |s| && AllDigits(s[..k])
    ensures k < |s| ==> !IsDigit(s[k])
  {
    if s == "" || !IsDigit(s[0]) then 0 else 1 + Leading(s[1..])
  }

  lemma LeadingIsAll(digits: string, rest: string)
    requires AllDigits(digits) && (rest == "" || !IsDigit(rest[0]))
    ensures Leading(digits + rest) == |digits|
  {
    var s, k := digits + rest, Leading(digits + rest);
    assert forall i :: 0 <= i < |digits| ==> IsDigit(s[i]);
    assert rest != "" ==> !IsDigit(s[|digits|]);
    assert forall i :: 0 <= i < k ==> IsDigit(s[..k][i]) && s[..k][i] == s[i];
  }

  /** The spaces that fmt skips before a number; a new line is none of them. */
  predicate IsSpace(c: char) { c == ' ' || c == '\t' || c == '\r' || c as int == 11 || c as int == 12 }

  function SkipSpace(s: string): (r: string)
    ensures |r| <= |s|
  {
    if s != "" && IsSpace(s[0]) then SkipSpace(s[1..]) else s
  }

  /** fmt's %d of an unsigned number below a bound: the number, and what is left
      of the text. Digits may have zeros in front; a number too large is refused. */
  function Scan(s: string, bound: nat): (r: Option<(nat, string)>)
    ensures r.Some? ==> r.value.0 < bound
  {
    var t := SkipSpace(s);
    var k := Leading(t);
    if k == 0 || Value(t[..k]) >= bound then None else Some((Value(t[..k]), t[k..]))
  }

  /** What was written is scanned back, up to where it ends. */
  lemma ScanUndoesWritten(n: nat, rest: string, bound: nat)
    requires rest == "" || !IsDigit(rest[0])
    ensures Scan(Written(n) + rest, bound) == if n < bound then Some((n, rest)) else None
  {
    var s := Written(n) + rest;
    assert IsDigit(s[0]);
    assert SkipSpace(s) == s;
    LeadingIsAll(Written(n), rest);
    assert s[..|Written(n)|] == Written(n) && s[|Written(n)|..] == rest;
    ValueOfWritten(n);
  }
}
