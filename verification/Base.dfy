/** What every part of the model shares: optional values, the clock's units and
    the reading of typed codes. */
module Base {

  datatype Option<+T> = None | Some(value: T)

  /** A moment, in nanoseconds since 1970 as Go's time.Time counts them. */
  type Time = nat

  const SECOND: nat := 1_000_000_000
  const MINUTE: nat := 60_000_000_000
  const HOUR: nat := 3_600_000_000_000
  const DAY: nat := 86_400_000_000_000

  /** strings.ReplaceAll(s, " ", ""). */
  function StripSpaces(s: string): (r: string)
    ensures |r| <= |s|
    ensures ' ' !in r
  {
    if s == [] then [] else (if s[0] == ' ' then [] else [s[0]]) + StripSpaces(s[1..])
  }

  /** Wherever the spaces are, what is left is the same; */
  lemma {:induction false} SpacesDoNotMatter(a: string, b: string)
    ensures StripSpaces(a + " " + b) == StripSpaces(a + b)
  {
    if a == "" {
      assert ("" + " " + b)[1..] == b && "" + b == b;
    } else {
      SpacesDoNotMatter(a[1..], b);
      assert (a + " " + b)[1..] == a[1..] + " " + b && (a + b)[1..] == a[1..] + b;
    }
  }

  /** and nothing else goes. */
  lemma {:induction false} NothingElseIsStripped(s: string)
    ensures ' ' !in s ==> StripSpaces(s) == s
  {
    if s != "" {
      NothingElseIsStripped(s[1..]);
    }
  }

  predicate IsDigit(c: char) { '0' <= c <= '9' }

  predicate AllDigits(s: string) { forall i :: 0 <= i < |s| ==> IsDigit(s[i]) }
}
