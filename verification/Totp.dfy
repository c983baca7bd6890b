/** One-time codes of an authenticator app (internal/identity/totp.go): dynamic
    truncation as in section 5.3 of RFC 4226, and the drift and replay window
    of section 5.2 of RFC 6238. The HMAC is any function giving twenty bytes. */
module Totp {
  import opened Base
  import opened Bytes
  import opened Decimal

  type Digest = d: seq<Byte> | |d| == 20 witness seq(20, i => 0)

  /** HMAC-SHA-1 of an eight-byte counter under a secret. */
  type Mac = (seq<Byte>, seq<Byte>) -> Digest

  const DIGITS: nat := 6
  /** Thirty seconds. */
  const PERIOD: nat := 30_000_000_000
  const DRIFT: int := 1

  function Pow10(n: nat): (p: nat)
    ensures p >= 1
  {
    if n == 0 then 1 else 10 * Pow10(n - 1)
  }

  /** Section 5.3 of RFC 4226: the low four bits of the last byte choose where
      to read thirty-one bits. The four bytes read always lie in the digest. */
  function Truncate(d: Digest): (v: nat)
    ensures v < 0x8000_0000
  {
    var offset := d[19] % 16;
    Number(d[offset..offset + 4]) % 0x8000_0000
  }

  /** fmt.Sprintf("%0*d", width, v) of a number that fits the width. */
  function Padded(v: nat, width: nat): (s: string)
    ensures |s| == width && AllDigits(s)
  {
    if width == 0 then ""
    else
      Padded(v / 10, width - 1) + [Digit(v % 10)]
  }

  lemma {:induction false} ValueOfPadded(v: nat, width: nat)
    requires v < Pow10(width)
    ensures Value(Padded(v, width)) == v
  {
    if width > 0 {
      ValueOfPadded(v / 10, width - 1);
      var s := Padded(v, width);
      assert s[..|s| - 1] == Padded(v / 10, width - 1);
    }
  }

  function CodeOf(mac: Mac, secret: seq<Byte>, step: nat): (code: string)
    ensures |code| == DIGITS && AllDigits(code)
  {
    Padded(Truncate(mac(secret, BigEndian(step, 8))) % Pow10(DIGITS), DIGITS)
  }

  /** Four bytes as one number. */
  function Word(a: nat, b: nat, c: nat, d: nat): nat { ((a * 256 + b) * 256 + c) * 256 + d }

  lemma FourBytes(b: seq<Byte>)
    requires |b| == 4
    ensures Number(b) == Word(b[0], b[1], b[2], b[3])
  {
    assert b[..3][..2] == b[..2] && b[..2][..1] == b[..1] && b[..1][..0] == [];
    assert Number(b[..1]) == b[0] as int;
    assert Number(b[..2]) == 256 * Number(b[..1]) + b[1] as int;
    assert Number(b[..3]) == 256 * Number(b[..2]) + b[2] as int;
  }

  lemma TopBitGoes(first: nat, rest: nat)
    requires first < 256 && rest < 0x100_0000
    ensures (first * 0x100_0000 + rest) % 0x8000_0000 == first % 128 * 0x100_0000 + rest
  {
    var top, low := first / 128, first % 128;
    assert first * 0x100_0000 + rest == top * 0x8000_0000 + (low * 0x100_0000 + rest);
  }

  /** The four bytes from the one that the last byte names, without the top bit of
      their first: section 5.3 of RFC 4226, byte by byte. */
  lemma FourBytesAreRead(d: Digest, o: nat)
    requires o == d[19] % 16
    ensures Truncate(d) == Word(d[o] % 128, d[o + 1], d[o + 2], d[o + 3])
  {
    var read := d[o..o + 4];
    FourBytes(read);
    TopBitGoes(d[o], Word(0, d[o + 1], d[o + 2], d[o + 3]));
  }

  /** What a person types: six digits that write, modulo a million, the four bytes
      read of the HMAC of the eight bytes of the counter. */
  lemma CodeWritesTheBytesRead(mac: Mac, secret: seq<Byte>, step: nat)
    ensures var d, code := mac(secret, EightBytes(step)), CodesOf(mac)(secret, step);
            var o := d[19] % 16;
            && |code| == 6 && AllDigits(code)
            && Value(code) == Word(d[o] % 128, d[o + 1], d[o + 2], d[o + 3]) % 1_000_000
  {
    var d := mac(secret, BigEndian(step, 8));
    EightBytesWrite(step, 8);
    assert CodesOf(mac)(secret, step) == CodeOf(mac, secret, step);
    FourBytesAreRead(d, d[19] % 16);
    assert Pow10(6) == 1_000_000 by {
      assert Pow10(1) == 10 && Pow10(2) == 100 && Pow10(3) == 1000;
      assert Pow10(4) == 10 * Pow10(3) && Pow10(5) == 10 * Pow10(4);
    }
    ValueOfPadded(Truncate(d) % Pow10(DIGITS), DIGITS);
  }

  /** The digest of section 5.4 of RFC 4226. */
  const EXAMPLE: seq<Byte> :=
    [0x1f, 0x86, 0x98, 0x69, 0x0e, 0x02, 0xca, 0x16, 0x61, 0x85,
     0x50, 0xef, 0x7f, 0x19, 0xda, 0x8e, 0x94, 0x5b, 0x55, 0x5a]

  lemma {:induction false} SameValueSameDigits(a: string, b: string)
    requires |a| == |b| && AllDigits(a) && AllDigits(b) && Value(a) == Value(b)
    ensures a == b
  {
    if a != "" {
      var last := |a| - 1;
      SameValueSameDigits(a[..last], b[..last]);
      assert a == a[..last] + [a[last]] && b == b[..last] + [b[last]];
    }
  }

  lemma OneMoreDigit(s: string, c: char)
    requires AllDigits(s) && IsDigit(c)
    ensures AllDigits(s + [c]) && Value(s + [c]) == 10 * Value(s) + (c as int - '0' as int)
  {
    assert (s + [c])[..|s|] == s;
  }

  lemma ExampleIsWritten()
    ensures AllDigits("872921") && Value("872921") == 872921
  {
    OneMoreDigit("", '8');
    OneMoreDigit("8", '7');
    OneMoreDigit("87", '2');
    OneMoreDigit("872", '9');
    OneMoreDigit("8729", '2');
    OneMoreDigit("87292", '1');
    assert "" + "8" == "8" && "8" + "7" == "87" && "87" + "2" == "872" && "872" + "9" == "8729";
    assert "8729" + "2" == "87292" && "87292" + "1" == "872921";
  }

  lemma ExampleIsRead()
    ensures EXAMPLE[19] % 16 == 10
    ensures Word(EXAMPLE[10] % 128, EXAMPLE[11], EXAMPLE[12], EXAMPLE[13]) % 1_000_000 == 872921
  {
    assert EXAMPLE[10] == 0x50 && EXAMPLE[11] == 0xef && EXAMPLE[12] == 0x7f && EXAMPLE[13] == 0x19;
    assert Word(0x50, 0xef, 0x7f, 0x19) == 1_357_872_921;
  }

  lemma SixDigitsOf(mac: Mac, secret: seq<Byte>, step: nat, d: Digest, code: string)
    requires mac(secret, EightBytes(step)) == d && d[19] % 16 == 10
    requires |code| == 6 && AllDigits(code) && Value(code) == Word(d[10] % 128, d[11], d[12], d[13]) % 1_000_000
    ensures CodesOf(mac)(secret, step) == code
  {
    CodeWritesTheBytesRead(mac, secret, step);
    SameValueSameDigits(CodesOf(mac)(secret, step), code);
  }

  /** Its code is the one that section gives. */
  lemma TheExampleOfTheStandard(mac: Mac, secret: seq<Byte>, step: nat)
    requires mac(secret, EightBytes(step)) == EXAMPLE
    ensures CodesOf(mac)(secret, step) == "872921"
  {
    ExampleIsRead();
    ExampleIsWritten();
    SixDigitsOf(mac, secret, step, EXAMPLE, "872921");
  }

  /** A step is thirty seconds of the clock since 1970: moments of the test values of
      RFC 6238 and the steps it gives for them. */
  lemma StepsOfTheStandard()
    ensures StepOf(59 * SECOND) == 0x1 && StepOf(1_111_111_109 * SECOND) == 0x23523EC
    ensures StepOf(1_234_567_890 * SECOND) == 0x273EF07 && StepOf(20_000_000_000 * SECOND) == 0x27BC86AA
    ensures forall at: Time :: StepOf(at) == at / 30_000_000_000
  {
  }

  /** binary.BigEndian.Uint32 of the four bytes at offset. */
  method ReadWord(sum: Digest, offset: nat) returns (word: nat)
    requires offset < 16
    ensures word == Number(sum[offset..offset + 4])
  {
    word := 0;
    for i := 0 to 4
      invariant word == Number(sum[offset..offset + i])
    {
      var read := sum[offset..offset + i + 1];
      assert read[..i] == sum[offset..offset + i];
      word := 256 * word + read[i] as int;
    }
  }

  /** Writes v in width digits, from the last to the first. */
  method Pad(v: nat, width: nat) returns (code: string)
    ensures code == Padded(v, width)
  {
    var rest := v;
    code := "";
    for i := 0 to width
      invariant Padded(v, width) == Padded(rest, width - i) + code
    {
      code := [Digit(rest % 10)] + code;
      rest := rest / 10;
    }
  }

  const WORD: nat := 0x1_0000_0000

  /** The modulus, multiplied up in 32 bits. */
  function Modulus(digits: nat): (m: nat)
    ensures m < WORD
  {
    if digits == 0 then 1 else Modulus(digits - 1) * 10 % WORD
  }

  lemma {:induction false} ModulusIsPow10(digits: nat)
    requires digits <= 9
    ensures Modulus(digits) == Pow10(digits) <= 1_000_000_000
  {
    if digits > 0 {
      ModulusIsPow10(digits - 1);
      PowersGrow(digits, 9);
      assert Pow10(3) == 1000 && Pow10(6) == 1_000_000 && Pow10(9) == 1_000_000_000;
    }
  }

  lemma {:induction false} PowersGrow(m: nat, n: nat)
    requires m <= n
    ensures Pow10(m) <= Pow10(n)
  {
    if m < n {
      PowersGrow(m, n - 1);
    }
  }

  function Twos(n: nat): (p: nat)
    ensures p >= 1
  {
    if n == 0 then 1 else 2 * Twos(n - 1)
  }

  lemma Regrouped(t: nat, p: nat)
    ensures (2 * t) * (5 * p) == 10 * (t * p)
  {
    assert (2 * t) * (5 * p) == 2 * (t * (5 * p));
    assert t * (5 * p) == 5 * (t * p);
  }

  lemma TimesFiveIsOdd(p: nat)
    requires p % 2 == 1
    ensures 5 * p % 2 == 1
  {
  }

  lemma OneMoreFactor(t: nat, p: nat, m: nat, k: nat) returns (carried: nat)
    requires t * p == m + WORD * k
    ensures (2 * t) * (5 * p) == m * 10 % WORD + WORD * carried
  {
    Regrouped(t, p);
    carried := m * 10 / WORD + 10 * k;
  }

  /** Every factor of ten is one of two and one that is odd: the modulus is what is
      left of their product when whole words are taken away. */
  lemma {:induction false} OddMultiple(digits: nat) returns (q: nat, k: nat)
    ensures Twos(digits) * q == Modulus(digits) + WORD * k && q % 2 == 1
  {
    if digits == 0 {
      q, k := 1, 0;
    } else {
      var p, before := OddMultiple(digits - 1);
      k := OneMoreFactor(Twos(digits - 1), p, Modulus(digits - 1), before);
      q := 5 * p;
      TimesFiveIsOdd(p);
    }
  }

  lemma HalfAWord()
    ensures Twos(31) == 0x8000_0000 && Twos(32) == WORD
  {
    assert Twos(8) == 0x100;
    assert Twos(16) == 0x1_0000;
    assert Twos(24) == 0x100_0000;
  }

  lemma HalfIsLeft(q: nat, k: nat, m: nat)
    requires 0x8000_0000 * q == m + WORD * k && q % 2 == 1
    ensures m != 0
  {
  }

  lemma NothingIsLeft(q: nat, k: nat, m: nat)
    requires WORD * q == m + WORD * k && m < WORD
    ensures m == 0
  {
  }

  lemma {:induction false} NothingStaysNothing(m: nat, n: nat)
    requires m <= n && Modulus(m) == 0
    ensures Modulus(n) == 0
  {
    if m < n {
      NothingStaysNothing(m, n - 1);
    }
  }

  /** Thirty-two factors of two fill the word, and nothing is left. */
  lemma ModulusVanishes(digits: nat)
    ensures Modulus(digits) == 0 <==> digits >= 32
  {
    var last: nat := 31;
    HalfAWord();
    var q, k := OddMultiple(last);
    HalfIsLeft(q, k, Modulus(last));
    if digits <= last {
      if Modulus(digits) == 0 {
        NothingStaysNothing(digits, last);
      }
    } else {
      var r, j := OddMultiple(last + 1);
      NothingIsLeft(r, j, Modulus(last + 1));
      NothingStaysNothing(last + 1, digits);
    }
  }

  /** A number is written in one digit at least. */
  function Width(digits: nat): nat { if digits == 0 then 1 else digits }

  lemma RemainderFits(v: nat, digits: nat)
    requires v < 0x8000_0000 && Modulus(digits) != 0
    ensures v % Modulus(digits) < Pow10(Width(digits))
  {
    if digits <= 9 {
      ModulusIsPow10(digits);
    } else {
      PowersGrow(10, digits);
      assert Pow10(5) == 100_000 && Pow10(10) == 10_000_000_000;
    }
  }

  /** What hotp writes of a truncated digest. */
  function Shown(v: nat, digits: nat): (code: string)
    requires Modulus(digits) != 0
    ensures |code| == Width(digits) && AllDigits(code)
  {
    Padded(v % Modulus(digits), Width(digits))
  }

  lemma ShownIsTheRemainder(v: nat, digits: nat)
    requires v < 0x8000_0000 && Modulus(digits) != 0
    ensures Value(Shown(v, digits)) == v % Modulus(digits)
  {
    RemainderFits(v, digits);
    ValueOfPadded(v % Modulus(digits), Width(digits));
  }

  /** hotp: nothing when the modulus has wrapped to zero, where the division
      panics; else the digits that write the truncated digest modulo it. */
  method Hotp(mac: Mac, secret: seq<Byte>, counter: nat, digits: nat) returns (code: Option<string>)
    ensures code.None? <==> Modulus(digits) == 0
    ensures code.None? <==> digits >= 32
    ensures code.Some? ==> code.value == Shown(Truncate(mac(secret, BigEndian(counter, 8))), digits)
    ensures var d := mac(secret, EightBytes(counter));
            var o := d[19] % 16;
            code.Some? ==> |code.value| == Width(digits) && AllDigits(code.value)
                           && Value(code.value) == Word(d[o] % 128, d[o + 1], d[o + 2], d[o + 3]) % Modulus(digits)
  {
    var sum := mac(secret, BigEndian(counter, 8));
    EightBytesWrite(counter, 8);
    var word := ReadWord(sum, sum[|sum| - 1] % 16);
    var value := word % 0x8000_0000;
    var modulus := FactorsOfTen(digits);
    ModulusVanishes(digits);
    if modulus == 0 {
      return None;
    }
    ShownIsTheRemainder(value, digits);
    FourBytesAreRead(sum, sum[19] % 16);
    var written := Pad(value % modulus, Width(digits));
    return Some(written);
  }

  /** The loop that multiplies the modulus up. */
  method FactorsOfTen(digits: nat) returns (modulus: nat)
    ensures modulus == Modulus(digits)
  {
    modulus := 1;
    for i := 0 to digits
      invariant modulus == Modulus(i)
    {
      modulus := modulus * 10 % WORD;
    }
  }

  /** The code that an app with a secret shows at a step. */
  type AppCodes = (seq<Byte>, nat) -> string

  function CodesOf(mac: Mac): AppCodes { (secret, step: nat) => CodeOf(mac, secret, step) }

  /** totpCode. */
  method TotpCode(mac: Mac, secret: seq<Byte>, step: nat) returns (code: string)
    ensures code == CodesOf(mac)(secret, step)
  {
    ModulusIsPow10(DIGITS);
    var shown := Hotp(mac, secret, step, DIGITS);
    code := shown.value;
  }

  /** The step a moment falls in. */
  function StepOf(at: Time): nat { at / PERIOD }

  /** Whether code is the code of step, a step after the last one accepted. */
  predicate IsCodeOf(codes: AppCodes, secret: seq<Byte>, code: string, last: int, step: int) {
    last < step && 0 <= step && code == codes(secret, step)
  }

  /** The earliest step of from..until whose code this is. */
  function Earliest(codes: AppCodes, secret: seq<Byte>, code: string, last: int, from: int,
                    until: int): (r: Option<int>)
    requires from <= until + 1
    ensures r.Some? ==> from <= r.value <= until && IsCodeOf(codes, secret, code, last, r.value)
    ensures forall step :: from <= step <= until && IsCodeOf(codes, secret, code, last, step)
                           ==> r.Some? && r.value <= step
    decreases until + 1 - from
  {
    if from == until + 1 then None
    else if IsCodeOf(codes, secret, code, last, from) then Some(from)
    else Earliest(codes, secret, code, last, from + 1, until)
  }

  /** The step a typed code is accepted for: within the drift of now. */
  function Match(codes: AppCodes, secret: seq<Byte>, typed: string, now: Time, last: int): (r: Option<int>)
    ensures r.Some? ==> last < r.value && 0 <= r.value && StepOf(now) - DRIFT <= r.value <= StepOf(now) + DRIFT
    ensures r.Some? ==> StripSpaces(typed) == codes(secret, r.value)
  {
    Earliest(codes, secret, StripSpaces(typed), last, StepOf(now) - DRIFT, StepOf(now) + DRIFT)
  }

  /** Codes of six digits, which every HMAC gives. */
  predicate SixDigits(code: string) { |code| == DIGITS && AllDigits(code) }

  lemma CodesAreSixDigits(mac: Mac, secret: seq<Byte>, step: nat)
    ensures SixDigits(CodesOf(mac)(secret, step))
  {
    assert CodesOf(mac)(secret, step) == CodeOf(mac, secret, step);
  }

  /** matchTOTP, as it loops over the steps around now, for any codes of six
      digits. */
  method MatchTotp(codes: AppCodes, secret: seq<Byte>, typed: string, now: Time, last: int) returns (r: Option<int>)
    requires last >= 0
    requires forall step: nat :: SixDigits(codes(secret, step))
    ensures r == Match(codes, secret, typed, now, last)
  {
    var code := StripSpaces(typed);
    var current := StepOf(now);
    if !SixDigits(code) {
      return None;
    }
    var step, until := current - DRIFT, current + DRIFT;
    while step <= until
      invariant step <= until + 1
      invariant Match(codes, secret, typed, now, last) == Earliest(codes, secret, code, last, step, until)
    {
      if step > last {
        if codes(secret, step) == code {
          return Some(step);
        }
      }
      step := step + 1;
    }
    return None;
  }

  predicate Increasing(steps: seq<int>) {
    forall i, j :: 0 <= i < j < |steps| ==> steps[i] < steps[j]
  }

  /** Strictly increasing steps between two bounds are no more than the bounds
      allow. */
  lemma {:induction false} IncreasingIsShort(steps: seq<int>, low: int, high: int)
    requires Increasing(steps)
    requires forall i :: 0 <= i < |steps| ==> low <= steps[i] <= high
    ensures |steps| <= if low <= high then high - low + 1 else 0
  {
    if steps != [] {
      var last := |steps| - 1;
      IncreasingIsShort(steps[..last], low, steps[last] - 1);
    }
  }
}
