/** Recovery codes as they are shown and as they are read back
    (internal/identity/recovery.go). The rows of an account know a code by its
    twelve symbols, which its stored hash stands for. */
module RecoveryCode {
  import opened Base
  import opened Bytes
  import Digest

  const COUNT: nat := 10
  const SYMBOLS: nat := 12

  /** Crockford's base32 in lower case: no i, l, o or u. */
  const ALPHABET: string := "0123456789abcdefghjkmnpqrstvwxyz"

  /** The two characters outside ASCII whose lower case is in it: the Kelvin sign
      and the capital I with a dot. */
  const KELVIN: char := '\U{212A}'
  const DOTTED_I: char := '\U{130}'

  /** Lower case, of what has it in ASCII; no other character is read as a symbol
      in either case. */
  function Lower(c: char): char {
    if 'A' <= c <= 'Z' then (c as int + 32) as char
    else if c == KELVIN then 'k'
    else if c == DOTTED_I then 'i'
    else c
  }

  /** What one typed character is read as: nothing, or one symbol. */
  function Reading(c: char): (s: string)
    ensures |s| <= 1
  {
    var low := Lower(c);
    if low == '-' || low == ' ' then ""
    else if low == 'o' then "0"
    else if low == 'i' || low == 'l' then "1"
    else [low]
  }

  function Read(typed: string): string {
    if typed == "" then "" else Reading(typed[0]) + Read(typed[1..])
  }

  predicate IsCode(symbols: string) {
    |symbols| == SYMBOLS && forall c :: c in symbols ==> c in ALPHABET
  }

  /** recoveryHash: the symbols a typed text is looked up by, or none for a text
      that is no code. */
  function Canonical(typed: string): (r: Option<string>)
    ensures r.Some? ==> IsCode(r.value)
  {
    if IsCode(Read(typed)) then Some(Read(typed)) else None
  }

  function Symbols(raw: seq<Byte>): (s: string)
    ensures |s| == |raw|
    ensures forall i :: 0 <= i < |raw| ==> s[i] == ALPHABET[raw[i] % 32]
  {
    seq(|raw|, i requires 0 <= i < |raw| => ALPHABET[raw[i] % 32])
  }

  /** One code from its random bytes, as the inner loop of NewRecoveryCodes
      writes it: a hyphen between every four symbols. */
  method Write(raw: seq<Byte>) returns (code: string)
    requires |raw| == SYMBOLS
    ensures Canonical(code) == Some(Symbols(raw))
    ensures |code| == 14 && code[4] == code[9] == '-'
  {
    code := "";
    for j := 0 to |raw|
      invariant Read(code) == Symbols(raw)[..j]
      invariant |code| == j + (if j == 0 then 0 else (j - 1) / 4)
      invariant j > 4 ==> code[4] == '-'
      invariant j > 8 ==> code[9] == '-'
    {
      if j > 0 && j % 4 == 0 {
        ReadAnother(code, '-');
        code := code + "-";
      }
      SymbolsReadAsThemselves(raw[j] % 32);
      ReadAnother(code, ALPHABET[raw[j] % 32]);
      code := code + [ALPHABET[raw[j] % 32]];
      assert Symbols(raw)[..j + 1] == Symbols(raw)[..j] + [ALPHABET[raw[j] % 32]];
    }
    assert Symbols(raw)[..|raw|] == Symbols(raw);
    SymbolsAreACode(raw);
  }

  lemma ReadAnother(code: string, c: char)
    ensures Read(code + [c]) == Read(code) + Reading(c)
  {
    ReadAppend(code, [c]);
    ReadOne(c);
  }

  lemma SymbolsAreACode(raw: seq<Byte>)
    requires |raw| == SYMBOLS
    ensures IsCode(Symbols(raw))
  {
    var s := Symbols(raw);
    forall c | c in s ensures c in ALPHABET {
      var i :| 0 <= i < |s| && s[i] == c;
    }
  }

  lemma ReadOne(c: char)
    ensures Read([c]) == Reading(c)
  {
    assert [c][1..] == "";
  }

  lemma SymbolsReadAsThemselves(k: nat)
    requires k < |ALPHABET|
    ensures Reading(ALPHABET[k]) == [ALPHABET[k]]
  {
  }

  lemma {:induction false} ReadAppend(a: string, b: string)
    ensures Read(a + b) == Read(a) + Read(b)
  {
    if a == "" {
      assert a + b == b;
    } else {
      ReadAppend(a[1..], b);
      assert (a + b)[1..] == a[1..] + b;
      assert Read(a + b) == Reading(a[0]) + Read(a[1..] + b);
      Associates(Reading(a[0]), Read(a[1..]), Read(b));
    }
  }

  lemma Associates(a: string, b: string, c: string)
    ensures a + (b + c) == (a + b) + c
  {
  }

  /** Two spellings of one character that people confuse or decorate. */
  predicate SameSpelling(c: char, d: char) { Reading(c) == Reading(d) }

  lemma ReadMiddle(front: string, c: char, back: string)
    ensures Read(front + [c] + back) == Read(front) + Reading(c) + Read(back)
  {
    ReadAppend(front + [c], back);
    ReadAnother(front, c);
  }

  /** The letters that people confuse with digits, and the two cases of any. */
  lemma ConfusedAlike(u: char)
    ensures SameSpelling('o', '0') && SameSpelling('O', '0') && SameSpelling('I', '1') && SameSpelling('l', '1')
    ensures SameSpelling(KELVIN, 'K') && SameSpelling(DOTTED_I, '1')
    ensures SameSpelling(u, Lower(u))
  {
  }

  /** How a code is copied does not matter: hyphens or spaces anywhere, either
      case, and the letters read as digits all give the same code. */
  lemma SpellingDoesNotMatter(front: string, c: char, d: char, back: string)
    ensures SameSpelling(c, d) ==> Canonical(front + [c] + back) == Canonical(front + [d] + back)
    ensures c == '-' || c == ' ' ==> Canonical(front + [c] + back) == Canonical(front + back)
    ensures SameSpelling('o', '0') && SameSpelling('O', '0') && SameSpelling('I', '1') && SameSpelling('l', '1')
    ensures SameSpelling(KELVIN, 'K') && SameSpelling(DOTTED_I, '1') && SameSpelling(c, Lower(c))
  {
    assert Read(front + [c] + back) == Read(front) + Reading(c) + Read(back) by {
      ReadMiddle(front, c, back);
    }
    assert Read(front + [d] + back) == Read(front) + Reading(d) + Read(back) by {
      ReadMiddle(front, d, back);
    }
    assert Read(front + back) == Read(front) + "" + Read(back) by {
      ReadAppend(front, back);
    }
    ConfusedAlike(c);
  }

  // What is read as which code, symbol by symbol.

  predicate IsSeparator(c: char) { c == '-' || c == ' ' }

  predicate IsSymbol(c: char) { ('0' <= c <= '9') || ('a' <= c <= 'z' && c !in {'i', 'l', 'o', 'u'}) }

  /** Whether a typed character stands for a symbol: itself or its capital, the letters
      that are no symbols for the digits they look like, and the two others whose lower
      case is a letter. */
  predicate StandsFor(c: char, symbol: char) {
    && IsSymbol(symbol)
    && (|| c == symbol
        || ('A' <= c <= 'Z' && c as int + 32 == symbol as int)
        || (symbol == '0' && c in {'o', 'O'})
        || (symbol == '1' && c in {'i', 'I', 'l', 'L', DOTTED_I})
        || (symbol == 'k' && c == KELVIN))
  }

  /** Whether a typed text spells some symbols, with separators anywhere. */
  predicate Spells(typed: string, symbols: string) {
    if typed == "" then symbols == ""
    else if IsSeparator(typed[0]) then Spells(typed[1..], symbols)
    else symbols != "" && StandsFor(typed[0], symbols[0]) && Spells(typed[1..], symbols[1..])
  }

  /** Where a symbol stands: the letters without i, l, o and u. */
  lemma SymbolAt(k: nat)
    requires k < 32
    ensures ALPHABET[k] as int == if k < 10 then k + 48 else if k < 18 then k + 87 else if k < 20 then k + 88
                                  else if k < 22 then k + 89 else if k < 27 then k + 90 else k + 91
  {
  }

  lemma AlphabetIs(c: char)
    ensures IsSymbol(c) <==> c in ALPHABET
  {
    if c in ALPHABET {
      var k :| 0 <= k < |ALPHABET| && ALPHABET[k] == c;
      SymbolAt(k);
    }
    if IsSymbol(c) {
      var v := c as int;
      SymbolAt(if v < 58 then v - 48 else if v < 105 then v - 87 else if v < 108 then v - 88
               else if v < 111 then v - 89 else if v < 117 then v - 90 else v - 91);
    }
  }

  lemma ReadsAsWhatItStandsFor(c: char, symbol: char)
    ensures !IsSeparator(c) ==> (StandsFor(c, symbol) <==> IsSymbol(symbol) && Reading(c) == [symbol])
    ensures IsSeparator(c) <==> Reading(c) == ""
  {
  }

  predicate AllSymbols(s: string) { forall i :: 0 <= i < |s| ==> IsSymbol(s[i]) }

  lemma {:induction false} SpellsWhatIsRead(typed: string, symbols: string)
    ensures Spells(typed, symbols) <==> AllSymbols(symbols) && Read(typed) == symbols
  {
    if typed != "" {
      var c := typed[0];
      if IsSeparator(c) {
        SpellsWhatIsRead(typed[1..], symbols);
        ReadsAsWhatItStandsFor(c, '0');
      } else if symbols == "" {
        ReadsAsWhatItStandsFor(c, '0');
      } else {
        SpellsWhatIsRead(typed[1..], symbols[1..]);
        ReadsAsWhatItStandsFor(c, symbols[0]);
        OneMoreSymbol(symbols);
      }
    }
  }

  lemma OneMoreSymbol(symbols: string)
    requires symbols != ""
    ensures AllSymbols(symbols) <==> IsSymbol(symbols[0]) && AllSymbols(symbols[1..])
    ensures symbols == [symbols[0]] + symbols[1..]
  {
  }

  /** A typed text is read as a code exactly when it spells its twelve symbols. */
  lemma ReadExactly(typed: string, symbols: string)
    ensures Canonical(typed) == Some(symbols) <==> |symbols| == 12 && Spells(typed, symbols)
  {
    SpellsWhatIsRead(typed, symbols);
    forall c ensures IsSymbol(c) <==> c in ALPHABET {
      AlphabetIs(c);
    }
  }

  /** NewRecoveryCodes, from the random bytes of each code: ten codes, each read
      back as the symbols it was made of. */
  method NewRecoveryCodes(raws: seq<seq<Byte>>) returns (codes: seq<string>)
    requires |raws| == COUNT && forall i :: 0 <= i < COUNT ==> |raws[i]| == SYMBOLS
    ensures |codes| == COUNT
    ensures forall i :: 0 <= i < COUNT ==> Canonical(codes[i]) == Some(Symbols(raws[i]))
  {
    var filled := new string[COUNT](_ => "");
    for i := 0 to COUNT
      invariant forall j :: 0 <= j < i ==> Canonical(filled[j]) == Some(Symbols(raws[j]))
    {
      var code := Write(raws[i]);
      filled[i] := code;
    }
    codes := filled[..];
  }

  // What is stored is a hash of the symbols, bound to the account.

  function Ascii(s: string): (b: seq<Byte>)
    requires forall i :: 0 <= i < |s| ==> s[i] as int < 256
    ensures |b| == |s| && forall i :: 0 <= i < |s| ==> b[i] == s[i] as int
  {
    seq(|s|, i requires 0 <= i < |s| => s[i] as int)
  }

  /** recoveryHash and boundRecoveryHash, of the symbols of a code. */
  function Stored(sha: Digest.Sha, account: seq<Byte>, symbols: string): Digest.Hash
    requires IsCode(symbols)
  {
    IsAscii(symbols);
    sha(account + sha(Ascii(symbols)))
  }

  lemma IsAscii(symbols: string)
    requires IsCode(symbols)
    ensures forall i :: 0 <= i < |symbols| ==> symbols[i] as int < 256
  {
    forall i | 0 <= i < |symbols| ensures symbols[i] as int < 256 {
      assert symbols[i] in symbols;
      var k :| 0 <= k < |ALPHABET| && ALPHABET[k] == symbols[i];
      AlphabetIsAscii(k);
    }
  }

  lemma AlphabetIsAscii(k: nat)
    requires k < |ALPHABET|
    ensures ALPHABET[k] as int < 256
  {
  }

  /** The bytes of two codes' symbols, or of what is hashed with them, collide. */
  predicate StoredCollide(sha: Digest.Sha, account: seq<Byte>, symbols: string, other: seq<Byte>, otherSymbols: string)
    requires IsCode(symbols) && IsCode(otherSymbols)
  {
    IsAscii(symbols);
    IsAscii(otherSymbols);
    var x, y := Ascii(symbols), Ascii(otherSymbols);
    || (account == other && Digest.Collides(sha, x, y))
    || Digest.Collides(sha, account + sha(x), other + sha(y))
  }

  lemma AsciiTellsApart(symbols: string, otherSymbols: string)
    requires forall i :: 0 <= i < |symbols| ==> symbols[i] as int < 256
    requires forall i :: 0 <= i < |otherSymbols| ==> otherSymbols[i] as int < 256
    ensures Ascii(symbols) == Ascii(otherSymbols) <==> symbols == otherSymbols
  {
    var a, b := Ascii(symbols), Ascii(otherSymbols);
    if a == b {
      assert forall i :: 0 <= i < |symbols| ==> symbols[i] as int == a[i] == b[i] == otherSymbols[i] as int;
    }
  }

  /** Stored values stand for codes of their account: of two accounts, of
      identifiers of one length, they are equal exactly when account and code are,
      or these very texts collide. */
  lemma StoredStandsForTheCode(sha: Digest.Sha, account: seq<Byte>, symbols: string, other: seq<Byte>,
                               otherSymbols: string)
    requires IsCode(symbols) && IsCode(otherSymbols) && |account| == |other|
    ensures Stored(sha, account, symbols) == Stored(sha, other, otherSymbols)
       <==> (account == other && symbols == otherSymbols) || StoredCollide(sha, account, symbols, other, otherSymbols)
  {
    IsAscii(symbols);
    IsAscii(otherSymbols);
    AsciiTellsApart(symbols, otherSymbols);
    var a, b := Ascii(symbols), Ascii(otherSymbols);
    var x, y := account + sha(a), other + sha(b);
    if x == y {
      assert account == x[..|account|] == y[..|other|] == other;
      assert sha(a) == x[|account|..] == y[|other|..] == sha(b);
    }
  }
}
