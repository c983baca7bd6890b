/** Base64 with the standard alphabet and no padding, as encoding/base64's
    RawStdEncoding writes and reads it (section 4 of RFC 4648). */
module Base64 {
  import opened Base
  import opened Bytes

  type Sextet = v: int | 0 <= v < 64

  function Symbol(v: Sextet): (c: char)
    ensures ValueOf(c) == Some(v)
  {
    if v < 26 then (v + 65) as char
    else if v < 52 then (v + 71) as char
    else if v < 62 then (v - 4) as char
    else if v == 62 then '+' else '/'
  }

  function ValueOf(c: char): Option<Sextet> {
    if 'A' <= c <= 'Z' then Some(c as int - 65)
    else if 'a' <= c <= 'z' then Some(c as int - 71)
    else if '0' <= c <= '9' then Some(c as int + 4)
    else if c == '+' then Some(62)
    else if c == '/' then Some(63)
    else None
  }

  function Symbols(v: seq<Sextet>): (s: string)
    ensures |s| == |v| && forall i :: 0 <= i < |v| ==> s[i] == Symbol(v[i])
  {
    seq(|v|, i requires 0 <= i < |v| => Symbol(v[i]))
  }

  /** Six bits at a time; the last group's missing bits are zero. */
  function Split(b: seq<Byte>): (v: seq<Sextet>) {
    if b == [] then []
    else if |b| == 1 then [b[0] / 4, b[0] % 4 * 16]
    else if |b| == 2 then [b[0] / 4, b[0] % 4 * 16 + b[1] / 16, b[1] % 16 * 4]
    else [b[0] / 4, b[0] % 4 * 16 + b[1] / 16, b[1] % 16 * 4 + b[2] / 64, b[2] % 64] + Split(b[3..])
  }

  function Encode(b: seq<Byte>): string { Symbols(Split(b)) }

  /** The three bytes of four sextets. */
  function First(a: Sextet, b: Sextet): Byte { a as int * 4 + b as int / 16 }

  function Second(b: Sextet, c: Sextet): Byte { b as int % 16 * 16 + c as int / 4 }

  function Third(c: Sextet, d: Sextet): Byte { c as int % 4 * 64 + d as int }

  /** Eight bits at a time. One symbol left over is refused; the bits left over by
      two or three are dropped, whatever they are. */
  function Join(v: seq<Sextet>): Option<seq<Byte>> {
    if v == [] then Some([])
    else if |v| == 1 then None
    else if |v| == 2 then Some([First(v[0], v[1])])
    else if |v| == 3 then Some([First(v[0], v[1]), Second(v[1], v[2])])
    else
      var rest := Join(v[4..]);
      if rest.None? then None
      else Some([First(v[0], v[1]), Second(v[1], v[2]), Third(v[2], v[3])] + rest.value)
  }

  /** The symbols of a text, new lines apart, or none if one is no symbol. */
  function Read(s: string): Option<seq<Sextet>> {
    if s == "" then Some([])
    else if s[0] == '\n' || s[0] == '\r' then Read(s[1..])
    else
      var rest := Read(s[1..]);
      if ValueOf(s[0]).None? || rest.None? then None else Some([ValueOf(s[0]).value] + rest.value)
  }

  function Decode(s: string): Option<seq<Byte>> {
    match Read(s) case None => None case Some(v) => Join(v)
  }

  lemma {:induction false} ReadUndoesSymbols(v: seq<Sextet>)
    ensures Read(Symbols(v)) == Some(v)
  {
    if v != [] {
      ReadUndoesSymbols(v[1..]);
      assert Symbols(v)[1..] == Symbols(v[1..]);
      assert v == [v[0]] + v[1..];
    }
  }

  lemma ThreeBytes(x: Byte, y: Byte, z: Byte)
    ensures First(x / 4, x % 4 * 16 + y / 16) == x
    ensures Second(x % 4 * 16 + y / 16, y % 16 * 4 + z / 64) == y
    ensures Third(y % 16 * 4 + z / 64, z % 64) == z
  {
  }

  lemma {:induction false} JoinUndoesSplit(b: seq<Byte>)
    ensures Join(Split(b)) == Some(b)
  {
    if |b| == 1 {
      assert b == [b[0]];
    } else if |b| == 2 {
      assert b == [b[0], b[1]];
    } else if |b| >= 3 {
      var rest := b[3..];
      JoinUndoesSplit(rest);
      ThreeBytes(b[0], b[1], b[2]);
      assert Split(b)[4..] == Split(rest);
      assert b == [b[0], b[1], b[2]] + rest;
    }
  }

  /** Decoding undoes encoding, of any bytes. */
  lemma DecodeUndoesEncode(b: seq<Byte>)
    ensures Decode(Encode(b)) == Some(b)
  {
    ReadUndoesSymbols(Split(b));
    JoinUndoesSplit(b);
  }

  // The encoding of RFC 4648, by its table and its groups of three bytes.

  const UPPER: string := "ABCDEFGHIJKLMNOPQRSTUVWXYZ"
  const LOWER: string := "abcdefghijklmnopqrstuvwxyz"
  const OTHERS: string := "0123456789+/"
  const TABLE: string := UPPER + LOWER + OTHERS

  lemma Letters(k: nat)
    ensures k < 26 ==> UPPER[k] == (k + 65) as char && LOWER[k] == (k + 97) as char
    ensures k < 12 ==> OTHERS[k] == if k < 10 then (k + 48) as char else if k == 10 then '+' else '/'
  {
  }

  lemma SymbolIsInTheTable(v: Sextet)
    ensures Symbol(v) == TABLE[v]
  {
    Letters(if v < 26 then v else if v < 52 then v - 26 else v - 52);
    assert TABLE[v] == if v < 26 then UPPER[v] else if v < 52 then LOWER[v - 26] else OTHERS[v - 52];
  }

  /** Twenty-four bits. */
  function Group(x: nat, y: nat, z: nat): nat { x * 0x1_0000 + y * 0x100 + z }

  lemma FirstSix(x: nat, y: nat, z: nat)
    requires x < 256 && y < 256 && z < 256
    ensures Group(x, y, z) / 0x4_0000 == x / 4
  {
    assert Group(x, y, z) == x / 4 * 0x4_0000 + (x % 4 * 0x1_0000 + y * 0x100 + z);
  }

  lemma SecondSix(x: nat, y: nat, z: nat)
    requires x < 256 && y < 256 && z < 256
    ensures Group(x, y, z) / 0x1000 % 64 == x % 4 * 16 + y / 16
  {
    assert Group(x, y, z) == (x * 16 + y / 16) * 0x1000 + (y % 16 * 0x100 + z);
    assert Group(x, y, z) / 0x1000 == x * 16 + y / 16 == x / 4 * 64 + (x % 4 * 16 + y / 16);
  }

  lemma ThirdSix(x: nat, y: nat, z: nat)
    requires x < 256 && y < 256 && z < 256
    ensures Group(x, y, z) / 0x40 % 64 == y % 16 * 4 + z / 64
    ensures Group(x, y, z) % 64 == z % 64
  {
    assert Group(x, y, z) == (x * 1024 + y * 4 + z / 64) * 64 + z % 64;
    assert Group(x, y, z) / 0x40 == x * 1024 + y * 4 + z / 64 == (x * 16 + y / 16) * 64 + (y % 16 * 4 + z / 64);
  }

  /** Four sextets from k on are twenty-four bits in sixes. */
  predicate InSixes(v: seq<Sextet>, k: nat, n: nat) {
    k + 3 < |v| && v[k] == n / 0x4_0000 && v[k + 1] == n / 0x1000 % 64 && v[k + 2] == n / 0x40 % 64
      && v[k + 3] == n % 64
  }

  lemma FirstGroup(b: seq<Byte>)
    requires |b| >= 3
    ensures InSixes(Split(b), 0, Group(b[0], b[1], b[2]))
  {
    FirstSix(b[0], b[1], b[2]);
    SecondSix(b[0], b[1], b[2]);
    ThirdSix(b[0], b[1], b[2]);
  }

  lemma {:induction false} GroupIsSplit(b: seq<Byte>, i: nat)
    requires 3 * i + 2 < |b|
    ensures InSixes(Split(b), 4 * i, Group(b[3 * i], b[3 * i + 1], b[3 * i + 2]))
  {
    if i == 0 {
      FirstGroup(b);
    } else {
      var rest := b[3..];
      GroupIsSplit(rest, i - 1);
      assert rest[3 * (i - 1)] == b[3 * i] && rest[3 * (i - 1) + 1] == b[3 * i + 1]
          && rest[3 * (i - 1) + 2] == b[3 * i + 2];
      assert Split(b)[4..] == Split(rest);
    }
  }

  /** After i groups one or two bytes may be over, with zeros behind them. */
  lemma {:induction false} TailIsSplit(b: seq<Byte>, i: nat)
    requires 3 * i <= |b| < 3 * i + 3
    ensures |b| == 3 * i ==> |Split(b)| == 4 * i
    ensures |b| == 3 * i + 1 ==> var v, n := Split(b), Group(b[3 * i], 0, 0);
                                 |v| == 4 * i + 2 && v[4 * i] == n / 0x4_0000 && v[4 * i + 1] == n / 0x1000 % 64
    ensures |b| == 3 * i + 2 ==> var v, n := Split(b), Group(b[3 * i], b[3 * i + 1], 0);
                                 && |v| == 4 * i + 3 && v[4 * i] == n / 0x4_0000 && v[4 * i + 1] == n / 0x1000 % 64
                                 && v[4 * i + 2] == n / 0x40 % 64
  {
    if i > 0 {
      TailIsSplit(b[3..], i - 1);
      assert Split(b)[4..] == Split(b[3..]);
    } else if |b| > 0 {
      var second := if |b| == 2 then b[1] else 0;
      FirstSix(b[0], second, 0);
      SecondSix(b[0], second, 0);
      ThirdSix(b[0], second, 0);
    }
  }

  lemma EncodedByTheTable(b: seq<Byte>, k: nat)
    requires k < |Split(b)|
    ensures k < |Encode(b)| && Encode(b)[k] == TABLE[Split(b)[k]]
  {
    SymbolIsInTheTable(Split(b)[k]);
  }

  /** Three bytes are written as the four symbols that the table has for their bits,
      six at a time, */
  lemma EncodesInGroups(b: seq<Byte>, i: nat)
    requires 3 * i + 2 < |b|
    ensures var s, n := Encode(b), Group(b[3 * i], b[3 * i + 1], b[3 * i + 2]);
            && 4 * i + 3 < |s| && s[4 * i] == TABLE[n / 0x4_0000] && s[4 * i + 1] == TABLE[n / 0x1000 % 64]
            && s[4 * i + 2] == TABLE[n / 0x40 % 64] && s[4 * i + 3] == TABLE[n % 64]
  {
    GroupIsSplit(b, i);
    EncodedByTheTable(b, 4 * i);
    EncodedByTheTable(b, 4 * i + 1);
    EncodedByTheTable(b, 4 * i + 2);
    EncodedByTheTable(b, 4 * i + 3);
  }

  /** and one or two over as the symbols that hold their bits, without padding. */
  lemma EncodesTheRest(b: seq<Byte>, i: nat)
    requires 3 * i <= |b| < 3 * i + 3
    ensures |b| == 3 * i ==> |Encode(b)| == 4 * i
    ensures |b| == 3 * i + 1 ==> var n := Group(b[3 * i], 0, 0);
                                 && |Encode(b)| == 4 * i + 2
                                 && Encode(b)[4 * i..] == [TABLE[n / 0x4_0000], TABLE[n / 0x1000 % 64]]
    ensures |b| == 3 * i + 2 ==> var n := Group(b[3 * i], b[3 * i + 1], 0);
                                 && |Encode(b)| == 4 * i + 3
                                 && Encode(b)[4 * i..]
                                    == [TABLE[n / 0x4_0000], TABLE[n / 0x1000 % 64], TABLE[n / 0x40 % 64]]
  {
    TailIsSplit(b, i);
    if |b| > 3 * i {
      EncodedByTheTable(b, 4 * i);
      EncodedByTheTable(b, 4 * i + 1);
    }
    if |b| == 3 * i + 2 {
      EncodedByTheTable(b, 4 * i + 2);
    }
  }

  // What decodes at all.

  predicate IsNewLine(c: char) { c == '\n' || c == '\r' }

  /** How many characters are no new lines. */
  function CountLetters(s: string): nat {
    if s == "" then 0 else (if IsNewLine(s[0]) then 0 else 1) + CountLetters(s[1..])
  }

  predicate OfTheTable(s: string) { forall i :: 0 <= i < |s| ==> IsNewLine(s[i]) || s[i] in TABLE }

  lemma ValuesAreInTheTable(c: char)
    ensures ValueOf(c).Some? <==> c in TABLE
  {
    if ValueOf(c).Some? {
      SymbolIsInTheTable(ValueOf(c).value);
      assert Symbol(ValueOf(c).value) == c;
    }
    if c in TABLE {
      var v: nat :| v < |TABLE| && TABLE[v] == c;
      SymbolIsInTheTable(v);
    }
  }

  lemma {:induction false} ReadsTheTable(s: string)
    ensures Read(s).Some? <==> OfTheTable(s)
    ensures Read(s).Some? ==> |Read(s).value| == CountLetters(s)
  {
    if s != "" {
      ReadsTheTable(s[1..]);
      ValuesAreInTheTable(s[0]);
      assert OfTheTable(s) <==> (IsNewLine(s[0]) || s[0] in TABLE) && OfTheTable(s[1..]);
    }
  }

  lemma {:induction false} JoinsUnlessOneIsOver(v: seq<Sextet>, k: nat, left: nat)
    requires |v| == 4 * k + left && left < 4
    ensures Join(v).Some? <==> left != 1
  {
    if k > 0 {
      JoinsUnlessOneIsOver(v[4..], k - 1, left);
    }
  }

  /** A text decodes exactly when it is of the table and new lines, with no single
      symbol over. */
  lemma DecodesExactly(s: string)
    ensures Decode(s).Some? <==> OfTheTable(s) && CountLetters(s) % 4 != 1
  {
    ReadsTheTable(s);
    if Read(s).Some? {
      JoinsUnlessOneIsOver(Read(s).value, CountLetters(s) / 4, CountLetters(s) % 4);
    }
  }

  /** What is written holds no separator of a hash's parts. */
  lemma EncodedHasNoDollar(b: seq<Byte>)
    ensures '$' !in Encode(b)
  {
    var v := Split(b);
    forall i | 0 <= i < |v| ensures Symbols(v)[i] != '$' {
      assert ValueOf(Symbols(v)[i]) == Some(v[i]);
    }
  }

  /** The other way round is not so: the bits that a last symbol has over are
      dropped, whatever they are, */
  lemma BitsOverAreDropped(c: char, d: char, e: char)
    requires ValueOf(c).Some? && ValueOf(d).Some? && ValueOf(e).Some?
    requires ValueOf(d).value / 16 == ValueOf(e).value / 16
    ensures Decode([c, d]) == Decode([c, e])
  {
    ReadTwo(c, d);
    ReadTwo(c, e);
  }

  lemma ReadTwo(c: char, d: char)
    requires ValueOf(c).Some? && ValueOf(d).Some?
    ensures Read([c, d]) == Some([ValueOf(c).value, ValueOf(d).value])
  {
    var v: seq<Sextet> := [];
    assert [c, d][1..] == [d] && [d][1..] == "";
    assert Read("") == Some(v);
    assert Read([d]) == Some([ValueOf(d).value] + v);
    assert [ValueOf(d).value] + v == [ValueOf(d).value];
    var both: seq<Sextet> := [ValueOf(c).value] + [ValueOf(d).value];
    assert Read([c, d]) == Some(both);
    assert both == [ValueOf(c).value, ValueOf(d).value];
  }

  /** and new lines anywhere are skipped. */
  lemma NewLinesAreSkipped(front: string, back: string)
    ensures Decode(front + "\n" + back) == Decode(front + back)
  {
    ReadSkips(front, back);
  }

  lemma {:induction false} ReadSkips(front: string, back: string)
    ensures Read(front + "\n" + back) == Read(front + back)
  {
    if front == "" {
      assert (front + "\n" + back)[1..] == back && front + back == back;
    } else {
      ReadSkips(front[1..], back);
      assert (front + "\n" + back)[1..] == front[1..] + "\n" + back;
      assert (front + back)[1..] == front[1..] + back;
    }
  }
}
