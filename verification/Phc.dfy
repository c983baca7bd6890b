/** Stored password hashes: what the hasher writes and what it reads back
    (internal/identity/password.go). argon2id and the normalisation of a
    password are parameters. */
module Phc {
  import opened Base
  import opened Bytes
  import opened Decimal
  import Base64

  type Uint32 = n: nat | n < 0x1_0000_0000
  type Uint8 = n: nat | n < 0x100

  /** argon2id's costs. */
  datatype Params = Params(memory: Uint32, time: Uint32, threads: Uint8, keyLen: Uint32, saltLen: Uint32)

  /** argon2.IDKey: password, salt, time, memory, threads, key length. */
  type Argon = (seq<Byte>, seq<Byte>, nat, nat, nat, nat) -> seq<Byte>

  const MAX_ENCODED: nat := 1024
  const MAX_MEMORY: nat := 262144
  const MAX_TIME: nat := 10

  function Split(s: string): (parts: seq<string>)
    ensures parts != []
  {
    if s == "" then [""]
    else if s[0] == '$' then [""] + Split(s[1..])
    else
      var rest := Split(s[1..]);
      [[s[0]] + rest[0]] + rest[1..]
  }

  lemma {:induction false} SplitTakesAPart(part: string, rest: string)
    requires '$' !in part
    ensures Split(part + ("$" + rest)) == [part] + Split(rest)
  {
    var s := part + ("$" + rest);
    if part == "" {
      assert s[1..] == rest;
    } else {
      assert part[0] != '$';
      SplitTakesAPart(part[1..], rest);
      assert s[1..] == part[1..] + ("$" + rest);
      assert part == [part[0]] + part[1..];
    }
  }

  lemma {:induction false} SplitLastPart(part: string)
    requires '$' !in part
    ensures Split(part) == [part]
  {
    if part != "" {
      assert part[0] != '$';
      SplitLastPart(part[1..]);
      assert part == [part[0]] + part[1..];
    }
  }

  /** The costs, and whatever follows them. */
  function CostsThen(p: Params, rest: string): string {
    "m=" + (Written(p.memory) + (",t=" + (Written(p.time) + (",p=" + (Written(p.threads) + rest)))))
  }

  function Costs(p: Params): string { CostsThen(p, "") }

  /** encode, of a salt and the key it gave. */
  function Encode(p: Params, salt: seq<Byte>, key: seq<Byte>): string {
    "$" + ("argon2id"
           + ("$" + ("v=19" + ("$" + (Costs(p) + ("$" + (Base64.Encode(salt) + ("$" + Base64.Encode(key)))))))))
  }

  /** A literal, then a number below a bound: what is left after them. */
  function Field(s: string, literal: string, bound: nat): (r: Option<(nat, string)>)
    ensures r.Some? ==> r.value.0 < bound
  {
    if literal <= s then Scan(s[|literal|..], bound) else None
  }

  lemma FieldReadsBack(literal: string, n: nat, rest: string, bound: nat)
    requires rest == "" || !IsDigit(rest[0])
    ensures Field(literal + (Written(n) + rest), literal, bound) == if n < bound then Some((n, rest)) else None
  {
    var s := literal + (Written(n) + rest);
    assert s[|literal|..] == Written(n) + rest;
    ScanUndoesWritten(n, rest, bound);
  }

  /** fmt.Sscanf(s, "m=%d,t=%d,p=%d"): what comes after the last number is not
      looked at. */
  function ScanCosts(s: string): Option<(Uint32, Uint32, Uint8)> {
    var m := Field(s, "m=", 0x1_0000_0000);
    if m.None? then None else
    var t := Field(m.value.1, ",t=", 0x1_0000_0000);
    if t.None? then None else
    var p := Field(t.value.1, ",p=", 0x100);
    if p.None? then None else Some((m.value.0, t.value.0, p.value.0))
  }

  predicate CostsBounded(memory: nat, time: nat, threads: nat) {
    1 <= memory <= MAX_MEMORY && 1 <= time <= MAX_TIME && 1 <= threads
  }

  /** decode. */
  function Decode(encoded: string): Option<(Params, seq<Byte>, seq<Byte>)> {
    var parts := Split(encoded);
    if |parts| != 6 || parts[1] != "argon2id" || parts[2] != "v=19" then None else
    var costs := ScanCosts(parts[3]);
    if costs.None? || !CostsBounded(costs.value.0, costs.value.1, costs.value.2) then None else
    var salt, key := Base64.Decode(parts[4]), Base64.Decode(parts[5]);
    if salt.None? || key.None? || !(1 <= |salt.value| <= MAX_ENCODED) || !(1 <= |key.value| <= MAX_ENCODED) then None
    else Some((Params(costs.value.0, costs.value.1, costs.value.2, |key.value|, |salt.value|), salt.value, key.value))
  }

  // Round trip.

  /** The costs are scanned back whatever follows them: only ours end there, but
      others are read. */
  lemma CostsScanBack(p: Params, rest: string)
    requires rest == "" || !IsDigit(rest[0])
    ensures ScanCosts(CostsThen(p, rest)) == Some((p.memory, p.time, p.threads))
  {
    var fromThreads := ",p=" + (Written(p.threads) + rest);
    var fromTime := ",t=" + (Written(p.time) + fromThreads);
    FieldReadsBack("m=", p.memory, fromTime, 0x1_0000_0000);
    FieldReadsBack(",t=", p.time, fromThreads, 0x1_0000_0000);
    FieldReadsBack(",p=", p.threads, rest, 0x100);
  }

  predicate NoDollar(s: string) { forall i :: 0 <= i < |s| ==> s[i] != '$' }

  lemma NoDollarInBoth(a: string, b: string)
    requires NoDollar(a) && NoDollar(b)
    ensures NoDollar(a + b)
  {
  }

  lemma CostsHoldNoDollar(p: Params)
    ensures '$' !in Costs(p)
  {
    NoDollarInBoth(Written(p.threads), "");
    NoDollarInBoth(",p=", Written(p.threads) + "");
    NoDollarInBoth(Written(p.time), ",p=" + (Written(p.threads) + ""));
    NoDollarInBoth(",t=", Written(p.time) + (",p=" + (Written(p.threads) + "")));
    NoDollarInBoth(Written(p.memory), ",t=" + (Written(p.time) + (",p=" + (Written(p.threads) + ""))));
    NoDollarInBoth("m=", Written(p.memory) + (",t=" + (Written(p.time) + (",p=" + (Written(p.threads) + "")))));
  }

  lemma FiveParts(a: string, b: string, c: string, d: string, e: string)
    requires '$' !in a && '$' !in b && '$' !in c && '$' !in d && '$' !in e
    ensures Split("$" + (a + ("$" + (b + ("$" + (c + ("$" + (d + ("$" + e)))))))))
            == ["", a, b, c, d, e]
  {
    SplitLastPart(e);
    SplitTakesAPart(d, e);
    SplitTakesAPart(c, d + ("$" + e));
    SplitTakesAPart(b, c + ("$" + (d + ("$" + e))));
    SplitTakesAPart(a, b + ("$" + (c + ("$" + (d + ("$" + e))))));
    var rest := a + ("$" + (b + ("$" + (c + ("$" + (d + ("$" + e)))))));
    SplitTakesAPart("", rest);
    assert "" + ("$" + rest) == "$" + rest;
  }

  lemma EncodedSplits(p: Params, salt: seq<Byte>, key: seq<Byte>)
    ensures Split(Encode(p, salt, key)) == ["", "argon2id", "v=19", Costs(p), Base64.Encode(salt), Base64.Encode(key)]
  {
    CostsHoldNoDollar(p);
    Base64.EncodedHasNoDollar(salt);
    Base64.EncodedHasNoDollar(key);
    FiveParts("argon2id", "v=19", Costs(p), Base64.Encode(salt), Base64.Encode(key));
  }

  /** What may be read back: the ceilings of decode. */
  predicate Readable(p: Params, salt: seq<Byte>, key: seq<Byte>) {
    CostsBounded(p.memory, p.time, p.threads) && 1 <= |salt| <= MAX_ENCODED && 1 <= |key| <= MAX_ENCODED
  }

  /** decode undoes encode within its ceilings, and refuses beyond them. */
  lemma DecodeUndoesEncode(p: Params, salt: seq<Byte>, key: seq<Byte>)
    requires p.saltLen == |salt| && p.keyLen == |key|
    ensures Decode(Encode(p, salt, key)) == if Readable(p, salt, key) then Some((p, salt, key)) else None
  {
    EncodedSplits(p, salt, key);
    CostsScanBack(p, "");
    Base64.DecodeUndoesEncode(salt);
    Base64.DecodeUndoesEncode(key);
  }

  // What is written and what is read, exactly.

  lemma CostsFlat(m: string, time: string, threads: string)
    ensures "m=" + (m + (",t=" + (time + (",p=" + (threads + ""))))) == "m=" + m + ",t=" + time + ",p=" + threads
  {
  }

  lemma PartsFlat(costs: string, salt: string, key: string)
    ensures "$" + ("argon2id" + ("$" + ("v=19" + ("$" + (costs + ("$" + (salt + ("$" + key))))))))
         == "$argon2id$v=19$" + costs + "$" + salt + "$" + key
  {
    var end := costs + ("$" + (salt + ("$" + key)));
    assert end == costs + "$" + salt + "$" + key;
    assert "$" + ("argon2id" + ("$" + ("v=19" + ("$" + end)))) == "$argon2id$v=19$" + end;
  }

  /** The string of the PHC format: the parameters in decimal, salt and key in Base64. */
  lemma EncodesThePhcString(p: Params, salt: seq<Byte>, key: seq<Byte>)
    ensures var costs := "m=" + Written(p.memory) + ",t=" + Written(p.time) + ",p=" + Written(p.threads);
            Encode(p, salt, key) == "$argon2id$v=19$" + costs + "$" + Base64.Encode(salt) + "$" + Base64.Encode(key)
  {
    CostsFlat(Written(p.memory), Written(p.time), Written(p.threads));
    PartsFlat(Costs(p), Base64.Encode(salt), Base64.Encode(key));
  }

  function Joined(parts: seq<string>): string
    requires parts != []
  {
    if |parts| == 1 then parts[0] else parts[0] + ("$" + Joined(parts[1..]))
  }

  predicate NoDollars(parts: seq<string>) { forall i :: 0 <= i < |parts| ==> '$' !in parts[i] }

  lemma JoinsFurther(c: char, parts: seq<string>)
    requires parts != []
    ensures Joined([[c] + parts[0]] + parts[1..]) == [c] + Joined(parts)
  {
    var more := [[c] + parts[0]] + parts[1..];
    assert more[1..] == parts[1..];
    if |parts| > 1 {
      assert ([c] + parts[0]) + ("$" + Joined(parts[1..])) == [c] + (parts[0] + ("$" + Joined(parts[1..])));
    }
  }

  lemma {:induction false} SplitJoins(s: string)
    ensures Joined(Split(s)) == s
  {
    if s != "" {
      SplitJoins(s[1..]);
      var rest := Split(s[1..]);
      if s[0] == '$' {
        JoinsOneMore("", rest);
      } else {
        JoinsFurther(s[0], rest);
      }
      assert s == [s[0]] + s[1..];
    }
  }

  lemma {:induction false} SplitLeavesNoDollar(s: string)
    ensures NoDollars(Split(s))
  {
    if s != "" {
      SplitLeavesNoDollar(s[1..]);
      var rest := Split(s[1..]);
      assert '$' !in rest[0];
    }
  }

  lemma {:induction false} SplitUndoesJoined(parts: seq<string>)
    requires parts != [] && NoDollars(parts)
    ensures Split(Joined(parts)) == parts
  {
    assert '$' !in parts[0];
    if |parts| == 1 {
      SplitLastPart(parts[0]);
      assert parts == [parts[0]];
    } else {
      SplitUndoesJoined(parts[1..]);
      SplitTakesAPart(parts[0], Joined(parts[1..]));
      assert parts == [parts[0]] + parts[1..];
    }
  }

  /** The parts of a text that is a hash, whatever comes before the first dollar. */
  ghost predicate IsHash(encoded: string, front: string, costs: string, salt: string, key: string) {
    && '$' !in front && '$' !in costs && '$' !in salt && '$' !in key
    && encoded == front + "$argon2id$v=19$" + costs + "$" + salt + "$" + key
  }

  /** What a hash of these parts holds, within the ceilings. */
  ghost predicate Holds(costs: string, saltText: string, keyText: string, p: Params, salt: seq<Byte>, key: seq<Byte>) {
    && ScanCosts(costs) == Some((p.memory, p.time, p.threads))
    && 1 <= p.memory <= 262_144 && 1 <= p.time <= 10 && 1 <= p.threads
    && Base64.Decode(saltText) == Some(salt) && Base64.Decode(keyText) == Some(key)
    && 1 <= |salt| == p.saltLen <= 1024 && 1 <= |key| == p.keyLen <= 1024
  }

  lemma SixParts(front: string, costs: string, salt: string, key: string)
    ensures Joined([front, "argon2id", "v=19", costs, salt, key])
            == front + "$argon2id$v=19$" + costs + "$" + salt + "$" + key
  {
    JoinsOneMore(salt, [key]);
    JoinsOneMore(costs, [salt, key]);
    JoinsOneMore("v=19", [costs, salt, key]);
    JoinsOneMore("argon2id", ["v=19", costs, salt, key]);
    JoinsOneMore(front, ["argon2id", "v=19", costs, salt, key]);
    var end := costs + "$" + salt + "$" + key;
    assert Joined([costs, salt, key]) == end;
    assert front + ("$" + ("argon2id" + ("$" + ("v=19" + ("$" + end))))) == front + "$argon2id$v=19$" + end;
  }

  lemma JoinsOneMore(part: string, rest: seq<string>)
    requires rest != []
    ensures Joined([part] + rest) == part + ("$" + Joined(rest))
  {
    assert ([part] + rest)[1..] == rest;
  }

  lemma ReadsItsParts(encoded: string, p: Params, salt: seq<Byte>, key: seq<Byte>)
    ensures Decode(encoded) == Some((p, salt, key))
       <==> var parts := Split(encoded);
            && |parts| == 6 && parts[1] == "argon2id" && parts[2] == "v=19"
            && Holds(parts[3], parts[4], parts[5], p, salt, key)
  {
  }

  lemma SplitsAsAHash(encoded: string, front: string, costs: string, saltText: string, keyText: string)
    ensures IsHash(encoded, front, costs, saltText, keyText)
       <==> Split(encoded) == [front, "argon2id", "v=19", costs, saltText, keyText]
  {
    var parts := [front, "argon2id", "v=19", costs, saltText, keyText];
    SixParts(front, costs, saltText, keyText);
    if Split(encoded) == parts {
      SplitJoins(encoded);
      SplitLeavesNoDollar(encoded);
      assert '$' !in parts[0] && '$' !in parts[3] && '$' !in parts[4] && '$' !in parts[5];
    }
    if IsHash(encoded, front, costs, saltText, keyText) {
      SplitUndoesJoined(parts);
    }
  }

  /** A text is read as a hash exactly when it is six parts of which the second says
      argon2id and the third the version 19, the fourth begins with costs within the
      ceilings, and the last two are Base64 of 1 to 1024 bytes. */
  lemma DecodesExactly(encoded: string, p: Params, salt: seq<Byte>, key: seq<Byte>)
    ensures Decode(encoded) == Some((p, salt, key))
       <==> exists front, costs, saltText, keyText ::
              IsHash(encoded, front, costs, saltText, keyText) && Holds(costs, saltText, keyText, p, salt, key)
  {
    ReadsItsParts(encoded, p, salt, key);
    if Decode(encoded) == Some((p, salt, key)) {
      var parts := Split(encoded);
      assert parts == [parts[0], "argon2id", "v=19", parts[3], parts[4], parts[5]];
      SplitsAsAHash(encoded, parts[0], parts[3], parts[4], parts[5]);
    }
    if front, costs, saltText, keyText :|
      IsHash(encoded, front, costs, saltText, keyText) && Holds(costs, saltText, keyText, p, salt, key)
    {
      SplitsAsAHash(encoded, front, costs, saltText, keyText);
    }
  }

  /** Hashes with different salts are different texts, so a fresh salt makes a
      hash that was never stored before. */
  lemma SaltsTellHashesApart(p: Params, salt: seq<Byte>, key: seq<Byte>, q: Params, other: seq<Byte>,
                             otherKey: seq<Byte>)
    requires Encode(p, salt, key) == Encode(q, other, otherKey)
    ensures salt == other && key == otherKey
  {
    EncodedSplits(p, salt, key);
    EncodedSplits(q, other, otherKey);
    Base64.DecodeUndoesEncode(salt);
    Base64.DecodeUndoesEncode(key);
    Base64.DecodeUndoesEncode(other);
    Base64.DecodeUndoesEncode(otherKey);
  }

  /** What a verification answers: whether the password matches and whether the
      hash was made with other parameters; or no hash, or nobody waiting. */
  datatype Verdict = Verdict(matches: bool, stale: bool) | NotAHash | GaveUp

  function KeyOf(argon: Argon, normalise: string -> seq<Byte>, p: Params, password: string, salt: seq<Byte>): seq<Byte>
  {
    argon(normalise(password), salt, p.time, p.memory, p.threads, p.keyLen)
  }

  /** Verify, by a hasher of some parameters, once it has a slot. */
  function VerdictOf(argon: Argon, normalise: string -> seq<Byte>, current: Params, password: string,
                     encoded: string): Verdict
  {
    match Decode(encoded)
    case None => NotAHash
    case Some((p, salt, key)) => Verdict(KeyOf(argon, normalise, p, password, salt) == key, p != current)
  }

  /** argon2id gives as many bytes as it is asked for. */
  ghost predicate GivesKeys(argon: Argon) {
    forall password: seq<Byte>, salt: seq<Byte>, time: nat, memory: nat, threads: nat, keyLen: nat ::
      |argon(password, salt, time, memory, threads, keyLen)| == keyLen
  }

  /** The parameters whose hashes a hasher reads back. */
  predicate WithinCeilings(p: Params) {
    CostsBounded(p.memory, p.time, p.threads) && 1 <= p.saltLen <= MAX_ENCODED && 1 <= p.keyLen <= MAX_ENCODED
  }

  /** A hash made with parameters p verifies with every hasher, for its password
      and for any other that gives the same key, exactly when p is within the
      ceilings of decode; and it is stale for the hashers of other parameters and
      no others. */
  lemma FreshHashVerifies(argon: Argon, normalise: string -> seq<Byte>, p: Params, current: Params,
                          password: string, typed: string, salt: seq<Byte>)
    requires GivesKeys(argon) && |salt| == p.saltLen
    ensures var key := argon(normalise(password), salt, p.time, p.memory, p.threads, p.keyLen);
            var typedKey := argon(normalise(typed), salt, p.time, p.memory, p.threads, p.keyLen);
            VerdictOf(argon, normalise, current, typed, Encode(p, salt, key))
            == if WithinCeilings(p) then Verdict(typedKey == key, p != current) else NotAHash
  {
    DecodeUndoesEncode(p, salt, KeyOf(argon, normalise, p, password, salt));
  }

  /** At most so many hashes at a time, each in a slot. */
  class Hasher {
    const params: Params
    const capacity: nat
    const argon: Argon
    const normalise: string -> seq<Byte>
    var slots: nat

    constructor (params: Params, capacity: nat, argon: Argon, normalise: string -> seq<Byte>)
      ensures Valid() && slots == 0
      ensures this.params == params && this.capacity == capacity && this.argon == argon && this.normalise == normalise
    {
      this.params, this.capacity, this.argon, this.normalise := params, capacity, argon, normalise;
      slots := 0;
    }

    predicate Valid()
      reads this
    {
      slots <= capacity
    }

    /** acquire: a caller that finds every slot taken gives up with its context;
        one that waits comes back when there is one. */
    method Acquire() returns (ok: bool)
      requires Valid()
      modifies this
      ensures Valid() && ok == (old(slots) < capacity) && slots == if ok then old(slots) + 1 else old(slots)
    {
      ok := slots < capacity;
      if ok {
        slots := slots + 1;
      }
    }

    method Release()
      requires Valid() && slots > 0
      modifies this
      ensures Valid() && slots == old(slots) - 1
    {
      slots := slots - 1;
    }

    /** Hash, with the salt that the random source gave. */
    method Hash(password: string, salt: seq<Byte>) returns (encoded: Option<string>)
      requires Valid() && |salt| == params.saltLen
      modifies this
      ensures slots == old(slots)
      ensures encoded == if old(slots) < capacity
                         then Some(Encode(params, salt, KeyOf(argon, normalise, params, password, salt))) else None
    {
      var ok := Acquire();
      if !ok {
        return None;
      }
      var key := argon(normalise(password), salt, params.time, params.memory, params.threads, params.keyLen);
      encoded := Some(Encode(params, salt, key));
      Release();
    }

    method Verify(password: string, encoded: string) returns (v: Verdict)
      requires Valid()
      modifies this
      ensures slots == old(slots)
      ensures v == if Decode(encoded).Some? && old(slots) == capacity then GaveUp
                   else VerdictOf(argon, normalise, params, password, encoded)
    {
      var read := Decode(encoded);
      if read.None? {
        return NotAHash;
      }
      var ok := Acquire();
      if !ok {
        return GaveUp;
      }
      var (p, salt, key) := read.value;
      var got := argon(normalise(password), salt, p.time, p.memory, p.threads, p.keyLen);
      v := Verdict(got == key, p != params);
      Release();
    }
  }
}
