/** What a record's hash covers (internal/platform/audit/audit.go): every field
    with its length in front of it, so that no two records write the same bytes. */
module Digest {
  import opened Bytes

  /** A Go byte slice or string: its length fits the eight bytes written for it. */
  type Text = s: seq<Byte> | |s| < 0x1_0000_0000_0000_0000

  type Int64 = n: int | -0x8000_0000_0000_0000 <= n < 0x8000_0000_0000_0000

  /** A digest of SHA-256, thirty-two bytes. */
  type Hash = h: seq<Byte> | |h| == 32 witness seq(32, i => 0)

  type Sha = seq<Byte> -> Hash

  /** These two texts differ and have one hash. There are such pairs for any
      function to thirty-two bytes; SHA-256 is trusted to keep anyone from finding
      one, and every result names the pair that would have been found. */
  predicate Collides(sha: Sha, x: seq<Byte>, y: seq<Byte>) { x != y && sha(x) == sha(y) }

  /** A row of audit_log; a part that is absent is empty. The moment is in
      microseconds, which is what the database keeps. */
  datatype Record = Record(
    marketplace: Text,
    sequence: Int64,
    recordedAt: Int64,
    actorId: Text,
    actorKind: Text,
    action: Text,
    subjectKind: Text,
    subjectId: Text,
    actorSecret: Text,
    subjectSecret: Text,
    previousHash: Hash,
    hash: Hash)

  /** What is written to the running hash: bytes behind their length, or a signed
      number in eight bytes. */
  datatype Part = Bytes(value: Text) | Signed(number: Int64)

  /** The two's complement of a signed number, as binary.Write writes an int64. */
  function Unsigned(n: Int64): (u: nat)
    ensures u < 0x1_0000_0000_0000_0000
  {
    if n >= 0 then n else n + 0x1_0000_0000_0000_0000
  }

  function Written(part: Part): (b: seq<Byte>)
    ensures |b| >= 8
  {
    match part
    case Bytes(value) => BigEndian(|value|, 8) + value
    case Signed(number) => BigEndian(Unsigned(number), 8)
  }

  function Encoding(parts: seq<Part>): seq<Byte> {
    if parts == [] then [] else Written(parts[0]) + Encoding(parts[1..])
  }

  /** What the chain covers: everything but the two hashes of the row itself, and
      the hash of the record before it. */
  function Covered(previous: Hash, r: Record): (parts: seq<Part>)
    ensures |parts| == 11
  {
    [Bytes(previous), Bytes(r.marketplace), Signed(r.sequence), Signed(r.recordedAt), Bytes(r.actorId),
     Bytes(r.actorKind), Bytes(r.action), Bytes(r.subjectKind), Bytes(r.subjectId), Bytes(r.actorSecret),
     Bytes(r.subjectSecret)]
  }

  /** The bytes that are hashed. */
  function Digested(previous: Hash, r: Record): seq<Byte> { Encoding(Covered(previous, r)) }

  function DigestOf(sha: Sha, previous: Hash, r: Record): Hash { sha(Digested(previous, r)) }

  lemma Regrouped(a: seq<Byte>, b: seq<Byte>, c: seq<Byte>)
    ensures a + (b + c) == (a + b) + c
  {
  }

  lemma OneMorePart(parts: seq<Part>, last: Part)
    requires parts != []
    ensures (parts + [last])[0] == parts[0] && (parts + [last])[1..] == parts[1..] + [last]
  {
  }

  lemma {:induction false} EncodingAppends(parts: seq<Part>, last: Part)
    ensures Encoding(parts + [last]) == Encoding(parts) + Written(last)
  {
    if parts == [] {
      assert parts + [last] == [last] && [last][1..] == [];
      assert Encoding([last]) == Written(last) + [];
    } else {
      OneMorePart(parts, last);
      EncodingAppends(parts[1..], last);
      Regrouped(Written(parts[0]), Encoding(parts[1..]), Written(last));
    }
  }

  /** write, in digest: the length and then the value, after the parts done. */
  method Write(sum: seq<Byte>, value: Text, ghost done: seq<Part>)
    returns (written: seq<Byte>, ghost further: seq<Part>)
    requires sum == Encoding(done)
    ensures further == done + [Bytes(value)] && written == Encoding(further)
  {
    var length := BigEndian(|value|, 8);
    written := sum + length;
    written := written + value;
    further := done + [Bytes(value)];
    EncodingAppends(done, Bytes(value));
  }

  /** number, in digest. */
  method WriteNumber(sum: seq<Byte>, value: Int64, ghost done: seq<Part>)
    returns (written: seq<Byte>, ghost further: seq<Part>)
    requires sum == Encoding(done)
    ensures further == done + [Signed(value)] && written == Encoding(further)
  {
    written := sum + BigEndian(Unsigned(value), 8);
    further := done + [Signed(value)];
    EncodingAppends(done, Signed(value));
  }

  /** The first half of digest: whose chain, where in it and when, and who acted. */
  method WriteFront(previous: Hash, r: Record) returns (sum: seq<Byte>, ghost done: seq<Part>)
    ensures done == [Bytes(previous), Bytes(r.marketplace), Signed(r.sequence), Signed(r.recordedAt),
                     Bytes(r.actorId), Bytes(r.actorKind)]
    ensures sum == Encoding(done)
  {
    sum, done := [], [];
    sum, done := Write(sum, previous, done);
    sum, done := Write(sum, r.marketplace, done);
    sum, done := WriteNumber(sum, r.sequence, done);
    sum, done := WriteNumber(sum, r.recordedAt, done);
    sum, done := Write(sum, r.actorId, done);
    sum, done := Write(sum, r.actorKind, done);
  }

  /** digest, as it writes field by field into a running hash. */
  method Digest(sha: Sha, previous: Hash, r: Record) returns (h: Hash)
    ensures h == DigestOf(sha, previous, r)
  {
    var sum;
    ghost var done;
    sum, done := WriteFront(previous, r);
    sum, done := Write(sum, r.action, done);
    sum, done := Write(sum, r.subjectKind, done);
    sum, done := Write(sum, r.subjectId, done);
    sum, done := Write(sum, r.actorSecret, done);
    sum, done := Write(sum, r.subjectSecret, done);
    assert done == Covered(previous, r);
    h := sha(sum);
  }

  // The layout of what is hashed.

  /** Bytes behind their length, in eight bytes. */
  function Field(value: Text): seq<Byte> { EightBytes(|value|) + value }

  lemma FieldIsWritten(value: Text)
    ensures Written(Bytes(value)) == Field(value)
  {
    EightBytesWrite(|value|, 8);
  }

  /** A signed number in eight bytes, in two's complement. */
  function SignedField(n: Int64): seq<Byte> { EightBytes(if n >= 0 then n else n + 0x1_0000_0000_0000_0000) }

  lemma SignedFieldIsWritten(n: Int64)
    ensures Written(Signed(n)) == SignedField(n)
  {
    EightBytesWrite(if n >= 0 then n else n + 0x1_0000_0000_0000_0000, 8);
  }

  lemma EncodingFrom(parts: seq<Part>, k: nat)
    requires k < |parts|
    ensures Encoding(parts[k..]) == Written(parts[k]) + Encoding(parts[k + 1..])
  {
    assert parts[k..][0] == parts[k] && parts[k..][1..] == parts[k + 1..];
  }

  lemma LastFields(previous: Hash, r: Record)
    ensures Encoding(Covered(previous, r)[6..])
            == Field(r.action) + (Field(r.subjectKind)
               + (Field(r.subjectId) + (Field(r.actorSecret) + (Field(r.subjectSecret) + []))))
  {
    var parts := Covered(previous, r);
    EncodingFrom(parts, 6);
    EncodingFrom(parts, 7);
    EncodingFrom(parts, 8);
    EncodingFrom(parts, 9);
    EncodingFrom(parts, 10);
    assert parts[11..] == [];
    FieldIsWritten(r.action);
    FieldIsWritten(r.subjectKind);
    FieldIsWritten(r.subjectId);
    FieldIsWritten(r.actorSecret);
    FieldIsWritten(r.subjectSecret);
  }

  /** The hash before it, whose chain, where in it, when, who, what and of what, and the
      two sealed parts, in this order: each text behind its length, each number in eight
      bytes. */
  lemma DigestedInOrder(previous: Hash, r: Record)
    ensures Digested(previous, r)
            == Field(previous) + (Field(r.marketplace) + (SignedField(r.sequence) + (SignedField(r.recordedAt)
               + (Field(r.actorId) + (Field(r.actorKind) + (Field(r.action) + (Field(r.subjectKind)
               + (Field(r.subjectId) + (Field(r.actorSecret) + (Field(r.subjectSecret) + []))))))))))
  {
    var parts := Covered(previous, r);
    assert parts[0..] == parts;
    EncodingFrom(parts, 0);
    EncodingFrom(parts, 1);
    EncodingFrom(parts, 2);
    EncodingFrom(parts, 3);
    EncodingFrom(parts, 4);
    EncodingFrom(parts, 5);
    FieldIsWritten(previous);
    FieldIsWritten(r.marketplace);
    SignedFieldIsWritten(r.sequence);
    SignedFieldIsWritten(r.recordedAt);
    FieldIsWritten(r.actorId);
    FieldIsWritten(r.actorKind);
    LastFields(previous, r);
  }

  // Nothing is lost.

  lemma EightBytesHold()
    ensures Pow256(8) == 0x1_0000_0000_0000_0000
  {
    assert Pow256(2) == 0x1_0000;
    assert Pow256(4) == 0x1_0000_0000 by { assert Pow256(3) == 0x100_0000; }
    assert Pow256(6) == 0x1_0000_0000_0000 by { assert Pow256(5) == 0x100_0000_0000; }
    assert Pow256(7) == 0x100_0000_0000_0000;
  }

  lemma EightBytesDiffer(m: nat, n: nat)
    requires m < 0x1_0000_0000_0000_0000 && n < 0x1_0000_0000_0000_0000
    requires BigEndian(m, 8) == BigEndian(n, 8)
    ensures m == n
  {
    EightBytesHold();
    NumberOfBigEndian(m, 8);
    NumberOfBigEndian(n, 8);
  }

  /** One part can be read off the front: its bytes say where it ends. */
  lemma PartReadsBack(p: Part, q: Part, restP: seq<Byte>, restQ: seq<Byte>)
    requires p.Bytes? <==> q.Bytes?
    requires Written(p) + restP == Written(q) + restQ
    ensures p == q && restP == restQ
  {
    var wp, wq := Written(p) + restP, Written(q) + restQ;
    match p
    case Signed(m) =>
      assert wp[..8] == BigEndian(Unsigned(m), 8);
      assert wq[..8] == BigEndian(Unsigned(q.number), 8);
      EightBytesDiffer(Unsigned(m), Unsigned(q.number));
      assert wp[8..] == restP && wq[8..] == restQ;
    case Bytes(v) =>
      assert wp[..8] == BigEndian(|v|, 8);
      assert wq[..8] == BigEndian(|q.value|, 8);
      EightBytesDiffer(|v|, |q.value|);
      assert wp[8..8 + |v|] == v && wq[8..8 + |v|] == q.value;
      assert wp[8 + |v|..] == restP && wq[8 + |v|..] == restQ;
  }

  predicate SameShape(ps: seq<Part>, qs: seq<Part>) {
    |ps| == |qs| && forall i :: 0 <= i < |ps| ==> (ps[i].Bytes? <==> qs[i].Bytes?)
  }

  lemma {:induction false} EncodingReadsBack(ps: seq<Part>, qs: seq<Part>)
    requires SameShape(ps, qs) && Encoding(ps) == Encoding(qs)
    ensures ps == qs
  {
    if ps != [] {
      PartReadsBack(ps[0], qs[0], Encoding(ps[1..]), Encoding(qs[1..]));
      EncodingReadsBack(ps[1..], qs[1..]);
      assert ps == [ps[0]] + ps[1..] && qs == [qs[0]] + qs[1..];
    }
  }

  /** The same digested fields: all but the two hashes of the row itself. */
  predicate SameContent(r: Record, s: Record) {
    r == s.(previousHash := r.previousHash, hash := r.hash)
  }

  /** The same bytes are hashed for the same digested fields behind the same hash,
      and for no others. */
  lemma DigestedTellsApart(p: Hash, r: Record, q: Hash, s: Record)
    ensures Digested(p, r) == Digested(q, s) <==> p == q && SameContent(r, s)
  {
    var ps, qs := Covered(p, r), Covered(q, s);
    if Digested(p, r) == Digested(q, s) {
      EncodingReadsBack(ps, qs);
      assert forall i :: 0 <= i < 11 ==> ps[i] == qs[i];
      assert ps[0].value == qs[0].value && ps[1].value == qs[1].value && ps[2].number == qs[2].number;
      assert ps[3].number == qs[3].number && ps[4].value == qs[4].value && ps[5].value == qs[5].value;
      assert ps[6].value == qs[6].value && ps[7].value == qs[7].value && ps[8].value == qs[8].value;
      assert ps[9].value == qs[9].value && ps[10].value == qs[10].value;
    }
  }

  /** Two records hash alike exactly when they are chained to the same hash and hold
      the same in every digested field, or the bytes of just these two collide. */
  lemma DigestIsInjective(sha: Sha, p: Hash, r: Record, q: Hash, s: Record)
    ensures DigestOf(sha, p, r) == DigestOf(sha, q, s)
       <==> (p == q && SameContent(r, s)) || Collides(sha, Digested(p, r), Digested(q, s))
  {
    DigestedTellsApart(p, r, q, s);
  }
}
