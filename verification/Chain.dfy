/** One chain of the audit log and what verifying it finds
    (internal/platform/audit/log.go). */
module Chain {
  import opened Base
  import opened Bytes
  import opened Digest

  /** What the first record of a chain is chained to. */
  const GENESIS: Hash :=
    [0, 0, 0, 0, 0, 0, 0, 0, 0, 0, 0, 0, 0, 0, 0, 0,
     0, 0, 0, 0, 0, 0, 0, 0, 0, 0, 0, 0, 0, 0, 0, 0]

  datatype Why = NotChained | HashDiffers

  /** A record whose hash does not follow from the one before it. */
  datatype Break = Break(marketplace: Text, sequence: Int64, why: Why)

  /** What a record is wrong about, given the hash of the one before it. */
  function Fault(sha: Sha, previous: Hash, r: Record): Option<Why> {
    if r.previousHash != previous then Some(NotChained)
    else if DigestOf(sha, previous, r) != r.hash then Some(HashDiffers)
    else None
  }

  /** The hash that the record at i has to follow: what the record before it
      says, and not what that one should have said. */
  function Previous(records: seq<Record>, i: nat): Hash
    requires i <= |records|
  {
    if i == 0 then GENESIS else records[i - 1].hash
  }

  predicate Broken(sha: Sha, records: seq<Record>, i: nat)
    requires i < |records|
  {
    Fault(sha, Previous(records, i), records[i]).Some?
  }

  /** The plain walk of the first n records: each one's break, in order. */
  function Breaks(sha: Sha, chain: Text, records: seq<Record>, n: nat): seq<Break>
    requires n <= |records|
  {
    if n == 0 then []
    else
      var fault := Fault(sha, Previous(records, n - 1), records[n - 1]);
      Breaks(sha, chain, records, n - 1)
      + if fault.Some? then [Break(chain, records[n - 1].sequence, fault.value)] else []
  }

  predicate SoundTo(sha: Sha, records: seq<Record>, n: nat)
    requires n <= |records|
  {
    forall i :: 0 <= i < n ==> !Broken(sha, records, i)
  }

  predicate Sound(sha: Sha, records: seq<Record>) { SoundTo(sha, records, |records|) }

  lemma FrontIsSame(sha: Sha, records: seq<Record>, k: nat)
    requires k <= |records|
    ensures forall i :: 0 <= i < k ==> Broken(sha, records[..k], i) == Broken(sha, records, i)
  {
  }

  lemma SoundFront(sha: Sha, records: seq<Record>)
    requires records != []
    ensures var last := |records| - 1;
            Sound(sha, records) <==> Sound(sha, records[..last]) && !Broken(sha, records, last)
  {
    var last := |records| - 1;
    var front := records[..last];
    FrontIsSame(sha, records, last);
    if Sound(sha, records) {
      forall i | 0 <= i < last ensures !Broken(sha, front, i) {
        assert !Broken(sha, records, i);
      }
    }
    if Sound(sha, front) && !Broken(sha, records, last) {
      forall i | 0 <= i < |records| ensures !Broken(sha, records, i) {
        if i < last {
          assert !Broken(sha, front, i);
        }
      }
    }
  }

  /** A walk finds nothing exactly when no record is broken. */
  lemma {:induction false} NoBreaksMeansSound(sha: Sha, chain: Text, records: seq<Record>, n: nat)
    requires n <= |records|
    ensures Breaks(sha, chain, records, n) == [] <==> SoundTo(sha, records, n)
  {
    if n > 0 {
      NoBreaksMeansSound(sha, chain, records, n - 1);
      assert SoundTo(sha, records, n) <==> SoundTo(sha, records, n - 1) && !Broken(sha, records, n - 1);
    }
  }

  /** A break of the record at i, as a walk reports it: it does not name the hash of the
      one before it, or it does and has another hash than that of its bytes. */
  ghost predicate Reports(sha: Sha, chain: Text, records: seq<Record>, i: nat, b: Break) {
    && i < |records| && b.sequence == records[i].sequence && b.marketplace == chain
    && var r, previous := records[i], if i == 0 then GENESIS else records[i - 1].hash;
       match b.why
       case NotChained => r.previousHash != previous
       case HashDiffers => r.previousHash == previous && r.hash != sha(Digested(previous, r))
  }

  /** What a walk reports is broken, */
  lemma {:induction false} ReportedIsBroken(sha: Sha, chain: Text, records: seq<Record>, n: nat, b: Break)
    returns (i: nat)
    requires n <= |records| && b in Breaks(sha, chain, records, n)
    ensures i < n && Reports(sha, chain, records, i, b)
  {
    if b in Breaks(sha, chain, records, n - 1) {
      i := ReportedIsBroken(sha, chain, records, n - 1, b);
    } else {
      i := n - 1;
    }
  }

  /** and what is broken is reported, with what it is wrong about. */
  lemma {:induction false} BrokenIsReported(sha: Sha, chain: Text, records: seq<Record>, n: nat, i: nat, b: Break)
    requires i < n <= |records| && Reports(sha, chain, records, i, b)
    ensures b in Breaks(sha, chain, records, n)
  {
    if i < n - 1 {
      BrokenIsReported(sha, chain, records, n - 1, i, b);
    } else {
      var rest := [Break(chain, records[i].sequence, b.why)];
      assert b == rest[0];
      assert Breaks(sha, chain, records, n) == Breaks(sha, chain, records, n - 1) + rest;
    }
  }

  // What an unbroken chain proves.

  /** The bytes that were hashed for the record at i. */
  function DigestedAt(records: seq<Record>, i: nat): seq<Byte>
    requires i < |records|
  {
    Digested(Previous(records, i), records[i])
  }

  /** The records at i of two chains, hashed each over its own predecessor, collide. */
  predicate CollideAt(sha: Sha, a: seq<Record>, b: seq<Record>, i: nat) {
    i < |a| && i < |b| && Collides(sha, DigestedAt(a, i), DigestedAt(b, i))
  }

  predicate SameAfter(a: seq<Record>, b: seq<Record>, i: nat)
    requires |a| == |b|
  {
    forall j :: i < j < |a| ==> a[j] == b[j]
  }

  lemma {:induction false} LastDifference(a: seq<Record>, b: seq<Record>) returns (i: nat)
    requires |a| == |b| && a != b
    ensures i < |a| && a[i] != b[i] && SameAfter(a, b, i)
  {
    i := |a| - 1;
    if a[i] == b[i] {
      assert a == a[..i] + [a[i]] && b == b[..i] + [b[i]];
      i := LastDifference(a[..|a| - 1], b[..|a| - 1]);
    }
  }

  /** Unbroken records that differ and are followed by the same, or by none but have
      one hash, are hashed from different bytes to one hash. */
  lemma DifferenceCollides(sha: Sha, a: seq<Record>, b: seq<Record>, i: nat)
    requires i < |a| == |b| && !Broken(sha, a, i) && !Broken(sha, b, i)
    ensures a[i] != b[i] && a[i].hash == b[i].hash <==> CollideAt(sha, a, b, i)
  {
    DigestedTellsApart(Previous(a, i), a[i], Previous(b, i), b[i]);
  }

  lemma SameNextSameHash(sha: Sha, a: seq<Record>, b: seq<Record>, i: nat)
    requires |a| == |b| && Sound(sha, a) && Sound(sha, b) && i + 1 < |a| && a[i + 1] == b[i + 1]
    ensures a[i].hash == b[i].hash
  {
    assert !Broken(sha, a, i + 1) && !Broken(sha, b, i + 1);
  }

  /** The last records in which two chains of one length differ collide. */
  ghost predicate LastCollide(sha: Sha, a: seq<Record>, b: seq<Record>)
    requires |a| == |b|
  {
    exists i: nat :: CollideAt(sha, a, b, i) && SameAfter(a, b, i)
  }

  lemma SameEndCollides(sha: Sha, a: seq<Record>, b: seq<Record>)
    requires |a| == |b| > 0 && Sound(sha, a) && Sound(sha, b)
    requires a[|a| - 1].hash == b[|b| - 1].hash && a != b
    ensures LastCollide(sha, a, b)
  {
    var i := LastDifference(a, b);
    if i < |a| - 1 {
      SameNextSameHash(sha, a, b, i);
    }
    assert !Broken(sha, a, i) && !Broken(sha, b, i);
    DifferenceCollides(sha, a, b, i);
  }

  lemma CollisionHasSameEnd(sha: Sha, a: seq<Record>, b: seq<Record>, i: nat)
    requires |a| == |b| > 0 && Sound(sha, a) && Sound(sha, b)
    requires CollideAt(sha, a, b, i) && SameAfter(a, b, i)
    ensures a[|a| - 1].hash == b[|b| - 1].hash
  {
    assert !Broken(sha, a, i) && !Broken(sha, b, i);
    DifferenceCollides(sha, a, b, i);
  }

  /** Two unbroken chains of one length end in one hash exactly when they are the
      same chain, record for record, or the last records in which they differ
      collide. */
  lemma SameEndSameChain(sha: Sha, a: seq<Record>, b: seq<Record>)
    requires |a| == |b| > 0 && Sound(sha, a) && Sound(sha, b)
    ensures a[|a| - 1].hash == b[|b| - 1].hash <==> a == b || LastCollide(sha, a, b)
  {
    if a[|a| - 1].hash == b[|b| - 1].hash && a != b {
      SameEndCollides(sha, a, b);
    }
    if LastCollide(sha, a, b) {
      var i: nat :| CollideAt(sha, a, b, i) && SameAfter(a, b, i);
      CollisionHasSameEnd(sha, a, b, i);
    }
  }

  predicate Numbered(records: seq<Record>) {
    forall i :: 0 <= i < |records| ==> records[i].sequence == i + 1
  }

  /** The last records of two chains, of whatever lengths, collide. */
  predicate EndsCollide(sha: Sha, a: seq<Record>, b: seq<Record>)
    requires a != [] && b != []
  {
    Collides(sha, DigestedAt(a, |a| - 1), DigestedAt(b, |b| - 1))
  }

  /** Numbered chains need not even be known to be of one length: their ends tell. */
  lemma SameEndSameNumberedChain(sha: Sha, a: seq<Record>, b: seq<Record>)
    requires a != [] && b != [] && Sound(sha, a) && Sound(sha, b) && Numbered(a) && Numbered(b)
    ensures a[|a| - 1].hash == b[|b| - 1].hash
       <==> a == b || EndsCollide(sha, a, b) || (|a| == |b| && LastCollide(sha, a, b))
  {
    assert !Broken(sha, a, |a| - 1) && !Broken(sha, b, |b| - 1);
    if |a| == |b| {
      SameEndSameChain(sha, a, b);
    } else {
      DigestedTellsApart(Previous(a, |a| - 1), a[|a| - 1], Previous(b, |b| - 1), b[|b| - 1]);
    }
  }

  // What damage does.

  /** b is a with what the row at i holds changed out of band, in any way. */
  predicate Damaged(a: seq<Record>, b: seq<Record>, i: nat) {
    i < |a| == |b| && a[i] != b[i] && forall j :: 0 <= j < |a| && j != i ==> a[j] == b[j]
  }

  /** One altered record is not a break in everything after it. */
  lemma DamageIsLocal(sha: Sha, a: seq<Record>, b: seq<Record>, i: nat)
    requires Sound(sha, a) && Damaged(a, b, i)
    ensures forall j :: 0 <= j < |b| && Broken(sha, b, j) ==> j == i || j == i + 1
  {
    forall j | 0 <= j < |b| && Broken(sha, b, j) ensures j == i || j == i + 1 {
      assert !Broken(sha, a, j);
    }
  }

  /** Whoever changed the record hashed it again over the record before it. */
  predicate HashedAgain(sha: Sha, b: seq<Record>, i: nat)
    requires i < |b|
  {
    b[i].previousHash == Previous(b, i) && b[i].hash == DigestOf(sha, Previous(b, i), b[i])
  }

  /** Damage goes unseen exactly when the record was hashed again and either was the
      last, since verification asks nothing of the hash a chain ends in, or
      collides with what it was. */
  lemma DamageIsSeen(sha: Sha, a: seq<Record>, b: seq<Record>, i: nat)
    requires Sound(sha, a) && Damaged(a, b, i)
    ensures Sound(sha, b) <==> HashedAgain(sha, b, i) && (i == |b| - 1 || CollideAt(sha, a, b, i))
  {
    DamageIsLocal(sha, a, b, i);
    assert !Broken(sha, a, i);
    assert !Broken(sha, b, i) <==> HashedAgain(sha, b, i);
    if !Broken(sha, b, i) {
      DifferenceCollides(sha, a, b, i);
    }
    if i + 1 < |b| {
      assert !Broken(sha, a, i + 1);
      assert !Broken(sha, b, i + 1) <==> b[i].hash == a[i].hash;
    }
  }

  /** Whether the record at i hashes to what the one before it does, or the first to
      the thirty-two zeros that a chain begins with. */
  predicate HashesLikeTheOneBefore(sha: Sha, a: seq<Record>, i: nat)
    requires i < |a|
  {
    if i == 0 then sha(DigestedAt(a, 0)) == GENESIS else Collides(sha, DigestedAt(a, i - 1), DigestedAt(a, i))
  }

  lemma NumbersTellApart(a: seq<Record>, i: nat)
    requires Numbered(a) && 0 < i < |a|
    ensures DigestedAt(a, i - 1) != DigestedAt(a, i)
  {
    DigestedTellsApart(Previous(a, i - 1), a[i - 1], Previous(a, i), a[i]);
  }

  /** A record taken out of a numbered chain is missed by the one after it, unless it
      hashed like the one before it; taken off its end it is not missed, nor are
      any number of them. */
  lemma RemovalIsSeen(sha: Sha, a: seq<Record>, i: nat)
    requires Sound(sha, a) && Numbered(a) && i < |a|
    ensures Sound(sha, a[..i] + a[i + 1..]) <==> i == |a| - 1 || HashesLikeTheOneBefore(sha, a, i)
  {
    var b := a[..i] + a[i + 1..];
    assert !Broken(sha, a, i);
    if i == |a| - 1 {
      TruncationIsUnseen(sha, a, i);
      assert b == a[..i];
    } else {
      if i > 0 {
        assert !Broken(sha, a, i - 1);
        NumbersTellApart(a, i);
      }
      assert HashesLikeTheOneBefore(sha, a, i) <==> a[i].hash == Previous(a, i);
      RemovalLeaves(sha, a, i);
    }
  }

  /** What is left is unbroken exactly when the next record follows on. */
  lemma RemovalLeaves(sha: Sha, a: seq<Record>, i: nat)
    requires Sound(sha, a) && i + 1 < |a|
    ensures Sound(sha, a[..i] + a[i + 1..]) <==> a[i].hash == Previous(a, i)
  {
    var b := a[..i] + a[i + 1..];
    assert !Broken(sha, a, i + 1);
    assert b[i] == a[i + 1] && Previous(b, i) == Previous(a, i);
    if Sound(sha, b) {
      assert !Broken(sha, b, i);
    }
    if a[i].hash == Previous(a, i) {
      forall j | 0 <= j < |b| ensures !Broken(sha, b, j) {
        if j < i {
          assert !Broken(sha, a, j);
        } else {
          assert !Broken(sha, a, j + 1);
        }
      }
    }
  }

  lemma TruncationIsUnseen(sha: Sha, a: seq<Record>, k: nat)
    requires Sound(sha, a) && k <= |a|
    ensures Sound(sha, a[..k])
  {
    forall i | 0 <= i < k ensures !Broken(sha, a[..k], i) {
      assert !Broken(sha, a, i);
    }
  }
}
