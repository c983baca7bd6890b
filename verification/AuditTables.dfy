/** The audit log's tables and what appending does to them
    (internal/platform/audit/log.go, audit.go). JSON, sealing, SHA-256 and the
    database's reading of an identifier are parameters. */
module AuditTables {
  import opened Base
  import opened Bytes
  import opened Digest
  import opened Chain
  import opened PersonKeys

  /** What the log computes with. uuid is how the database's uuid column reads a
      text and gives it back: in one spelling, or not at all. */
  datatype World = World(
    sha: Sha,
    crypto: Crypto,
    originJson: Text -> Option<seq<Byte>>,
    stateJson: (Text, Text) -> Option<seq<Byte>>,
    readOrigin: seq<Byte> -> Option<Text>,
    readState: seq<Byte> -> Option<(Text, Text)>,
    uuid: Text -> Option<Text>)

  /** "staff", "store", "buyer", "system". */
  const STAFF: Text := [115, 116, 97, 102, 102]
  const STORE: Text := [115, 116, 111, 114, 101]
  const BUYER: Text := [98, 117, 121, 101, 114]
  const SYSTEM: Text := [115, 121, 115, 116, 101, 109]

  /** One operation, as the caller describes it. */
  datatype Entry = Entry(
    marketplace: Text,
    actorId: Text,
    actorKind: Text,
    action: Text,
    subjectKind: Text,
    subjectId: Text,
    person: Text,
    from: Text,
    before: Text,
    after: Text)

  predicate ValidEntry(e: Entry) {
    e.action != [] && e.subjectKind != [] && e.actorKind != [] && (e.actorKind == SYSTEM || e.actorId != [])
  }

  /** The check the table makes of the kind. */
  predicate KnownKind(kind: Text) { kind == STAFF || kind == STORE || kind == BUYER || kind == SYSTEM }

  function KeyFor(e: Entry): Text {
    if e.person != [] then e.person else if e.actorId != [] then e.actorId else PLATFORM
  }

  function ActorKey(e: Entry): Text { if e.actorId != [] then e.actorId else PLATFORM }

  predicate Carries(e: Entry) { e.before != [] || e.after != [] }

  /** A row of audit_log with the keys that sealed its two parts. */
  datatype Row = Row(record: Record, actorKey: Text, subjectKey: Text)

  /** A row of audit_chain. */
  datatype Head = Head(last: Hash, length: nat)

  /** chains lists the heads in the order verification visits them. log holds
      each chain's rows in the order of their numbers, which no two share. */
  datatype Tables = Tables(keys: Rows, chains: seq<Text>, heads: map<Text, Head>, log: map<Text, seq<Row>>)

  const EMPTY := Tables(map[], [], map[], map[])

  function RecordsOf(rows: seq<Row>): (r: seq<Record>)
    ensures |r| == |rows|
    ensures forall i :: 0 <= i < |rows| ==> r[i] == rows[i].record
  {
    seq(|rows|, i requires 0 <= i < |rows| => rows[i].record)
  }

  /** What a new key would be made of, and the nonces. */
  datatype Given = Given(actorMade: Wrapped, subjectMade: Wrapped, actorNonce: Nonce, subjectNonce: Nonce)

  /** An identifier as its column keeps it; none at all is NULL and stays so. */
  function Kept(w: World, id: Text): Option<Text> { if id == [] then Some([]) else w.uuid(id) }

  /** seal, of what JSON made of a part, if anything: nothing when there is nothing
      to protect. */
  function SealPart(w: World, keys: Rows, user: Text, plain: Option<seq<Byte>>, carries: bool, made: Wrapped,
                    nonce: Nonce): (Rows, Outcome<Text>)
  {
    if !carries then (keys, Ok([]))
    else if plain.None? then (keys, Failed)
    else match w.uuid(user)
      case None => (keys, Failed)
      case Some(id) =>
        var key := OpenKey(w.crypto, keys, id, made);
        match key.1
        case Erased => (key.0, Erased)
        case Failed => (key.0, Failed)
        case Ok(k) =>
          match Sealed(w.crypto, k, nonce, plain.value)
          case Some(sealed) => (key.0, Ok(sealed))
          case None => (keys, Failed)
  }

  /** keyOf: whose key sealed a part, and nothing when there is no part. */
  function KeyOf(w: World, sealed: Text, user: Text): Text {
    if sealed == [] then [] else match w.uuid(user) case Some(id) => id case None => []
  }

  /** The head of a chain, which begins where it is first asked for. */
  function HeadOf(t: Tables, chain: Text): Head {
    if chain in t.heads then t.heads[chain] else Head(GENESIS, 0)
  }

  function LogOf(t: Tables, chain: Text): seq<Row> { if chain in t.log then t.log[chain] else [] }

  /** The row an entry becomes: its hash is over what the caller gave, the row
      holds what the columns keep. */
  function RowOf(w: World, e: Entry, at: Int64, head: Head, actorSecret: Text, subjectSecret: Text): (r: Row)
    requires head.length + 1 < 0x8000_0000_0000_0000 && Kept(w, e.marketplace).Some? && Kept(w, e.actorId).Some?
  {
    var given := Record(e.marketplace, head.length + 1, at, e.actorId, e.actorKind, e.action, e.subjectKind,
                        e.subjectId, actorSecret, subjectSecret, head.last, head.last);
    var hash := DigestOf(w.sha, head.last, given);
    Row(given.(marketplace := Kept(w, e.marketplace).value, actorId := Kept(w, e.actorId).value, hash := hash),
        KeyOf(w, actorSecret, ActorKey(e)), KeyOf(w, subjectSecret, KeyFor(e)))
  }

  /** Both parts sealed, or why not; what fails leaves no key behind. */
  function SealBoth(w: World, keys: Rows, e: Entry, g: Given): (Rows, Outcome<(Text, Text)>) {
    var actor := SealPart(w, keys, ActorKey(e), w.originJson(e.from), e.from != [], g.actorMade, g.actorNonce);
    if !actor.1.Ok? then (keys, if actor.1.Erased? then Erased else Failed)
    else
      var subject :=
        SealPart(w, actor.0, KeyFor(e), w.stateJson(e.before, e.after), Carries(e), g.subjectMade, g.subjectNonce);
      if !subject.1.Ok? then (keys, if subject.1.Erased? then Erased else Failed)
      else (subject.0, Ok((actor.1.value, subject.1.value)))
  }

  /** The record behind the head of its chain, and the head moved to it. */
  function Insert(w: World, t: Tables, e: Entry, at: Int64, actorSecret: Text,
                  subjectSecret: Text): (Tables, Outcome<()>)
  {
    if Kept(w, e.marketplace).None? || Kept(w, e.actorId).None? || !KnownKind(e.actorKind) then (t, Failed)
    else
      var chain := Kept(w, e.marketplace).value;
      var head := HeadOf(t, chain);
      if head.length + 1 >= 0x8000_0000_0000_0000 then (t, Failed)
      else
        var row := RowOf(w, e, at, head, actorSecret, subjectSecret);
        (Tables(t.keys,
                if chain in t.heads then t.chains else t.chains + [chain],
                t.heads[chain := Head(row.record.hash, head.length + 1)],
                t.log[chain := LogOf(t, chain) + [row]]),
         Ok(()))
  }

  /** Append. Anything that fails is rolled back whole with its operation. */
  function Append(w: World, t: Tables, e: Entry, at: Int64, g: Given): (Tables, Outcome<()>) {
    if !ValidEntry(e) then (t, Failed)
    else
      var secrets := SealBoth(w, t.keys, e, g);
      match secrets.1
      case Erased => (t, Erased)
      case Failed => (t, Failed)
      case Ok(both) =>
        var inserted := Insert(w, t, e, at, both.0, both.1);
        if inserted.1.Ok? then (inserted.0.(keys := secrets.0), Ok(())) else (t, Failed)
  }

  // What every append keeps.

  predicate Distinct(chains: seq<Text>) {
    forall i, j :: 0 <= i < j < |chains| ==> chains[i] != chains[j]
  }

  /** Each record names the hash of the one before it. */
  predicate Linked(records: seq<Record>) {
    forall i :: 0 <= i < |records| ==> records[i].previousHash == Previous(records, i)
  }

  /** A chain numbered from 1, linked, and headed by its last hash and length. */
  predicate Headed(records: seq<Record>, head: Head, chain: Text) {
    && Numbered(records) && Linked(records)
    && head.length == |records| && head.last == Previous(records, |records|)
    && forall i :: 0 <= i < |records| ==> records[i].marketplace == chain
  }

  /** Each chain once. */
  ghost predicate Lists(chains: seq<Text>, all: set<Text>) {
    Distinct(chains) && forall c :: c in chains <==> c in all
  }

  ghost predicate HeadsTell(t: Tables) {
    forall c :: c in t.heads ==> Headed(RecordsOf(LogOf(t, c)), t.heads[c], c)
  }

  ghost predicate Honest(t: Tables) {
    Lists(t.chains, t.heads.Keys) && t.log.Keys == t.heads.Keys && HeadsTell(t)
  }

  ghost predicate AllSound(sha: Sha, t: Tables) {
    forall c :: c in t.log ==> Sound(sha, RecordsOf(t.log[c]))
  }

  /** An entry whose identifiers are spelled as the database spells them. */
  predicate Canonical(w: World, e: Entry) {
    Kept(w, e.marketplace) == Some(e.marketplace) && Kept(w, e.actorId) == Some(e.actorId)
  }

  /** later is t with one more row, at the end of its chain. */
  ghost predicate Grown(t: Tables, later: Tables, chain: Text, row: Row) {
    var head := HeadOf(t, chain);
    && row.record.sequence == head.length + 1 && row.record.previousHash == head.last && row.record.marketplace == chain
    && later.log == t.log[chain := LogOf(t, chain) + [row]]
    && later.heads == t.heads[chain := Head(row.record.hash, head.length + 1)]
    && later.chains == (if chain in t.heads then t.chains else t.chains + [chain])
  }

  /** The row is what the entry becomes at a head. */
  ghost predicate IsRowOf(w: World, e: Entry, at: Int64, head: Head, row: Row) {
    && head.length + 1 < 0x8000_0000_0000_0000 && Kept(w, e.marketplace).Some? && Kept(w, e.actorId).Some?
    && row == RowOf(w, e, at, head, row.record.actorSecret, row.record.subjectSecret)
  }

  lemma AppendAddsARow(w: World, t: Tables, e: Entry, at: Int64, g: Given) returns (chain: Text, row: Row)
    requires Append(w, t, e, at, g).1.Ok?
    ensures Kept(w, e.marketplace) == Some(chain)
    ensures Grown(t, Append(w, t, e, at, g).0, chain, row)
    ensures IsRowOf(w, e, at, HeadOf(t, chain), row)
  {
    chain := Kept(w, e.marketplace).value;
    row := Append(w, t, e, at, g).0.log[chain][|LogOf(t, chain)|];
  }

  lemma HeadedGrows(records: seq<Record>, head: Head, chain: Text, r: Record)
    requires Headed(records, head, chain)
    requires r.sequence == head.length + 1 && r.previousHash == head.last && r.marketplace == chain
    ensures Headed(records + [r], Head(r.hash, head.length + 1), chain)
  {
    var later := records + [r];
    forall i | 0 <= i < |later| ensures later[i].previousHash == Previous(later, i) {
      if i < |records| {
        assert records[i].previousHash == Previous(records, i);
      }
    }
  }

  lemma OneMoreRecord(rows: seq<Row>, row: Row)
    ensures RecordsOf(rows + [row]) == RecordsOf(rows) + [row.record]
  {
  }

  lemma AnyHead(t: Tables, chain: Text)
    requires Honest(t)
    ensures Headed(RecordsOf(LogOf(t, chain)), HeadOf(t, chain), chain)
  {
    if chain !in t.heads {
      assert RecordsOf([]) == [];
    }
  }

  lemma ChainKeeps(t: Tables, later: Tables, chain: Text, row: Row)
    requires Honest(t) && Grown(t, later, chain, row)
    ensures Headed(RecordsOf(LogOf(later, chain)), later.heads[chain], chain)
  {
    AnyHead(t, chain);
    HeadedGrows(RecordsOf(LogOf(t, chain)), HeadOf(t, chain), chain, row.record);
    OneMoreRecord(LogOf(t, chain), row);
    assert LogOf(later, chain) == LogOf(t, chain) + [row];
  }

  lemma HeadsStillTell(t: Tables, later: Tables, chain: Text, row: Row)
    requires Honest(t) && Grown(t, later, chain, row)
    ensures HeadsTell(later)
  {
    ChainKeeps(t, later, chain, row);
    forall c | c in later.heads && c != chain ensures Headed(RecordsOf(LogOf(later, c)), later.heads[c], c) {
      assert Headed(RecordsOf(LogOf(t, c)), t.heads[c], c);
    }
  }

  lemma ListGrows(chains: seq<Text>, all: set<Text>, chain: Text)
    requires Lists(chains, all)
    ensures Lists(if chain in all then chains else chains + [chain], all + {chain})
  {
    if chain !in all {
      var more := chains + [chain];
      forall i, j | 0 <= i < j < |more| ensures more[i] != more[j] {
        if j == |chains| {
          assert chains[i] in chains;
        }
      }
    } else {
      assert all + {chain} == all;
    }
  }

  lemma GrowthKeeps(t: Tables, later: Tables, chain: Text, row: Row)
    requires Honest(t) && Grown(t, later, chain, row)
    ensures Honest(later)
  {
    assert later.heads.Keys == t.heads.Keys + {chain} && later.log.Keys == t.log.Keys + {chain};
    assert Lists(later.chains, later.heads.Keys) by {
      ListGrows(t.chains, t.heads.Keys, chain);
    }
    assert HeadsTell(later) by {
      HeadsStillTell(t, later, chain, row);
    }
  }

  /** The record as the caller spelled it, whose bytes were hashed. */
  function AsGiven(e: Entry, r: Record): Record { r.(marketplace := e.marketplace, actorId := e.actorId) }

  /** A record in two spellings, behind one head, collides with itself. */
  predicate SpellingsCollide(w: World, e: Entry, head: Head, r: Record) {
    Collides(w.sha, Digested(head.last, AsGiven(e, r)), Digested(head.last, r))
  }

  lemma RowVerifies(w: World, e: Entry, at: Int64, head: Head, row: Row)
    requires IsRowOf(w, e, at, head, row)
    ensures Fault(w.sha, head.last, row.record).None? <==> Canonical(w, e) || SpellingsCollide(w, e, head, row.record)
  {
    var given := AsGiven(e, row.record).(hash := head.last);
    assert row.record.hash == DigestOf(w.sha, head.last, given);
    DigestedTellsApart(head.last, given, head.last, AsGiven(e, row.record));
    DigestIsInjective(w.sha, head.last, AsGiven(e, row.record), head.last, row.record);
  }

  /** A chain with one more record. */
  lemma ChainGrows(sha: Sha, rows: seq<Row>, row: Row)
    ensures Sound(sha, RecordsOf(rows + [row]))
       <==> Sound(sha, RecordsOf(rows)) && Fault(sha, Previous(RecordsOf(rows), |rows|), row.record).None?
  {
    var records, more := RecordsOf(rows), RecordsOf(rows) + [row.record];
    OneMoreRecord(rows, row);
    assert more[..|more| - 1] == records;
    SoundFront(sha, more);
  }

  lemma GrowthVerifies(sha: Sha, t: Tables, later: Tables, chain: Text, row: Row)
    requires Honest(t) && Grown(t, later, chain, row)
    ensures AllSound(sha, later) <==> AllSound(sha, t) && Fault(sha, HeadOf(t, chain).last, row.record).None?
  {
    AnyHead(t, chain);
    ChainGrows(sha, LogOf(t, chain), row);
    OtherChainsStay(sha, t, later, chain, row);
    assert later.log[chain] == LogOf(t, chain) + [row];
    assert chain !in t.log ==> RecordsOf(LogOf(t, chain)) == [];
  }

  /** Soundness, chain by chain. */
  lemma OtherChainsStay(sha: Sha, t: Tables, later: Tables, chain: Text, row: Row)
    requires Grown(t, later, chain, row)
    ensures AllSound(sha, later)
       <==> Sound(sha, RecordsOf(later.log[chain]))
            && forall c :: c in t.log && c != chain ==> Sound(sha, RecordsOf(t.log[c]))
  {
    assert later.log.Keys == t.log.Keys + {chain};
    assert forall c :: c in t.log && c != chain ==> later.log[c] == t.log[c];
    if AllSound(sha, later) {
      forall c | c in t.log && c != chain ensures Sound(sha, RecordsOf(t.log[c])) {
        assert Sound(sha, RecordsOf(later.log[c]));
      }
    }
  }

  /** Whether what an append adds verifies: its identifiers are spelled as the
      database spells them, or the two spellings of the record added collide. */
  predicate Verifies(w: World, t: Tables, e: Entry, at: Int64, g: Given)
    requires Append(w, t, e, at, g).1.Ok?
  {
    var chain := Kept(w, e.marketplace).value;
    var row := Append(w, t, e, at, g).0.log[chain][|LogOf(t, chain)|];
    Canonical(w, e) || SpellingsCollide(w, e, HeadOf(t, chain), row.record)
  }

  /** Every append keeps every chain numbered, linked and headed, whether it
      commits or not. And what it appends verifies exactly when the identifiers
      were spelled as the database spells them, or the two spellings collide: the
      hash is over the caller's, and verification reads the column's. */
  lemma AppendKeeps(w: World, t: Tables, e: Entry, at: Int64, g: Given)
    requires Honest(t)
    ensures Honest(Append(w, t, e, at, g).0)
    ensures AllSound(w.sha, Append(w, t, e, at, g).0)
       <==> AllSound(w.sha, t) && (Append(w, t, e, at, g).1.Ok? ==> Verifies(w, t, e, at, g))
  {
    if Append(w, t, e, at, g).1.Ok? {
      var chain, row := AppendAddsARow(w, t, e, at, g);
      OneMoreKeeps(w, t, Append(w, t, e, at, g).0, e, at, chain, row);
    } else {
      FailedChangesNothing(w, t, e, at, g);
    }
  }

  lemma FailedChangesNothing(w: World, t: Tables, e: Entry, at: Int64, g: Given)
    requires !Append(w, t, e, at, g).1.Ok?
    ensures Append(w, t, e, at, g).0 == t
  {
  }

  lemma OneMoreKeeps(w: World, t: Tables, later: Tables, e: Entry, at: Int64, chain: Text, row: Row)
    requires Honest(t) && Grown(t, later, chain, row) && IsRowOf(w, e, at, HeadOf(t, chain), row)
    ensures Honest(later)
    ensures AllSound(w.sha, later)
       <==> AllSound(w.sha, t) && (Canonical(w, e) || SpellingsCollide(w, e, HeadOf(t, chain), row.record))
  {
    GrowthKeeps(t, later, chain, row);
    RowVerifies(w, e, at, HeadOf(t, chain), row);
    GrowthVerifies(w.sha, t, later, chain, row);
  }

  // When an append commits, and what.

  /** Whether somebody's part can be sealed: there is nothing of theirs, or JSON takes it
      and their identifier and key are there to be had. */
  predicate CanSeal(w: World, keys: Rows, user: Text, plain: Option<seq<Byte>>, carries: bool, made: Wrapped) {
    carries ==> && plain.Some? && |plain.value| <= 68_719_476_704 && w.uuid(user).Some?
                && var id := w.uuid(user).value;
                   && !IsErased(keys, id)
                   && var key := w.crypto.unwrap(WrappedFor(keys, id, made)); key.Some? && |key.value| == 32
  }

  lemma PartSealsExactly(w: World, keys: Rows, user: Text, plain: Option<seq<Byte>>, carries: bool, made: Wrapped,
                         nonce: Nonce)
    ensures SealPart(w, keys, user, plain, carries, made, nonce).1.Ok?
       <==> CanSeal(w, keys, user, plain, carries, made)
  {
  }

  /** What an entry has to say: an action, what of, and by whom, of a kind that is known;
      only the system acts without an identifier. */
  predicate Complete(e: Entry) {
    e.action != [] && e.subjectKind != [] && e.actorKind in {STAFF, STORE, BUYER, SYSTEM}
    && (e.actorId == [] ==> e.actorKind == SYSTEM)
  }

  /** The keys after the first part of an append was sealed. */
  function KeysAfterActor(w: World, t: Tables, e: Entry, g: Given): Rows {
    if e.from != [] && w.uuid(ActorKey(e)).Some? && w.uuid(ActorKey(e)).value !in t.keys
    then t.keys[w.uuid(ActorKey(e)).value := Live(g.actorMade)] else t.keys
  }

  /** An append commits exactly when the entry is complete, its identifiers are some to
      the database, the chain is short of 2^63 - 1 records, and both parts can be sealed,
      the second with the key that the first may have made. */
  lemma AppendsExactly(w: World, t: Tables, e: Entry, at: Int64, g: Given)
    ensures Append(w, t, e, at, g).1.Ok?
       <==> && Complete(e) && Kept(w, e.marketplace).Some? && Kept(w, e.actorId).Some?
            && HeadOf(t, Kept(w, e.marketplace).value).length < 0x7FFF_FFFF_FFFF_FFFF
            && CanSeal(w, t.keys, ActorKey(e), w.originJson(e.from), e.from != [], g.actorMade)
            && CanSeal(w, KeysAfterActor(w, t, e, g), KeyFor(e), w.stateJson(e.before, e.after), Carries(e),
                       g.subjectMade)
  {
    PartSealsExactly(w, t.keys, ActorKey(e), w.originJson(e.from), e.from != [], g.actorMade, g.actorNonce);
    PartSealsExactly(w, KeysAfterActor(w, t, e, g), KeyFor(e), w.stateJson(e.before, e.after), Carries(e),
                     g.subjectMade,
                     g.subjectNonce);
    ActorsKeysAre(w, t, e, g);
  }

  lemma ActorsKeysAre(w: World, t: Tables, e: Entry, g: Given)
    ensures var actor :=
      SealPart(w, t.keys, ActorKey(e), w.originJson(e.from), e.from != [], g.actorMade, g.actorNonce);
            actor.1.Ok? ==> actor.0 == KeysAfterActor(w, t, e, g)
  {
  }

  /** What commits says what the caller said, where and when, behind the head of its
      chain, and is hashed as the caller spelled it. */
  lemma AppendsTheEntry(w: World, t: Tables, e: Entry, at: Int64, g: Given) returns (row: Row)
    requires Append(w, t, e, at, g).1.Ok?
    ensures var chain, head := Kept(w, e.marketplace).value, HeadOf(t, Kept(w, e.marketplace).value);
            var r := row.record;
            && LogOf(Append(w, t, e, at, g).0, chain) == LogOf(t, chain) + [row]
            && r.marketplace == chain && r.sequence == head.length + 1 && r.recordedAt == at
            && Some(r.actorId) == Kept(w, e.actorId) && r.actorKind == e.actorKind && r.action == e.action
            && r.subjectKind == e.subjectKind && r.subjectId == e.subjectId && r.previousHash == head.last
            && r.hash == w.sha(Digested(head.last, AsGiven(e, r)))
  {
    var chain;
    chain, row := AppendAddsARow(w, t, e, at, g);
    var given := AsGiven(e, row.record).(hash := HeadOf(t, chain).last);
    DigestedTellsApart(HeadOf(t, chain).last, given, HeadOf(t, chain).last, AsGiven(e, row.record));
  }

  // Runs.

  /** One operation with its record, committed or rolled back, or a transaction on
      the keys alone. */
  datatype Operation =
    | Commit(e: Entry, at: Int64, g: Given)
    | Abort(e: Entry, at: Int64, g: Given)
    | OnKeys(step: Step)

  function Perform(w: World, t: Tables, op: Operation): Tables {
    match op
    case Commit(e, at, g) => Append(w, t, e, at, g).0
    case Abort(_, _, _) => t
    case OnKeys(step) => t.(keys := PersonKeys.Apply(w.crypto, t.keys, step))
  }

  function PerformAll(w: World, t: Tables, ops: seq<Operation>): Tables {
    if ops == [] then t else Perform(w, PerformAll(w, t, ops[..|ops| - 1]), ops[|ops| - 1])
  }

  /** What an operation appends, if it appends, verifies. */
  predicate StepVerifies(w: World, t: Tables, op: Operation) {
    op.Commit? && Append(w, t, op.e, op.at, op.g).1.Ok? ==> Verifies(w, t, op.e, op.at, op.g)
  }

  predicate AllVerify(w: World, ops: seq<Operation>) {
    ops == [] || (AllVerify(w, ops[..|ops| - 1])
                  && StepVerifies(w, PerformAll(w, EMPTY, ops[..|ops| - 1]), ops[|ops| - 1]))
  }

  lemma {:induction false} VerifiesSoFar(w: World, ops: seq<Operation>, n: nat)
    requires n <= |ops| && AllVerify(w, ops)
    ensures AllVerify(w, ops[..n])
  {
    if n < |ops| {
      VerifiesSoFar(w, ops[..|ops| - 1], n);
      assert ops[..|ops| - 1][..n] == ops[..n];
    } else {
      assert ops[..n] == ops;
    }
  }

  lemma PerformKeeps(w: World, t: Tables, op: Operation)
    requires Honest(t)
    ensures Honest(Perform(w, t, op))
    ensures AllSound(w.sha, Perform(w, t, op)) <==> AllSound(w.sha, t) && StepVerifies(w, t, op)
  {
    match op
    case Commit(e, at, g) => AppendKeeps(w, t, e, at, g);
    case Abort(_, _, _) =>
    case OnKeys(step) => KeysAreApart(w.sha, t, PersonKeys.Apply(w.crypto, t.keys, step));
  }

  lemma KeysAreApart(sha: Sha, t: Tables, keys: Rows)
    ensures Honest(t) ==> Honest(t.(keys := keys))
    ensures AllSound(sha, t) <==> AllSound(sha, t.(keys := keys))
  {
    assert forall c :: LogOf(t.(keys := keys), c) == LogOf(t, c);
  }

  /** Over any run of operations in any marketplaces, whatever was rolled back and
      whoever's key was destroyed, every chain is numbered 1 to n, linked, and
      headed by its last hash and its length; and none has a break exactly when
      every record committed was in the database's spelling, or collides with
      itself in that spelling. */
  lemma {:induction false} EveryRunIsHonest(w: World, ops: seq<Operation>)
    ensures Honest(PerformAll(w, EMPTY, ops))
    ensures AllSound(w.sha, PerformAll(w, EMPTY, ops)) <==> AllVerify(w, ops)
  {
    if ops != [] {
      EveryRunIsHonest(w, ops[..|ops| - 1]);
      PerformKeeps(w, PerformAll(w, EMPTY, ops[..|ops| - 1]), ops[|ops| - 1]);
    } else {
      assert Honest(EMPTY);
    }
  }

  /** Erasing a person changes no record and no head: whatever verification found,
      it finds again. */
  lemma ErasureKeepsTheLog(w: World, t: Tables, user: Text)
    ensures var later := Perform(w, t, OnKeys(Forget(user)));
            later.log == t.log && later.heads == t.heads && later.chains == t.chains
  {
  }

  /** Nothing more is recorded that would need an erased person's key, and it says so
      of whatever JSON takes; what carries nothing of theirs still is, as far as keys
      go. */
  lemma ErasedStopsAppends(w: World, t: Tables, e: Entry, at: Int64, g: Given)
    requires ValidEntry(e) && w.uuid(ActorKey(e)).Some? && w.uuid(KeyFor(e)).Some?
    ensures var actor, person := w.uuid(ActorKey(e)).value, w.uuid(KeyFor(e)).value;
            && (e.from != [] && actor in t.keys && t.keys[actor] == Destroyed
                ==> Append(w, t, e, at, g) == (t, if w.originJson(e.from).Some? then Erased else Failed))
            && (e.from == [] && Carries(e) && person in t.keys && t.keys[person] == Destroyed
                ==> Append(w, t, e, at, g) == (t, if w.stateJson(e.before, e.after).Some? then Erased else Failed))
            && (e.from == [] && !Carries(e) ==> Append(w, t, e, at, g).1 != Erased)
  {
  }
}
