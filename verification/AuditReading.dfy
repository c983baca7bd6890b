/** Reading a record back, erased or not (internal/platform/audit/open.go). */
module AuditReading {
  import opened Base
  import opened Bytes
  import opened Digest
  import opened PersonKeys
  import opened AuditTables

  /** A record with what could be opened opened, and what was erased told. */
  datatype Found = Found(actorId: Text, actorKind: Text, action: Text, subjectKind: Text, subjectId: Text,
                         from: Text, before: Text, after: Text, originErased: bool, stateErased: bool)

  /** open: a part's plain bytes, or that its key is gone. */
  function OpenPart(w: World, keys: Rows, user: Text, sealed: Text, made: Wrapped): (Rows, Outcome<seq<Byte>>) {
    var key := OpenKey(w.crypto, keys, user, made);
    match key.1
    case Erased => (key.0, Erased)
    case Failed => (key.0, Failed)
    case Ok(k) => (key.0, match Unsealed(w.crypto, k, sealed) case Some(plain) => Ok(plain) case None => Failed)
  }

  function OriginOf(w: World, keys: Rows, row: Row, made: Wrapped): (Rows, Outcome<(Text, bool)>) {
    if row.record.actorSecret == [] then (keys, Ok(([], false)))
    else
      var part := OpenPart(w, keys, row.actorKey, row.record.actorSecret, made);
      match part.1
      case Erased => (part.0, Ok(([], true)))
      case Failed => (part.0, Failed)
      case Ok(plain) => (part.0, match w.readOrigin(plain) case Some(from) => Ok((from, false)) case None => Failed)
  }

  function StateOf(w: World, keys: Rows, row: Row, made: Wrapped): (Rows, Outcome<(Text, Text, bool)>) {
    if row.record.subjectSecret == [] then (keys, Ok(([], [], false)))
    else
      var part := OpenPart(w, keys, row.subjectKey, row.record.subjectSecret, made);
      match part.1
      case Erased => (part.0, Ok(([], [], true)))
      case Failed => (part.0, Failed)
      case Ok(plain) =>
        (part.0, match w.readState(plain) case Some(s) => Ok((s.0, s.1, false)) case None => Failed)
  }

  /** Log.Open of a row. */
  function OpenRow(w: World, keys: Rows, row: Row, actorMade: Wrapped, subjectMade: Wrapped): (Rows, Outcome<Found>) {
    var origin := OriginOf(w, keys, row, actorMade);
    if !origin.1.Ok? then (keys, Failed)
    else
      var state := StateOf(w, origin.0, row, subjectMade);
      if !state.1.Ok? then (keys, Failed)
      else
        var r := row.record;
        (state.0, Ok(Found(r.actorId, r.actorKind, r.action, r.subjectKind, r.subjectId,
                           origin.1.value.0, state.1.value.0, state.1.value.1, origin.1.value.1, state.1.value.2)))
  }

  /** Whether JSON takes what an entry holds and can read what it made of it. */
  predicate Legible(w: World, e: Entry) {
    && (e.from != [] ==> w.originJson(e.from).Some? && w.readOrigin(w.originJson(e.from).value).Some?)
    && (Carries(e) ==> var state := w.stateJson(e.before, e.after);
                       state.Some? && w.readState(state.value).Some?)
  }

  /** An entry as JSON gives it back: it compacts and escapes a state, and writes an
      address that is no text in another way. */
  function Returned(w: World, e: Entry): Entry
    requires Legible(w, e)
  {
    var from := if e.from == [] then [] else w.readOrigin(w.originJson(e.from).value).value;
    var state := if !Carries(e) then (e.before, e.after) else w.readState(w.stateJson(e.before, e.after).value).value;
    e.(from := from, before := state.0, after := state.1)
  }

  /** A key that someone made is later the same key, or destroyed, and nothing
      else. */
  predicate SameOrGone(later: Rows, keys: Rows, user: Text) {
    user in keys ==> user in later && (later[user] == keys[user] || later[user] == Destroyed)
  }

  lemma SealKeeps(w: World, keys: Rows, other: Text, plain: Option<seq<Byte>>, carries: bool, made: Wrapped,
                  nonce: Nonce, user: Text)
    ensures SameOrGone(SealPart(w, keys, other, plain, carries, made, nonce).0, keys, user)
  {
  }

  lemma AppendKeepsKeys(w: World, t: Tables, e: Entry, at: Int64, g: Given, user: Text)
    ensures SameOrGone(Append(w, t, e, at, g).0.keys, t.keys, user)
  {
    var actor := SealPart(w, t.keys, ActorKey(e), w.originJson(e.from), e.from != [], g.actorMade, g.actorNonce);
    SealKeeps(w, t.keys, ActorKey(e), w.originJson(e.from), e.from != [], g.actorMade, g.actorNonce, user);
    SealKeeps(w, actor.0, KeyFor(e), w.stateJson(e.before, e.after), Carries(e), g.subjectMade, g.subjectNonce, user);
  }

  lemma {:induction false} KeysAreKept(w: World, t: Tables, ops: seq<Operation>, user: Text)
    ensures SameOrGone(PerformAll(w, t, ops).keys, t.keys, user)
  {
    if ops != [] {
      var before, op := PerformAll(w, t, ops[..|ops| - 1]), ops[|ops| - 1];
      KeysAreKept(w, t, ops[..|ops| - 1], user);
      if op.Commit? {
        AppendKeepsKeys(w, before, op.e, op.at, op.g, user);
      }
    }
  }

  /** A part sealed with the key that a row of user_key holds; no part when there
      was nothing to protect. */
  ghost predicate SealedWith(w: World, keys: Rows, user: Text, plain: Option<seq<Byte>>, carries: bool,
                             sealed: Text)
  {
    if !carries then sealed == []
    else
      && sealed != [] && plain.Some?
      && w.uuid(user).Some? && w.uuid(user).value in keys && keys[w.uuid(user).value].Live?
      && w.crypto.unwrap(keys[w.uuid(user).value].wrapped).Some?
      && Unsealed(w.crypto, w.crypto.unwrap(keys[w.uuid(user).value].wrapped).value, sealed) == plain
  }

  lemma SealSeals(w: World, keys: Rows, user: Text, plain: Option<seq<Byte>>, carries: bool, made: Wrapped,
                  nonce: Nonce)
    requires Seals(w.crypto) && SealPart(w, keys, user, plain, carries, made, nonce).1.Ok?
    ensures var s := SealPart(w, keys, user, plain, carries, made, nonce);
            SealedWith(w, s.0, user, plain, carries, s.1.value)
  {
    if carries {
      var key := OpenKey(w.crypto, keys, w.uuid(user).value, made).1.value;
      SealedUnseals(w.crypto, key, nonce, plain.value);
    }
  }

  lemma StillSealed(w: World, keys: Rows, later: Rows, user: Text, plain: Option<seq<Byte>>, carries: bool,
                    sealed: Text)
    requires SealedWith(w, keys, user, plain, carries, sealed)
    requires carries ==> later.Keys >= {w.uuid(user).value} && later[w.uuid(user).value] == keys[w.uuid(user).value]
    ensures SealedWith(w, later, user, plain, carries, sealed)
  {
  }

  /** Whether a part was written and its key has since been destroyed. */
  predicate Gone(w: World, keys: Rows, user: Text, carries: bool) {
    carries && w.uuid(user).Some? && w.uuid(user).value in keys && keys[w.uuid(user).value] == Destroyed
  }

  /** A part opens to what was sealed, or its key is gone and it says so; either
      way no key row changes. */
  lemma PartOpens(w: World, keys: Rows, later: Rows, user: Text, plain: Option<seq<Byte>>, carries: bool, sealed: Text,
                  made: Wrapped)
    requires SealedWith(w, keys, user, plain, carries, sealed) && carries
    requires SameOrGone(later, keys, w.uuid(user).value)
    ensures OpenPart(w, later, w.uuid(user).value, sealed, made)
            == (later, if Gone(w, later, user, carries) then Erased else Ok(plain.value))
  {
  }

  /** The row an append committed, as it was sealed. */
  lemma AppendSeals(w: World, t: Tables, e: Entry, at: Int64, g: Given) returns (chain: Text, row: Row)
    requires Seals(w.crypto) && Append(w, t, e, at, g).1.Ok?
    ensures var later := Append(w, t, e, at, g).0;
            && Grown(t, later, chain, row) && IsRowOf(w, e, at, HeadOf(t, chain), row)
            && SealedWith(w, later.keys, ActorKey(e), w.originJson(e.from), e.from != [], row.record.actorSecret)
            && SealedWith(w, later.keys, KeyFor(e), w.stateJson(e.before, e.after), Carries(e),
                          row.record.subjectSecret)
  {
    chain, row := AppendAddsARow(w, t, e, at, g);
    var later := Append(w, t, e, at, g).0;
    var origin, state := w.originJson(e.from), w.stateJson(e.before, e.after);
    var actor := SealPart(w, t.keys, ActorKey(e), origin, e.from != [], g.actorMade, g.actorNonce);
    SealSeals(w, t.keys, ActorKey(e), origin, e.from != [], g.actorMade, g.actorNonce);
    var subject := SealPart(w, actor.0, KeyFor(e), state, Carries(e), g.subjectMade, g.subjectNonce);
    SealSeals(w, actor.0, KeyFor(e), state, Carries(e), g.subjectMade, g.subjectNonce);
    assert row == later.log[chain][|LogOf(t, chain)|];
    StillSealed(w, actor.0, subject.0, ActorKey(e), origin, e.from != [], actor.1.value);
  }

  /** An entry with its origin or its state gone. */
  function Less(w: World, e: Entry, originGone: bool, stateGone: bool): Found
    requires Kept(w, e.actorId).Some? && Legible(w, e)
  {
    var read := Returned(w, e);
    Found(Kept(w, e.actorId).value, e.actorKind, e.action, e.subjectKind, e.subjectId,
          if originGone then [] else read.from,
          if stateGone then [] else read.before,
          if stateGone then [] else read.after,
          originGone, stateGone)
  }

  /** What an entry reads back as once some of its keys are gone. */
  function Remaining(w: World, e: Entry, keys: Rows): Found
    requires Kept(w, e.actorId).Some? && Legible(w, e)
  {
    Less(w, e, Gone(w, keys, ActorKey(e), e.from != []), Gone(w, keys, KeyFor(e), Carries(e)))
  }

  /** After any run, a record reads back as what was appended, as JSON gives it back,
      less exactly the parts whose person was erased since, which it names; and
      reading makes no key. */
  lemma OpenUndoesAppend(w: World, t: Tables, e: Entry, at: Int64, g: Given, ops: seq<Operation>, actorMade: Wrapped,
                         subjectMade: Wrapped)
    returns (chain: Text, row: Row)
    requires Seals(w.crypto) && Append(w, t, e, at, g).1.Ok? && Legible(w, e)
    ensures Grown(t, Append(w, t, e, at, g).0, chain, row) && Kept(w, e.actorId).Some?
    ensures var keys := PerformAll(w, Append(w, t, e, at, g).0, ops).keys;
            OpenRow(w, keys, row, actorMade, subjectMade) == (keys, Ok(Remaining(w, e, keys)))
  {
    chain, row := AppendSeals(w, t, e, at, g);
    var after := Append(w, t, e, at, g).0;
    var keys := PerformAll(w, after, ops).keys;
    if e.from != [] {
      KeysAreKept(w, after, ops, w.uuid(ActorKey(e)).value);
    }
    if Carries(e) {
      KeysAreKept(w, after, ops, w.uuid(KeyFor(e)).value);
    }
    RowOpens(w, after.keys, keys, e, at, HeadOf(t, chain), row, actorMade, subjectMade);
  }

  lemma RowOpens(w: World, sealing: Rows, keys: Rows, e: Entry, at: Int64, head: Head, row: Row, actorMade: Wrapped,
                 subjectMade: Wrapped)
    requires Legible(w, e) && IsRowOf(w, e, at, head, row)
    requires SealedWith(w, sealing, ActorKey(e), w.originJson(e.from), e.from != [], row.record.actorSecret)
    requires SealedWith(w, sealing, KeyFor(e), w.stateJson(e.before, e.after), Carries(e), row.record.subjectSecret)
    requires e.from != [] ==> SameOrGone(keys, sealing, w.uuid(ActorKey(e)).value)
    requires Carries(e) ==> SameOrGone(keys, sealing, w.uuid(KeyFor(e)).value)
    ensures OpenRow(w, keys, row, actorMade, subjectMade) == (keys, Ok(Remaining(w, e, keys)))
  {
    if e.from != [] {
      PartOpens(w, sealing, keys, ActorKey(e), w.originJson(e.from), true, row.record.actorSecret, actorMade);
    }
    assert OriginOf(w, keys, row, actorMade)
        == (keys, Ok((Remaining(w, e, keys).from, Remaining(w, e, keys).originErased)));
    if Carries(e) {
      PartOpens(w, sealing, keys, KeyFor(e), w.stateJson(e.before, e.after), true, row.record.subjectSecret,
                subjectMade);
    }
  }

  /** Right after an append, both keys that sealed are there. */
  lemma SealingKeysAreLive(w: World, t: Tables, e: Entry, at: Int64, g: Given)
    requires Seals(w.crypto) && Append(w, t, e, at, g).1.Ok?
    ensures var keys := Append(w, t, e, at, g).0.keys;
            !Gone(w, keys, ActorKey(e), e.from != []) && !Gone(w, keys, KeyFor(e), Carries(e))
    ensures e.from != [] ==> w.uuid(ActorKey(e)).Some? && w.uuid(ActorKey(e)).value in Append(w, t, e, at, g).0.keys
    ensures Carries(e) ==> w.uuid(KeyFor(e)).Some? && w.uuid(KeyFor(e)).value in Append(w, t, e, at, g).0.keys
  {
    var chain, row := AppendSeals(w, t, e, at, g);
  }

  /** Erasing somebody takes of a record exactly what is theirs: where it came from
      when they acted, and the state before and after when it is about them, or
      when they acted and it names nobody else. */
  lemma ErasureTakesExactlyTheirs(w: World, t: Tables, e: Entry, at: Int64, g: Given, user: Text,
                                  actorMade: Wrapped, subjectMade: Wrapped)
    returns (chain: Text, row: Row)
    requires Seals(w.crypto) && Append(w, t, e, at, g).1.Ok? && Legible(w, e)
    requires w.uuid(PLATFORM) == Some(PLATFORM) && user != PLATFORM
    ensures Grown(t, Append(w, t, e, at, g).0, chain, row) && Kept(w, e.actorId).Some?
    ensures var keys := Perform(w, Append(w, t, e, at, g).0, OnKeys(Forget(user))).keys;
            var about := if e.person != [] then e.person else e.actorId;
            var originGone := e.from != [] && e.actorId != [] && w.uuid(e.actorId) == Some(user);
            var stateGone := (e.before != [] || e.after != []) && about != [] && w.uuid(about) == Some(user);
            OpenRow(w, keys, row, actorMade, subjectMade) == (keys, Ok(Less(w, e, originGone, stateGone)))
  {
    var ops := [OnKeys(Forget(user))];
    var after := Append(w, t, e, at, g).0;
    assert ops[..0] == [] && PerformAll(w, after, []) == after;
    assert PerformAll(w, after, ops) == Perform(w, after, ops[0]);
    chain, row := OpenUndoesAppend(w, t, e, at, g, ops, actorMade, subjectMade);
    SealingKeysAreLive(w, t, e, at, g);
  }

  function AsText(b: seq<Byte>): Option<Text> { if |b| <= GCM_MOST then Some(b) else None }

  function BeforeOnly(b: seq<Byte>): Option<(Text, Text)> { if |b| <= GCM_MOST then Some((b, [])) else None }

  /** Entries are appended that all this speaks of: with a cipher that opens what it
      seals, JSON that is the text itself, and identifiers left as they are, any
      person's origin and state are. */
  lemma SomethingIsAppended(sha: Sha, key: Key, actor: Text, from: Text, before: Text)
    returns (w: World, e: Entry, g: Given)
    requires |key| == KEY_SIZE && actor != [] && |from| <= GCM_MOST && |before| <= GCM_MOST
    ensures w.sha == sha && Seals(w.crypto) && w.uuid(PLATFORM) == Some(PLATFORM)
    ensures Legible(w, e) && Returned(w, e) == e && e.actorId == actor && e.from == from && e.before == before
    ensures Append(w, EMPTY, e, 0, g).1.Ok?
  {
    var c := SomethingSeals(key);
    var origin: Text -> Option<seq<Byte>> := (text: Text) => Some(text);
    var state: (Text, Text) -> Option<seq<Byte>> := (b: Text, a: Text) => Some(b);
    var readOrigin: seq<Byte> -> Option<Text> := (b: seq<Byte>) => AsText(b);
    var readState: seq<Byte> -> Option<(Text, Text)> := (b: seq<Byte>) => BeforeOnly(b);
    w := World(sha, c, origin, state, readOrigin, readState, (id: Text) => Some(id));
    e := Entry([], actor, STAFF, STAFF, STAFF, [], [], from, before, []);
    var nonce: Nonce := seq(12, i => 0);
    g := Given([], [], nonce, nonce);
    assert SealPart(w, map[], ActorKey(e), w.originJson(e.from), e.from != [], [], nonce).1.Ok?;
    assert SealBoth(w, map[], e, g).1.Ok?;
  }

  /** And it is still there, where it was: nothing that runs changes a row. */
  lemma {:induction false} RowsStay(w: World, t: Tables, ops: seq<Operation>, chain: Text)
    ensures LogOf(t, chain) <= LogOf(PerformAll(w, t, ops), chain)
  {
    if ops != [] {
      var before, op := PerformAll(w, t, ops[..|ops| - 1]), ops[|ops| - 1];
      RowsStay(w, t, ops[..|ops| - 1], chain);
      if op.Commit? && Append(w, before, op.e, op.at, op.g).1.Ok? {
        var other, row := AppendAddsARow(w, before, op.e, op.at, op.g);
      } else if op.Commit? {
        FailedChangesNothing(w, before, op.e, op.at, op.g);
      }
    }
  }
}
