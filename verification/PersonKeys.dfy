/** One data key per person, made on first use and erased by destroying it
    (internal/platform/audit/keys.go, seal.go). What a keeper and AES-GCM
    compute are parameters. */
module PersonKeys {
  import opened Base
  import opened Bytes
  import opened Digest

  type Key = seq<Byte>
  type Wrapped = seq<Byte>

  /** The platform's own key: 00000000-0000-0000-0000-000000000000. */
  const PLATFORM: Text :=
    [48, 48, 48, 48, 48, 48, 48, 48, 45, 48, 48, 48, 48, 45, 48, 48, 48, 48, 45, 48, 48, 48, 48, 45,
     48, 48, 48, 48, 48, 48, 48, 48, 48, 48, 48, 48]

  const KEY_SIZE: nat := 32

  type Nonce = n: seq<Byte> | |n| == 12 witness seq(12, i => 0)

  /** The longest text that AES-GCM takes: 2^32 - 2 blocks. */
  const GCM_MOST: nat := 0xFFFF_FFFE * 16

  /** The keeper's unwrapping, and AES-GCM with a key and a nonce it takes. */
  datatype Crypto = Crypto(
    unwrap: Wrapped -> Option<Key>,
    seal: (Key, Nonce, seq<Byte>) -> Text,
    unseal: (Key, seq<Byte>) -> Option<seq<Byte>>)

  predicate Takes(key: Key, plain: seq<Byte>) { |key| == KEY_SIZE && |plain| <= GCM_MOST }

  /** keys.Seal: nothing for a key of another size, or for a text too long, at which
      the cipher panics and the transaction ends. */
  function Sealed(c: Crypto, key: Key, nonce: Nonce, plain: seq<Byte>): Option<Text> {
    if Takes(key, plain) then Some(c.seal(key, nonce, plain)) else None
  }

  /** keys.Open: nothing for a key of another size, or for what is too short to hold
      a nonce, or for what the cipher refuses. */
  function Unsealed(c: Crypto, key: Key, sealed: seq<Byte>): Option<seq<Byte>> {
    if |key| != KEY_SIZE || |sealed| < 12 then None else c.unseal(key, sealed)
  }

  /** What was sealed with a key opens with it, and is the nonce and the tag longer. */
  ghost predicate Seals(c: Crypto) {
    forall key: Key, nonce: Nonce, plain: seq<Byte> :: Takes(key, plain) ==>
      |c.seal(key, nonce, plain)| == |plain| + 28 && c.unseal(key, c.seal(key, nonce, plain)) == Some(plain)
  }

  /** A cipher that hides nothing: the nonce, the text, and a tag of sixteen zeros. */
  function Bare(nonce: Nonce, plain: seq<Byte>): Text {
    if |plain| <= GCM_MOST then nonce + plain + seq(16, i => 0) else []
  }

  function Bared(sealed: seq<Byte>): Option<seq<Byte>> {
    if |sealed| < 28 then None else Some(sealed[12..|sealed| - 16])
  }

  /** That is enough: what is asked of a cipher can be met. */
  lemma SomethingSeals(key: Key) returns (c: Crypto)
    ensures Seals(c) && forall wrapped: Wrapped :: c.unwrap(wrapped) == Some(key)
  {
    c := Crypto((wrapped: Wrapped) => Some(key),
                (k: Key, nonce: Nonce, plain: seq<Byte>) => Bare(nonce, plain),
                (k: Key, sealed: seq<Byte>) => Bared(sealed));
    forall k: Key, nonce: Nonce, plain: seq<Byte> | Takes(k, plain)
      ensures |c.seal(k, nonce, plain)| == |plain| + 28 && c.unseal(k, c.seal(k, nonce, plain)) == Some(plain)
    {
      assert Bare(nonce, plain)[12..|plain| + 12] == plain;
    }
  }

  /** A row of user_key: a key is there or was destroyed, and never both. */
  datatype KeyRow = Live(wrapped: Wrapped) | Destroyed

  type Rows = map<Text, KeyRow>

  /** An answer, the person's key destroyed, or another error. */
  datatype Outcome<+T> = Ok(value: T) | Erased | Failed

  function Unwrapped(c: Crypto, wrapped: Wrapped): Outcome<Key> {
    match c.unwrap(wrapped) case Some(key) => Ok(key) case None => Failed
  }

  /** open, with what the keeper would make of a new key. A transaction that
      fails leaves no row behind. */
  function OpenKey(c: Crypto, rows: Rows, user: Text, made: Wrapped): (Rows, Outcome<Key>) {
    if user in rows then
      match rows[user]
      case Destroyed => (rows, Erased)
      case Live(wrapped) => (rows, Unwrapped(c, wrapped))
    else if c.unwrap(made).None? then (rows, Failed)
    else (rows[user := Live(made)], Unwrapped(c, made))
  }

  predicate Personal(person: Text) { person != [] && person != PLATFORM }

  function SealFor(c: Crypto, rows: Rows, person: Text, made: Wrapped, nonce: Nonce,
                   plain: seq<Byte>): (Rows, Outcome<Text>)
  {
    if !Personal(person) then (rows, Failed)
    else
      var key := OpenKey(c, rows, person, made);
      match key.1
      case Erased => (key.0, Erased)
      case Failed => (key.0, Failed)
      case Ok(k) =>
        match Sealed(c, k, nonce, plain)
        case Some(sealed) => (key.0, Ok(sealed))
        case None => (rows, Failed)
  }

  function OpenFor(c: Crypto, rows: Rows, person: Text, made: Wrapped, sealed: seq<Byte>): (Rows, Outcome<seq<Byte>>) {
    if !Personal(person) then (rows, Failed)
    else
      var key := OpenKey(c, rows, person, made);
      match key.1
      case Erased => (key.0, Erased)
      case Failed => (key.0, Failed)
      case Ok(k) =>
        match Unsealed(c, k, sealed)
        case Some(plain) => (key.0, Ok(plain))
        case None => (rows, Failed)
  }

  function Destroy(rows: Rows, user: Text): (Rows, Outcome<()>) {
    if user == PLATFORM then (rows, Failed)
    else if user in rows then (rows[user := Destroyed], Ok(()))
    else (rows, Ok(()))
  }

  /** The wrapped key that a person's data is sealed with: their row's, or a new one. */
  function WrappedFor(rows: Rows, person: Text, made: Wrapped): Wrapped {
    if person in rows && rows[person].Live? then rows[person].wrapped else made
  }

  predicate IsErased(rows: Rows, person: Text) { person in rows && rows[person] == Destroyed }

  /** Whether a key of thirty-two bytes is to be had for somebody who is a person. */
  predicate HasKey(c: Crypto, rows: Rows, person: Text, made: Wrapped) {
    && person != [] && person != PLATFORM && !IsErased(rows, person)
    && var key := c.unwrap(WrappedFor(rows, person, made)); key.Some? && |key.value| == 32
  }

  /** Sealing for a person seals with their one key, made now if they have none, what
      AES-GCM takes of up to 64 GiB less two blocks; it says that the key is gone exactly
      of who was erased, and fails otherwise, leaving no key behind. */
  lemma SealsExactly(c: Crypto, rows: Rows, person: Text, made: Wrapped, nonce: Nonce, plain: seq<Byte>)
    ensures var (after, r) := SealFor(c, rows, person, made, nonce, plain);
            && (r.Ok? <==> HasKey(c, rows, person, made) && |plain| <= 68_719_476_704)
            && (r.Erased? <==> person != [] && person != PLATFORM && IsErased(rows, person))
            && (r.Ok? ==> r.value == c.seal(c.unwrap(WrappedFor(rows, person, made)).value, nonce, plain))
            && after == if r.Ok? && person !in rows then rows[person := Live(made)] else rows
  {
  }

  /** Opening likewise opens with their one key what is long enough to hold a nonce. */
  lemma OpensExactly(c: Crypto, rows: Rows, person: Text, made: Wrapped, sealed: seq<Byte>)
    ensures var (after, r) := OpenFor(c, rows, person, made, sealed);
            var key := c.unwrap(WrappedFor(rows, person, made));
            && (r.Ok? <==> HasKey(c, rows, person, made) && |sealed| >= 12 && c.unseal(key.value, sealed).Some?)
            && (r.Erased? <==> person != [] && person != PLATFORM && IsErased(rows, person))
            && (r.Ok? ==> Some(r.value) == c.unseal(key.value, sealed))
            && after == if r.Ok? && person !in rows then rows[person := Live(made)] else rows
  {
  }

  /** A transaction that touches the keys: one that opens a person's, or one that
      destroys it. */
  datatype Step = Use(user: Text, made: Wrapped) | Forget(user: Text)

  function Apply(c: Crypto, rows: Rows, step: Step): Rows {
    match step
    case Use(user, made) => OpenKey(c, rows, user, made).0
    case Forget(user) => Destroy(rows, user).0
  }

  function Execute(c: Crypto, rows: Rows, run: seq<Step>): Rows {
    if run == [] then rows else Apply(c, Execute(c, rows, run[..|run| - 1]), run[|run| - 1])
  }

  /** Once destroyed, for good: no run makes a second key. */
  lemma {:induction false} DestroyedForGood(c: Crypto, rows: Rows, user: Text, run: seq<Step>)
    requires user in rows && rows[user] == Destroyed
    ensures var later := Execute(c, rows, run); user in later && later[user] == Destroyed
  {
    if run != [] {
      DestroyedForGood(c, rows, user, run[..|run| - 1]);
    }
  }

  /** A key nobody destroys stays the key it was, whoever else's is destroyed and
      however many writers race to make it; the platform's own whatever is asked. */
  lemma {:induction false} KeyStays(c: Crypto, rows: Rows, user: Text, run: seq<Step>)
    requires user in rows && (user == PLATFORM || forall i :: 0 <= i < |run| ==> run[i] != Forget(user))
    ensures var later := Execute(c, rows, run); user in later && later[user] == rows[user]
  {
    if run != [] {
      KeyStays(c, rows, user, run[..|run| - 1]);
    }
  }

  /** After a person's existing key is destroyed, everything that would seal or
      open for them says so, and changes nothing. */
  lemma ErasedIsErased(c: Crypto, rows: Rows, person: Text, run: seq<Step>, made: Wrapped, nonce: Nonce,
                       plain: seq<Byte>, sealed: seq<Byte>)
    requires person in rows && Personal(person)
    ensures var later := Execute(c, Destroy(rows, person).0, run);
            && SealFor(c, later, person, made, nonce, plain) == (later, Erased)
            && OpenFor(c, later, person, made, sealed) == (later, Erased)
  {
    DestroyedForGood(c, Destroy(rows, person).0, person, run);
  }

  /** What was sealed for a person opens to what it was, after any run in which
      nobody destroyed their key. */
  lemma SealedOpens(c: Crypto, rows: Rows, person: Text, made: Wrapped, nonce: Nonce, plain: seq<Byte>,
                    run: seq<Step>, later: Wrapped)
    requires Seals(c) && forall i :: 0 <= i < |run| ==> run[i] != Forget(person)
    requires SealFor(c, rows, person, made, nonce, plain).1.Ok?
    ensures var s := SealFor(c, rows, person, made, nonce, plain);
            OpenFor(c, Execute(c, s.0, run), person, later, s.1.value).1 == Ok(plain)
  {
    var s := SealFor(c, rows, person, made, nonce, plain);
    var wrapped := SealedByRow(c, rows, person, made, nonce, plain);
    KeyStays(c, s.0, person, run);
    OpensWhatRowSealed(c, Execute(c, s.0, run), person, wrapped, nonce, plain, later);
  }

  /** The key that sealed is the row's. */
  lemma SealedByRow(c: Crypto, rows: Rows, person: Text, made: Wrapped, nonce: Nonce, plain: seq<Byte>)
    returns (wrapped: Wrapped)
    requires SealFor(c, rows, person, made, nonce, plain).1.Ok?
    ensures Personal(person)
    ensures var s := SealFor(c, rows, person, made, nonce, plain);
            && person in s.0 && s.0[person] == Live(wrapped) && c.unwrap(wrapped).Some?
            && Sealed(c, c.unwrap(wrapped).value, nonce, plain) == Some(s.1.value)
  {
    wrapped := if person in rows && rows[person].Live? then rows[person].wrapped else made;
  }

  lemma OpensWhatRowSealed(c: Crypto, rows: Rows, person: Text, wrapped: Wrapped, nonce: Nonce, plain: seq<Byte>,
                           made: Wrapped)
    requires Seals(c) && Personal(person) && person in rows && rows[person] == Live(wrapped) && c.unwrap(wrapped).Some?
    requires Sealed(c, c.unwrap(wrapped).value, nonce, plain).Some?
    ensures OpenFor(c, rows, person, made, Sealed(c, c.unwrap(wrapped).value, nonce, plain).value).1 == Ok(plain)
  {
    SealedUnseals(c, c.unwrap(wrapped).value, nonce, plain);
  }

  lemma SealedUnseals(c: Crypto, key: Key, nonce: Nonce, plain: seq<Byte>)
    requires Seals(c) && Sealed(c, key, nonce, plain).Some?
    ensures Sealed(c, key, nonce, plain).value != []
    ensures Unsealed(c, key, Sealed(c, key, nonce, plain).value) == Some(plain)
  {
    assert Takes(key, plain) && |c.seal(key, nonce, plain)| == |plain| + 28;
  }

  /** Destroying takes only when there is a key: a person who has none yet gets
      one at the next use, as if nothing had been asked. */
  lemma DestroySticksIfThereIsAKey(c: Crypto, rows: Rows, person: Text, made: Wrapped, run: seq<Step>)
    requires Personal(person) && c.unwrap(made).Some?
    ensures var destroyed := Destroy(rows, person);
            && destroyed.1 == Ok(())
            && (OpenKey(c, destroyed.0, person, made).1 == Erased <==> person in rows)
            && (person !in rows ==> OpenKey(c, destroyed.0, person, made).1.Ok?)
            && (person in rows ==> OpenKey(c, Execute(c, destroyed.0, run), person, made).1 == Erased)
  {
    if person in rows {
      DestroyedForGood(c, Destroy(rows, person).0, person, run);
    }
  }

  /** A row that another transaction committed between the read and the insert of
      a writer that found none. */
  function Earlier(rows: Rows, user: Text, raced: Option<KeyRow>): Rows {
    if user !in rows && raced.Some? then rows[user := raced.value] else rows
  }

  class KeyTable {
    const c: Crypto
    var rows: Rows

    constructor (c: Crypto)
      ensures this.c == c && rows == map[]
    {
      this.c, rows := c, map[];
    }

    method Read(user: Text) returns (r: Option<Outcome<Wrapped>>)
      ensures r == if user !in rows then None
                   else Some(match rows[user] case Destroyed => Erased case Live(wrapped) => Ok(wrapped))
    {
      if user !in rows {
        return None;
      }
      match rows[user]
      case Destroyed => return Some(Erased);
      case Live(wrapped) => return Some(Ok(wrapped));
    }

    /** create: the writer that loses the race reads the winner's key. */
    method Create(user: Text, made: Wrapped, raced: Option<KeyRow>) returns (r: Outcome<Wrapped>)
      requires user !in rows
      modifies this
      ensures rows == if raced.Some? then old(rows)[user := raced.value] else old(rows)[user := Live(made)]
      ensures r == if raced.None? then Ok(made)
                   else match raced.value case Destroyed => Erased case Live(wrapped) => Ok(wrapped)
    {
      if raced.Some? {
        rows := rows[user := raced.value];
      }
      if user !in rows {
        rows := rows[user := Live(made)];
        return Ok(made);
      }
      var found := Read(user);
      return found.value;
    }

    /** open: losing a race is as if the winner had committed before. */
    method Open(user: Text, made: Wrapped, raced: Option<KeyRow>) returns (r: Outcome<Key>)
      modifies this
      ensures (rows, r) == OpenKey(c, Earlier(old(rows), user, raced), user, made)
    {
      var kept := Earlier(rows, user, raced);
      var found := Read(user);
      var wrapped: Outcome<Wrapped>;
      if found.None? {
        wrapped := Create(user, made, raced);
      } else {
        wrapped := found.value;
      }
      if !wrapped.Ok? {
        return Erased;
      }
      r := Unwrapped(c, wrapped.value);
      if r.Failed? {
        rows := kept;
      }
    }

    method Forget(user: Text) returns (r: Outcome<()>)
      modifies this
      ensures (rows, r) == Destroy(old(rows), user)
    {
      if user == PLATFORM {
        return Failed;
      }
      if user in rows && rows[user].Live? {
        rows := rows[user := Destroyed];
      } else {
        assert user in rows ==> rows[user := Destroyed] == rows;
      }
      return Ok(());
    }

    method Seal(person: Text, made: Wrapped, raced: Option<KeyRow>, nonce: Nonce, plain: seq<Byte>)
      returns (r: Outcome<Text>)
      modifies this
      ensures Personal(person)
              ==> (rows, r) == SealFor(c, Earlier(old(rows), person, raced), person, made, nonce, plain)
      ensures !Personal(person) ==> rows == old(rows) && r == Failed
    {
      if !Personal(person) {
        return Failed;
      }
      var kept := Earlier(rows, person, raced);
      var key := Open(person, made, raced);
      match key
      case Erased => return Erased;
      case Failed => return Failed;
      case Ok(k) =>
        var sealed := Sealed(c, k, nonce, plain);
        if sealed.None? {
          rows := kept;
          return Failed;
        }
        return Ok(sealed.value);
    }

    /** OpenFor; a failure to decrypt rolls back a key it made. */
    method Unseal(person: Text, made: Wrapped, raced: Option<KeyRow>, sealed: seq<Byte>) returns (r: Outcome<seq<Byte>>)
      modifies this
      ensures Personal(person) ==> (rows, r) == OpenFor(c, Earlier(old(rows), person, raced), person, made, sealed)
      ensures !Personal(person) ==> rows == old(rows) && r == Failed
    {
      if !Personal(person) {
        return Failed;
      }
      var kept := Earlier(rows, person, raced);
      var key := Open(person, made, raced);
      match key
      case Erased => return Erased;
      case Failed => return Failed;
      case Ok(k) =>
        var plain := Unsealed(c, k, sealed);
        if plain.None? {
          rows := kept;
          return Failed;
        }
        return Ok(plain.value);
    }
  }
}
