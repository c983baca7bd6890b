/** Appending to the audit log and verifying it, as they run
    (internal/platform/audit/log.go). */
module AuditLog {
  import opened Base
  import opened Bytes
  import opened Digest
  import opened Chain
  import opened PersonKeys
  import opened AuditTables
  import opened AuditReading

  // Verification reads a chain page by page.

  /** Rows in the order of their numbers, which start at 1 or later. */
  predicate InOrder(records: seq<Record>) {
    && (forall i :: 0 <= i < |records| ==> records[i].sequence > 0)
    && (forall i, j :: 0 <= i < j < |records| ==> records[i].sequence < records[j].sequence)
  }

  function Beyond(records: seq<Record>, after: int): seq<Record> {
    if records == [] then []
    else (if records[0].sequence > after then [records[0]] else []) + Beyond(records[1..], after)
  }

  /** audit_records: the next records of a chain in the order of their numbers. */
  function Page(records: seq<Record>, after: int, take: nat): seq<Record> {
    var beyond := Beyond(records, after);
    if |beyond| <= take then beyond else beyond[..take]
  }

  lemma {:induction false} AllBeyond(records: seq<Record>, after: int)
    requires forall i :: 0 <= i < |records| ==> records[i].sequence > after
    ensures Beyond(records, after) == records
  {
    if records != [] {
      AllBeyond(records[1..], after);
    }
  }

  lemma {:induction false} BeyondIsTheRest(records: seq<Record>, k: nat, after: int)
    requires k <= |records|
    requires forall i :: 0 <= i < k ==> records[i].sequence <= after
    requires forall i :: k <= i < |records| ==> records[i].sequence > after
    ensures Beyond(records, after) == records[k..]
  {
    if k == 0 {
      AllBeyond(records, after);
    } else {
      BeyondIsTheRest(records[1..], k - 1, after);
    }
  }

  /** Whether after is the number of the last of the first k records. */
  predicate IsAfter(records: seq<Record>, k: nat, after: int) {
    k <= |records| && after == if k == 0 then 0 else records[k - 1].sequence as int
  }

  /** records: after the first k, the next page is the ones that follow them. */
  method NextPage(records: seq<Record>, after: int, take: nat, ghost k: nat) returns (page: seq<Record>)
    requires InOrder(records) && IsAfter(records, k, after)
    ensures |page| == if k + take <= |records| then take else |records| - k
    ensures forall i :: 0 <= i < |page| ==> page[i] == records[k + i]
  {
    page := Page(records, after, take);
    BeyondIsTheRest(records, k, after);
  }

  /** Where a walk stands after the first k records: what the next is held
      against, the number it has to be after, and the breaks so far. */
  ghost predicate Walked(sha: Sha, chain: Text, records: seq<Record>, k: nat, previous: Hash, after: int,
                         found: seq<Break>) {
    IsAfter(records, k, after) && previous == Previous(records, k) && found == Breaks(sha, chain, records, k)
  }

  lemma OneMoreWalked(sha: Sha, chain: Text, records: seq<Record>, k: nat, previous: Hash, after: int,
                      found: seq<Break>)
    requires k < |records| && Walked(sha, chain, records, k, previous, after, found)
    ensures var fault, r := Fault(sha, previous, records[k]), records[k];
            var more := if fault.Some? then [Break(chain, r.sequence, fault.value)] else [];
            Walked(sha, chain, records, k + 1, r.hash, r.sequence as int, found + more)
  {
  }

  // Each page is read in a transaction of its own, and records are appended in
  // between.

  /** The log as the reads of a verification find it, one after the other: chains
      begin, and their rows stay where they are. */
  ghost predicate Grows(states: seq<map<Text, seq<Row>>>) {
    && states != []
    && (forall i, j, c :: 0 <= i <= j < |states| && c in states[i] ==> c in states[j] && states[i][c] <= states[j][c])
  }

  /** What the read with number k finds: once the states are over, nothing more is
      appended. */
  function ReadAt(states: seq<map<Text, seq<Row>>>, k: nat): map<Text, seq<Row>>
    requires states != []
  {
    states[if k < |states| then k else |states| - 1]
  }

  /** The log when all the reads are over. */
  function AtLast(states: seq<map<Text, seq<Row>>>): map<Text, seq<Row>>
    requires states != []
  {
    states[|states| - 1]
  }

  /** A chain that was there from the first read on, numbered as it should be. */
  ghost predicate Readable(states: seq<map<Text, seq<Row>>>, chain: Text) {
    Grows(states) && chain in states[0] && chain in AtLast(states) && InOrder(RecordsOf(AtLast(states)[chain]))
  }

  lemma ReadsAreFronts(states: seq<map<Text, seq<Row>>>, chain: Text, j: nat, k: nat)
    requires Readable(states, chain) && j <= k
    ensures chain in ReadAt(states, j) && chain in ReadAt(states, k)
    ensures ReadAt(states, j)[chain] <= ReadAt(states, k)[chain] <= AtLast(states)[chain]
  {
    var a := if j < |states| then j else |states| - 1;
    var b := if k < |states| then k else |states| - 1;
    assert chain in states[a] && states[a][chain] <= states[b][chain];
    assert states[b][chain] <= states[|states| - 1][chain];
  }

  /** How many records of a chain there are at a read. */
  ghost function LengthAt(states: seq<map<Text, seq<Row>>>, chain: Text, k: nat): nat
    requires Readable(states, chain)
  {
    ReadsAreFronts(states, chain, k, k);
    |ReadAt(states, k)[chain]|
  }

  lemma LengthsGrow(states: seq<map<Text, seq<Row>>>, chain: Text, j: nat, k: nat)
    requires Readable(states, chain) && j <= k
    ensures LengthAt(states, chain, j) <= LengthAt(states, chain, k) <= |AtLast(states)[chain]|
  {
    ReadsAreFronts(states, chain, j, k);
  }

  lemma FrontsAreRead(rows: seq<Row>, whole: seq<Row>, k: nat, after: int)
    requires rows <= whole && InOrder(RecordsOf(whole)) && k <= |rows| && IsAfter(RecordsOf(whole), k, after)
    ensures InOrder(RecordsOf(rows)) && IsAfter(RecordsOf(rows), k, after)
    ensures forall i :: 0 <= i < |rows| ==> RecordsOf(rows)[i] == RecordsOf(whole)[i]
  {
    assert forall i :: 0 <= i < |rows| ==> RecordsOf(rows)[i] == RecordsOf(whole)[i];
  }

  /** records in the transaction of one read: the next of those there are by then. */
  method ReadPage(chain: Text, after: int, take: nat, states: seq<map<Text, seq<Row>>>, read: nat, ghost k: nat)
    returns (page: seq<Record>)
    requires take > 0 && Readable(states, chain) && k <= LengthAt(states, chain, read)
    requires IsAfter(RecordsOf(AtLast(states)[chain]), k, after)
    ensures k + |page| <= LengthAt(states, chain, read)
    ensures |page| == 0 <==> k == LengthAt(states, chain, read)
    ensures k + |page| <= |AtLast(states)[chain]|
    ensures forall i :: 0 <= i < |page| ==> page[i] == RecordsOf(AtLast(states)[chain])[k + i]
  {
    ReadsAreFronts(states, chain, read, read);
    FrontsAreRead(ReadAt(states, read)[chain], AtLast(states)[chain], k, after);
    page := NextPage(RecordsOf(ReadAt(states, read)[chain]), after, take, k);
  }

  /** What one verification found. */
  datatype Report = Report(chains: nat, records: nat, breaks: seq<Break>)

  function Total(ends: seq<nat>): nat {
    if ends == [] then 0 else Total(ends[..|ends| - 1]) + ends[|ends| - 1]
  }

  /** Every chain with how many of its records a verification read. */
  ghost predicate Ended(log: map<Text, seq<Row>>, chains: seq<Text>, ends: seq<nat>) {
    |ends| == |chains| && forall i :: 0 <= i < |chains| ==> chains[i] in log && ends[i] <= |log[chains[i]]|
  }

  /** The plain walk of every chain, each to its end. */
  ghost function AllBreaks(sha: Sha, log: map<Text, seq<Row>>, chains: seq<Text>, ends: seq<nat>): seq<Break>
    requires Ended(log, chains, ends)
  {
    if chains == [] then []
    else
      var last := |chains| - 1;
      AllBreaks(sha, log, chains[..last], ends[..last])
      + Breaks(sha, chains[last], RecordsOf(log[chains[last]]), ends[last])
  }

  /** Of each chain, no less was read than there was. */
  ghost predicate Covers(log: map<Text, seq<Row>>, chains: seq<Text>, ends: seq<nat>) {
    |ends| == |chains| && forall i :: 0 <= i < |chains| ==> chains[i] in log && |log[chains[i]]| <= ends[i]
  }

  /** The report on chains each read to its end, and no less than what there was
      at first: how many chains and records, and the breaks of the plain walk. */
  ghost predicate IsReport(sha: Sha, first: map<Text, seq<Row>>, later: map<Text, seq<Row>>, chains: seq<Text>,
                           ends: seq<nat>, report: Report) {
    && Ended(later, chains, ends) && Covers(first, chains, ends)
    && report == Report(|chains|, Total(ends), AllBreaks(sha, later, chains, ends))
  }

  lemma OneMoreChain(sha: Sha, log: map<Text, seq<Row>>, later: map<Text, seq<Row>>, chains: seq<Text>, i: nat,
                     ends: seq<nat>, count: nat)
    requires i < |chains| && Ended(later, chains[..i], ends) && Covers(log, chains[..i], ends)
    requires chains[i] in log && chains[i] in later && |log[chains[i]]| <= count <= |later[chains[i]]|
    ensures Ended(later, chains[..i + 1], ends + [count]) && Covers(log, chains[..i + 1], ends + [count])
    ensures AllBreaks(sha, later, chains[..i + 1], ends + [count])
         == AllBreaks(sha, later, chains[..i], ends) + Breaks(sha, chains[i], RecordsOf(later[chains[i]]), count)
    ensures Total(ends + [count]) == Total(ends) + count
  {
    var some, more := chains[..i + 1], ends + [count];
    assert some[..i] == chains[..i] && more[..i] == ends && some[i] == chains[i];
    assert forall j :: 0 <= j < i ==> some[j] == chains[..i][j];
  }

  lemma {:induction false} SoundLogHasNoBreaks(sha: Sha, log: map<Text, seq<Row>>, chains: seq<Text>, ends: seq<nat>)
    requires Ended(log, chains, ends)
    requires forall c :: c in chains && c in log ==> Sound(sha, RecordsOf(log[c]))
    ensures AllBreaks(sha, log, chains, ends) == []
  {
    if chains != [] {
      var last := |chains| - 1;
      SoundLogHasNoBreaks(sha, log, chains[..last], ends[..last]);
      var records := RecordsOf(log[chains[last]]);
      assert chains[last] in chains && Sound(sha, records);
      NoBreaksMeansSound(sha, chains[last], records, ends[last]);
    }
  }

  /** The states are what a run of operations had made of the log by then. */
  ghost predicate IsRunOf(w: World, ops: seq<Operation>, states: seq<map<Text, seq<Row>>>, times: seq<nat>) {
    && |times| == |states| > 0
    && (forall i :: 0 <= i < |times| ==> times[i] <= |ops| && states[i] == PerformAll(w, EMPTY, ops[..times[i]]).log)
    && (forall i, j :: 0 <= i <= j < |times| ==> times[i] <= times[j])
  }

  lemma {:induction false} LogsGrow(w: World, ops: seq<Operation>, i: nat, j: nat, c: Text)
    requires i <= j <= |ops| && c in PerformAll(w, EMPTY, ops[..i]).log
    ensures var t, later := PerformAll(w, EMPTY, ops[..i]), PerformAll(w, EMPTY, ops[..j]);
            c in later.log && t.log[c] <= later.log[c]
  {
    if i < j {
      LogsGrow(w, ops, i, j - 1, c);
      OneMorePerformed(w, ops, j - 1);
      OneStepGrows(w, PerformAll(w, EMPTY, ops[..j - 1]), ops[j - 1], c);
    }
  }

  lemma OneMorePerformed(w: World, ops: seq<Operation>, n: nat)
    requires n < |ops|
    ensures PerformAll(w, EMPTY, ops[..n + 1]) == Perform(w, PerformAll(w, EMPTY, ops[..n]), ops[n])
  {
    assert ops[..n + 1][..n] == ops[..n] && ops[..n + 1][n] == ops[n];
  }

  lemma OneStepGrows(w: World, t: Tables, op: Operation, c: Text)
    requires c in t.log
    ensures c in Perform(w, t, op).log && t.log[c] <= Perform(w, t, op).log[c]
  {
    if op.Commit? && Append(w, t, op.e, op.at, op.g).1.Ok? {
      var other, row := AppendAddsARow(w, t, op.e, op.at, op.g);
    } else if op.Commit? {
      FailedChangesNothing(w, t, op.e, op.at, op.g);
    }
  }

  lemma RunsGrow(w: World, ops: seq<Operation>, states: seq<map<Text, seq<Row>>>, times: seq<nat>)
    requires IsRunOf(w, ops, states, times)
    ensures Grows(states)
  {
    forall i, j, c | 0 <= i <= j < |states| && c in states[i] ensures c in states[j] && states[i][c] <= states[j][c] {
      LogsGrow(w, ops, times[i], times[j], c);
    }
  }

  ghost predicate IsClean(sha: Sha, t: Tables) {
    && (forall c :: c in t.chains <==> c in t.log)
    && (forall c :: c in t.log ==> Sound(sha, RecordsOf(t.log[c])) && InOrder(RecordsOf(t.log[c])))
  }

  lemma HonestLogsVerify(w: World, ops: seq<Operation>)
    requires AllVerify(w, ops)
    ensures IsClean(w.sha, PerformAll(w, EMPTY, ops))
  {
    EveryRunIsHonest(w, ops);
    var t := PerformAll(w, EMPTY, ops);
    assert forall c :: c in t.chains <==> c in t.heads.Keys;
    forall c | c in t.log ensures Sound(w.sha, RecordsOf(t.log[c])) && InOrder(RecordsOf(t.log[c])) {
      assert c in t.heads.Keys;
      assert Headed(RecordsOf(LogOf(t, c)), t.heads[c], c);
    }
  }

  lemma GrowingLogsVerify(sha: Sha, first: Tables, t: Tables, states: seq<map<Text, seq<Row>>>, ends: seq<nat>,
                          report: Report)
    requires Grows(states) && states[0] == first.log && AtLast(states) == t.log
    requires IsClean(sha, first) && IsClean(sha, t)
    ensures forall c :: c in first.chains <==> c in states[0]
    ensures forall c :: c in first.chains ==> Readable(states, c)
    ensures IsReport(sha, first.log, t.log, first.chains, ends, report) ==> report.breaks == []
  {
    forall c | c in first.chains ensures Readable(states, c) {
      assert c in states[0] && c in states[|states| - 1];
    }
    if Ended(t.log, first.chains, ends) {
      SoundLogHasNoBreaks(sha, t.log, first.chains, ends);
    }
  }

  /** What appends leave can be read page by page while more are appended: a
      verification that listed the chains at the first read finds each of them at
      every later one, and its report has no break. */
  lemma VerifyFindsNothing(w: World, ops: seq<Operation>, states: seq<map<Text, seq<Row>>>, times: seq<nat>,
                           ends: seq<nat>, report: Report)
    requires AllVerify(w, ops) && IsRunOf(w, ops, states, times)
    ensures var chains := PerformAll(w, EMPTY, ops[..times[0]]).chains;
            && (forall c :: c in chains <==> c in states[0])
            && (forall c :: c in chains ==> Readable(states, c))
            && (IsReport(w.sha, states[0], AtLast(states), chains, ends, report) ==> report.breaks == [])
  {
    RunsGrow(w, ops, states, times);
    var last := |states| - 1;
    VerifiesSoFar(w, ops, times[0]);
    VerifiesSoFar(w, ops, times[last]);
    HonestLogsVerify(w, ops[..times[0]]);
    HonestLogsVerify(w, ops[..times[last]]);
    assert states[0] == PerformAll(w, EMPTY, ops[..times[0]]).log;
    assert states[last] == PerformAll(w, EMPTY, ops[..times[last]]).log;
    GrowingLogsVerify(w.sha, PerformAll(w, EMPTY, ops[..times[0]]), PerformAll(w, EMPTY, ops[..times[last]]), states,
                      ends, report);
  }

  lemma SealFailsWhole(w: World, rows: Rows, e: Entry, g: Given)
    ensures !SealBoth(w, rows, e, g).1.Ok? ==> SealBoth(w, rows, e, g).0 == rows
  {
  }

  lemma InsertLeavesKeys(w: World, t: Tables, keys: Rows, e: Entry, at: Int64, actorSecret: Text, subjectSecret: Text)
    ensures var inserted := Insert(w, t, e, at, actorSecret, subjectSecret);
            && Insert(w, t.(keys := keys), e, at, actorSecret, subjectSecret)
               == (inserted.0.(keys := keys), inserted.1)
            && (!inserted.1.Ok? ==> inserted.0 == t)
  {
  }

  class Log {
    const w: World
    const keys: KeyTable
    var chains: seq<Text>
    var heads: map<Text, Head>
    var log: map<Text, seq<Row>>

    constructor (w: World)
      ensures Valid() && this.w == w && Contents() == EMPTY && fresh(keys)
    {
      this.w := w;
      keys := new KeyTable(w.crypto);
      chains, heads, log := [], map[], map[];
    }

    ghost predicate Valid() { keys.c == w.crypto }

    function Contents(): Tables
      reads this, keys
    {
      Tables(keys.rows, chains, heads, log)
    }

    /** seal, in the caller's transaction. */
    method Seal(user: Text, plain: Option<seq<Byte>>, carries: bool, made: Wrapped, nonce: Nonce)
      returns (r: Outcome<Text>)
      requires Valid()
      modifies keys
      ensures (keys.rows, r) == SealPart(w, old(keys.rows), user, plain, carries, made, nonce)
    {
      if !carries {
        return Ok([]);
      }
      if plain.None? {
        return Failed;
      }
      var id := w.uuid(user);
      if id.None? {
        return Failed;
      }
      var before := keys.rows;
      var key := keys.Open(id.value, made, None);
      match key
      case Erased => return Erased;
      case Failed => return Failed;
      case Ok(k) =>
        var sealed := Sealed(w.crypto, k, nonce, plain.value);
        if sealed.None? {
          keys.rows := before;
          return Failed;
        }
        return Ok(sealed.value);
    }

    /** head: the chain's last hash and length. A chain never audited begins here. */
    method HeadFor(chain: Text) returns (head: Head)
      modifies `chains, `heads
      ensures head == HeadOf(old(Contents()), chain)
      ensures heads == old(heads)[chain := head]
      ensures chains == if chain in old(heads) then old(chains) else old(chains) + [chain]
    {
      if chain !in heads {
        chains, heads := chains + [chain], heads[chain := Head(GENESIS, 0)];
      }
      head := heads[chain];
    }

    /** The two seals of Append. */
    method SealParts(e: Entry, g: Given) returns (r: Outcome<(Text, Text)>)
      requires Valid()
      modifies keys
      ensures (keys.rows, r) == SealBoth(w, old(keys.rows), e, g)
    {
      var before := keys.rows;
      var actorSecret := Seal(ActorKey(e), w.originJson(e.from), e.from != [], g.actorMade, g.actorNonce);
      if !actorSecret.Ok? {
        keys.rows := before;
        return if actorSecret.Erased? then Erased else Failed;
      }
      var carries := |e.before| > 0 || |e.after| > 0;
      var subjectSecret := Seal(KeyFor(e), w.stateJson(e.before, e.after), carries, g.subjectMade, g.subjectNonce);
      if !subjectSecret.Ok? {
        keys.rows := before;
        return if subjectSecret.Erased? then Erased else Failed;
      }
      return Ok((actorSecret.value, subjectSecret.value));
    }

    /** Append; what fails is rolled back with its operation. */
    method Append(e: Entry, at: Int64, g: Given) returns (r: Outcome<()>)
      requires Valid()
      modifies this, keys
      ensures (Contents(), r) == AuditTables.Append(w, old(Contents()), e, at, g)
    {
      if !ValidEntry(e) {
        return Failed;
      }
      var before := keys.rows;
      var secrets := SealParts(e, g);
      SealFailsWhole(w, before, e, g);
      match secrets
      case Erased => return Erased;
      case Failed => return Failed;
      case Ok(both) =>
        InsertLeavesKeys(w, old(Contents()), keys.rows, e, at, both.0, both.1);
        r := Insert(e, at, both.0, both.1);
        if !r.Ok? {
          keys.rows := before;
        }
    }

    /** The record, hashed over the head it follows, and the head moved to it.
        What the columns refuse leaves everything as it was. */
    method Insert(e: Entry, at: Int64, actorSecret: Text, subjectSecret: Text) returns (r: Outcome<()>)
      modifies `chains, `heads, `log
      ensures (Contents(), r) == AuditTables.Insert(w, old(Contents()), e, at, actorSecret, subjectSecret)
    {
      var chain, actor := Kept(w, e.marketplace), Kept(w, e.actorId);
      if chain.None? || actor.None? || !KnownKind(e.actorKind) {
        return Failed;
      }
      var oldChains, oldHeads := chains, heads;
      var head := HeadFor(chain.value);
      if head.length + 1 >= 0x8000_0000_0000_0000 {
        chains, heads := oldChains, oldHeads;
        return Failed;
      }
      var written := Record(e.marketplace, head.length + 1, at, e.actorId, e.actorKind, e.action, e.subjectKind,
                            e.subjectId, actorSecret, subjectSecret, head.last, head.last);
      var hash := Digest.Digest(w.sha, head.last, written);
      var row := Row(written.(marketplace := chain.value, actorId := actor.value, hash := hash),
                     KeyOf(w, actorSecret, ActorKey(e)), KeyOf(w, subjectSecret, KeyFor(e)));
      log := log[chain.value := (if chain.value in log then log[chain.value] else []) + [row]];
      heads := heads[chain.value := Head(hash, head.length + 1)];
      assert row == RowOf(w, e, at, HeadOf(old(Contents()), chain.value), actorSecret, subjectSecret);
      assert heads == old(heads)[chain.value := Head(row.record.hash, head.length + 1)];
      return Ok(());
    }

    /** Log.Open of a row found. */
    method Open(row: Row, actorMade: Wrapped, subjectMade: Wrapped) returns (r: Outcome<Found>)
      requires Valid()
      modifies keys
      ensures (keys.rows, r) == OpenRow(w, old(keys.rows), row, actorMade, subjectMade)
    {
      var before := keys.rows;
      var found := Found(row.record.actorId, row.record.actorKind, row.record.action, row.record.subjectKind,
                         row.record.subjectId, [], [], [], false, false);
      if |row.record.actorSecret| > 0 {
        var part := OpenOne(row.actorKey, row.record.actorSecret, actorMade);
        if part.Failed? {
          keys.rows := before;
          return Failed;
        }
        if part.Erased? {
          found := found.(originErased := true);
        } else {
          var where := w.readOrigin(part.value);
          if where.None? {
            keys.rows := before;
            return Failed;
          }
          found := found.(from := where.value);
        }
      }
      if |row.record.subjectSecret| > 0 {
        var part := OpenOne(row.subjectKey, row.record.subjectSecret, subjectMade);
        if part.Failed? {
          keys.rows := before;
          return Failed;
        }
        if part.Erased? {
          found := found.(stateErased := true);
        } else {
          var changed := w.readState(part.value);
          if changed.None? {
            keys.rows := before;
            return Failed;
          }
          found := found.(before := changed.value.0, after := changed.value.1);
        }
      }
      return Ok(found);
    }

    method OpenOne(user: Text, sealed: Text, made: Wrapped) returns (r: Outcome<seq<Byte>>)
      requires Valid()
      modifies keys
      ensures (keys.rows, r) == OpenPart(w, old(keys.rows), user, sealed, made)
    {
      var key := keys.Open(user, made, None);
      match key
      case Erased => return Erased;
      case Failed => return Failed;
      case Ok(k) =>
        var plain := Unsealed(w.crypto, k, sealed);
        return match plain case Some(p) => Ok(p) case None => Failed;
    }

    /** One page: each of its records is held against the hash that the one
        before it says, and its break is added to those found. */
    method WalkPage(chain: Text, page: seq<Record>, previous: Hash, after: int, found: seq<Break>,
                    ghost records: seq<Record>, ghost k: nat)
      returns (last: Hash, reached: int, breaks: seq<Break>)
      requires k + |page| <= |records| && Walked(w.sha, chain, records, k, previous, after, found)
      requires forall i :: 0 <= i < |page| ==> page[i] == records[k + i]
      ensures Walked(w.sha, chain, records, k + |page|, last, reached, breaks)
    {
      last, reached, breaks := previous, after, found;
      for i := 0 to |page|
        invariant Walked(w.sha, chain, records, k + i, last, reached, breaks)
      {
        var more := Verdict(chain, last, page[i]);
        OneMoreWalked(w.sha, chain, records, k + i, last, reached, breaks);
        breaks := breaks + more;
        last, reached := page[i].hash, page[i].sequence as int;
      }
    }

    /** The switch on one record. */
    method Verdict(chain: Text, previous: Hash, found: Record) returns (breaks: seq<Break>)
      ensures var fault := Fault(w.sha, previous, found);
              breaks == if fault.Some? then [Break(chain, found.sequence, fault.value)] else []
    {
      if found.previousHash != previous {
        return [Break(chain, found.sequence, NotChained)];
      }
      var hash := Digest.Digest(w.sha, previous, found);
      if hash != found.hash {
        return [Break(chain, found.sequence, HashDiffers)];
      }
      return [];
    }

    /** One chain, read take records at a time from the read with number first on,
        until a read finds no more. */
    method VerifyChain(chain: Text, take: nat, states: seq<map<Text, seq<Row>>>, first: nat)
      returns (count: nat, breaks: seq<Break>, next: nat)
      requires take > 0 && Readable(states, chain)
      ensures next > first && count == LengthAt(states, chain, next - 1) <= |AtLast(states)[chain]|
      ensures breaks == Breaks(w.sha, chain, RecordsOf(AtLast(states)[chain]), count)
    {
      ghost var whole := RecordsOf(AtLast(states)[chain]);
      var previous: Hash := GENESIS;
      var after: int := 0;
      count, breaks, next := 0, [], first;
      while true
        invariant next >= first && count <= LengthAt(states, chain, next)
        invariant Walked(w.sha, chain, whole, count, previous, after, breaks)
        decreases |whole| - count
      {
        LengthsGrow(states, chain, next, next + 1);
        var page := ReadPage(chain, after, take, states, next, count);
        next := next + 1;
        if |page| == 0 {
          break;
        }
        previous, after, breaks := WalkPage(chain, page, previous, after, breaks, whole, count);
        count := count + |page|;
      }
    }

    /** Verify walks every chain and recomputes it. However much is appended while
        it reads, and whatever the rows hold, it ends, having read of each chain at
        least what there was at the start, and it reports what the plain walk of
        what it read would. */
    method Verify(take: nat, states: seq<map<Text, seq<Row>>>) returns (report: Report)
      requires take > 0 && states != [] && states[0] == log
      requires forall c :: c in chains ==> c in log && Readable(states, c)
      ensures exists ends :: IsReport(w.sha, log, AtLast(states), chains, ends, report)
    {
      report := Report(|chains|, 0, []);
      ghost var ends: seq<nat> := [];
      var next := 0;
      for i := 0 to |chains|
        invariant Ended(AtLast(states), chains[..i], ends) && Covers(log, chains[..i], ends)
        invariant report == Report(|chains|, Total(ends), AllBreaks(w.sha, AtLast(states), chains[..i], ends))
      {
        assert chains[i] in chains;
        var count, breaks;
        count, breaks, next := VerifyChain(chains[i], take, states, next);
        LengthsGrow(states, chains[i], 0, next - 1);
        OneMoreChain(w.sha, log, AtLast(states), chains, i, ends, count);
        report := report.(records := report.records + count, breaks := report.breaks + breaks);
        ends := ends + [count];
      }
      assert chains[..|chains|] == chains;
      assert IsReport(w.sha, log, AtLast(states), chains, ends, report);
    }
  }
}
