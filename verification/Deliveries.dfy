/** Runs of the outbox: deliveries of any events, begun any number of times and
    interleaved in any way between their consumers' transactions, failing or not
    (internal/platform/outbox). */
module Deliveries {
  import opened Base
  import opened Outbox

  /** A delivery under way: which consumer comes next. */
  datatype Delivery = Delivery(event: nat, next: nat, failed: bool)

  datatype State = State(t: Tables, deliveries: seq<Delivery>)

  /** An event is written; a delivery of it begins, again or for the first time;
      one goes on with its next consumer; one that ended well is marked; or an
      offer that did not is recorded. */
  datatype Step =
    | Write(kind: string)
    | Begin(event: nat)
    | Advance(d: nat, succeeds: bool)
    | Mark(d: nat)
    | Refuse(event: nat)

  function NamesOf(r: Registry, t: Tables, event: nat): seq<string>
    requires event < |t.rows|
  {
    For(r, t.rows[event].kind)
  }

  /** A delivery whose every consumer's transaction committed, of an event that has
      consumers: the one that answers with no error. */
  predicate EndedWell(r: Registry, t: Tables, d: Delivery) {
    d.event < |t.rows| && !d.failed && NamesOf(r, t, d.event) != [] && d.next == |NamesOf(r, t, d.event)|
  }

  function Apply(r: Registry, s: State, step: Step): State {
    match step
    case Write(kind) => s.(t := s.t.(rows := s.t.rows + [Row(kind, Pending, 0)]))
    case Begin(event) =>
      if event < |s.t.rows| then s.(deliveries := s.deliveries + [Delivery(event, 0, false)]) else s
    case Advance(d, succeeds) =>
      if d < |s.deliveries| && CanAdvance(r, s.t, s.deliveries[d]) then
        var one := s.deliveries[d];
        var consumed := Consume(s.t, one.event, NamesOf(r, s.t, one.event)[one.next], succeeds);
        State(consumed.0, s.deliveries[d := if consumed.1 then one.(next := one.next + 1) else one.(failed := true)])
      else s
    case Mark(d) =>
      if d < |s.deliveries| && EndedWell(r, s.t, s.deliveries[d]) then s.(t := Marked(s.t, s.deliveries[d].event))
      else s
    case Refuse(event) => if event < |s.t.rows| then s.(t := Refused(s.t, event)) else s
  }

  predicate CanAdvance(r: Registry, t: Tables, d: Delivery) {
    d.event < |t.rows| && !d.failed && d.next < |NamesOf(r, t, d.event)|
  }

  function Execute(r: Registry, steps: seq<Step>): State {
    if steps == [] then State(Tables([], {}, []), [])
    else Apply(r, Execute(r, steps[..|steps| - 1]), steps[|steps| - 1])
  }

  /** Each kind's consumers have names of their own. */
  predicate DistinctNames(r: Registry) {
    forall kind :: kind in r ==> forall i, j :: 0 <= i < j < |r[kind]| ==> r[kind][i] != r[kind][j]
  }

  /** The first m consumers of an event have committed, and no other. */
  predicate PrefixDone(r: Registry, t: Tables, event: nat, m: nat)
    requires event < |t.rows|
  {
    var names := NamesOf(r, t, event);
    m <= |names| && forall i :: 0 <= i < |names| ==> ((event, names[i]) in t.claims <==> i < m)
  }

  ghost predicate SomePrefixDone(r: Registry, t: Tables, event: nat)
    requires event < |t.rows|
  {
    exists m: nat :: PrefixDone(r, t, event, m)
  }

  predicate DoneTo(r: Registry, t: Tables, event: nat, k: nat) {
    event < |t.rows| && k <= |NamesOf(r, t, event)|
    && forall i :: 0 <= i < k ==> (event, NamesOf(r, t, event)[i]) in t.claims
  }

  /** A row marked as handed over has consumers, and all of them committed. */
  predicate RowTells(r: Registry, t: Tables, event: nat)
    requires event < |t.rows|
  {
    && (t.rows[event].state == Dispatched ==> NamesOf(r, t, event) != [] && DoneTo(r, t, event, |NamesOf(r, t, event)|))
    && (t.rows[event].state == Pending ==> t.rows[event].attempts < ATTEMPTS_ALLOWED)
  }

  predicate Once(done: seq<(nat, string)>) { forall i, j :: 0 <= i < j < |done| ==> done[i] != done[j] }

  ghost predicate ClaimsTell(t: Tables) {
    && Once(t.done)
    && (forall i :: 0 <= i < |t.done| ==> t.done[i] in t.claims)
    && (forall c :: c in t.claims ==> c in t.done && c.0 < |t.rows|)
  }

  ghost predicate Inv(r: Registry, s: State) {
    && ClaimsTell(s.t)
    && (forall e :: 0 <= e < |s.t.rows| ==> SomePrefixDone(r, s.t, e))
    && (forall e :: 0 <= e < |s.t.rows| ==> RowTells(r, s.t, e))
    && (forall d :: 0 <= d < |s.deliveries| ==> DoneTo(r, s.t, s.deliveries[d].event, s.deliveries[d].next))
  }

  lemma WriteKeeps(r: Registry, s: State, kind: string)
    requires Inv(r, s)
    ensures Inv(r, Apply(r, s, Write(kind)))
  {
    var t := Apply(r, s, Write(kind)).t;
    var written := |s.t.rows|;
    forall e | 0 <= e < |t.rows| ensures SomePrefixDone(r, t, e) && RowTells(r, t, e) {
      if e < written {
        assert SomePrefixDone(r, s.t, e) && RowTells(r, s.t, e);
        var m: nat :| PrefixDone(r, s.t, e, m);
        assert PrefixDone(r, t, e, m);
      } else {
        assert PrefixDone(r, t, e, 0);
      }
    }
    forall d | 0 <= d < |s.deliveries| ensures DoneTo(r, t, s.deliveries[d].event, s.deliveries[d].next) {
      assert DoneTo(r, s.t, s.deliveries[d].event, s.deliveries[d].next);
    }
  }

  /** A row whose kind and claims stay tells the same, with another state. */
  lemma RowKeeps(r: Registry, s: State, t: Tables, event: nat)
    requires Inv(r, s) && event < |s.t.rows| == |t.rows| && t.claims == s.t.claims && t.done == s.t.done
    requires forall e :: 0 <= e < |t.rows| ==> t.rows[e].kind == s.t.rows[e].kind
    requires forall e :: 0 <= e < |t.rows| && e != event ==> t.rows[e] == s.t.rows[e]
    requires RowTells(r, t, event)
    ensures Inv(r, s.(t := t))
  {
    forall e | 0 <= e < |t.rows| ensures SomePrefixDone(r, t, e) && RowTells(r, t, e) {
      assert SomePrefixDone(r, s.t, e) && RowTells(r, s.t, e);
      var m: nat :| PrefixDone(r, s.t, e, m);
      assert PrefixDone(r, t, e, m);
    }
    forall d | 0 <= d < |s.deliveries| ensures DoneTo(r, t, s.deliveries[d].event, s.deliveries[d].next) {
      assert DoneTo(r, s.t, s.deliveries[d].event, s.deliveries[d].next);
    }
  }

  lemma MarkKeeps(r: Registry, s: State, d: nat)
    requires Inv(r, s)
    ensures Inv(r, Apply(r, s, Mark(d)))
  {
    if d < |s.deliveries| && EndedWell(r, s.t, s.deliveries[d]) {
      var event := s.deliveries[d].event;
      assert DoneTo(r, s.t, event, s.deliveries[d].next);
      RowKeeps(r, s, Marked(s.t, event), event);
    }
  }

  lemma RefuseKeeps(r: Registry, s: State, event: nat)
    requires Inv(r, s)
    ensures Inv(r, Apply(r, s, Refuse(event)))
  {
    if event < |s.t.rows| {
      RowKeeps(r, s, Refused(s.t, event), event);
    }
  }

  /** A consumer's transaction that commits its work is the next of the prefix. */
  lemma ConsumeExtends(r: Registry, t: Tables, event: nat, k: nat, m: nat, claims: set<(nat, string)>)
    requires DistinctNames(r) && event < |t.rows| && PrefixDone(r, t, event, m) && DoneTo(r, t, event, k)
    requires k < |NamesOf(r, t, event)| && (event, NamesOf(r, t, event)[k]) !in t.claims
    requires claims == t.claims + {(event, NamesOf(r, t, event)[k])}
    ensures k == m && PrefixDone(r, t.(claims := claims), event, m + 1)
  {
    var names := NamesOf(r, t, event);
    assert k >= m;
    if k > 0 {
      assert (event, names[k - 1]) in t.claims;
    }
    forall i | 0 <= i < |names| ensures (event, names[i]) in claims <==> i < m + 1 {
      assert i != k ==> names[i] != names[k];
    }
  }

  lemma ClaimKeepsRows(r: Registry, s: State, event: nat, k: nat, t: Tables)
    requires Inv(r, s) && DistinctNames(r) && DoneTo(r, s.t, event, k) && k < |NamesOf(r, s.t, event)|
    requires (event, NamesOf(r, s.t, event)[k]) !in s.t.claims
    requires t.rows == s.t.rows && t.claims == s.t.claims + {(event, NamesOf(r, s.t, event)[k])}
    ensures forall e :: 0 <= e < |t.rows| ==> SomePrefixDone(r, t, e) && RowTells(r, t, e)
  {
    forall e | 0 <= e < |t.rows| ensures SomePrefixDone(r, t, e) && RowTells(r, t, e) {
      assert SomePrefixDone(r, s.t, e) && RowTells(r, s.t, e);
      var m: nat :| PrefixDone(r, s.t, e, m);
      if e == event {
        ConsumeExtends(r, s.t, event, k, m, t.claims);
        assert PrefixDone(r, t, e, m + 1);
      } else {
        assert PrefixDone(r, t, e, m);
      }
    }
  }

  lemma ClaimsStillTell(t: Tables, event: nat, name: string)
    requires ClaimsTell(t) && event < |t.rows| && (event, name) !in t.claims
    ensures ClaimsTell(t.(claims := t.claims + {(event, name)}, done := t.done + [(event, name)]))
  {
    var done := t.done + [(event, name)];
    assert done[|t.done|] == (event, name);
    forall c | c in t.claims + {(event, name)} ensures c in done {
      if c in t.claims {
        assert c in t.done;
      }
    }
    forall i, j | 0 <= i < j < |done| ensures done[i] != done[j] {
      assert t.done[i] in t.claims;
    }
  }

  lemma AdvanceKeeps(r: Registry, s: State, d: nat, succeeds: bool)
    requires Inv(r, s) && DistinctNames(r)
    ensures Inv(r, Apply(r, s, Advance(d, succeeds)))
  {
    if d < |s.deliveries| && CanAdvance(r, s.t, s.deliveries[d]) {
      var one, later := s.deliveries[d], Apply(r, s, Advance(d, succeeds));
      var name := NamesOf(r, s.t, one.event)[one.next];
      assert DoneTo(r, s.t, one.event, one.next);
      if (one.event, name) !in s.t.claims && succeeds {
        ClaimKeepsRows(r, s, one.event, one.next, later.t);
        ClaimsStillTell(s.t, one.event, name);
      }
      DeliveriesKeep(r, s, later, d);
    }
  }

  lemma DeliveriesKeep(r: Registry, s: State, later: State, d: nat)
    requires d < |s.deliveries| == |later.deliveries| && later.t.rows == s.t.rows && s.t.claims <= later.t.claims
    requires forall x :: 0 <= x < |s.deliveries| ==> DoneTo(r, s.t, s.deliveries[x].event, s.deliveries[x].next)
    requires forall x :: 0 <= x < |s.deliveries| && x != d ==> later.deliveries[x] == s.deliveries[x]
    requires var one := s.deliveries[d];
             later.deliveries[d].event == one.event && CanAdvance(r, s.t, one)
             && (later.deliveries[d].next == one.next
                 || (later.deliveries[d].next == one.next + 1
                     && (one.event, NamesOf(r, s.t, one.event)[one.next]) in later.t.claims))
    ensures forall x ::
              0 <= x < |later.deliveries| ==> DoneTo(r, later.t, later.deliveries[x].event, later.deliveries[x].next)
  {
    forall x | 0 <= x < |later.deliveries|
      ensures DoneTo(r, later.t, later.deliveries[x].event, later.deliveries[x].next)
    {
      assert DoneTo(r, s.t, s.deliveries[x].event, s.deliveries[x].next);
    }
  }

  lemma StepKeeps(r: Registry, s: State, step: Step)
    requires Inv(r, s) && DistinctNames(r)
    ensures Inv(r, Apply(r, s, step))
  {
    match step
    case Write(kind) => WriteKeeps(r, s, kind);
    case Begin(event) =>
    case Advance(d, succeeds) => AdvanceKeeps(r, s, d, succeeds);
    case Mark(d) => MarkKeeps(r, s, d);
    case Refuse(event) => RefuseKeeps(r, s, event);
  }

  lemma {:induction false} EveryRunKeeps(r: Registry, steps: seq<Step>)
    requires DistinctNames(r)
    ensures Inv(r, Execute(r, steps))
  {
    if steps != [] {
      EveryRunKeeps(r, steps[..|steps| - 1]);
      StepKeeps(r, Execute(r, steps[..|steps| - 1]), steps[|steps| - 1]);
    }
  }

  /** Whatever is delivered again, interleaved or failing: no consumer's work on an
      event commits twice; those that committed are the first ones registered; a
      delivery that ends well, and an event marked as handed over, have had every
      consumer's; and no event waits after its fifth attempt. */
  lemma HandledOnceAndInOrder(r: Registry, steps: seq<Step>)
    requires DistinctNames(r)
    ensures var s := Execute(r, steps);
            && Once(s.t.done)
            && (forall e :: 0 <= e < |s.t.rows| ==> SomePrefixDone(r, s.t, e))
            && (forall d :: 0 <= d < |s.deliveries| && EndedWell(r, s.t, s.deliveries[d])
                            ==> AllDone(r, s.t, s.deliveries[d].event))
            && (forall e :: 0 <= e < |s.t.rows| && s.t.rows[e].state == Dispatched ==> AllDone(r, s.t, e))
            && (forall e :: 0 <= e < |s.t.rows| && s.t.rows[e].state == Pending ==> s.t.rows[e].attempts < 5)
  {
    EveryRunKeeps(r, steps);
    var s := Execute(r, steps);
    forall d | 0 <= d < |s.deliveries| && EndedWell(r, s.t, s.deliveries[d])
      ensures AllDone(r, s.t, s.deliveries[d].event)
    {
      assert DoneTo(r, s.t, s.deliveries[d].event, s.deliveries[d].next);
      DoneIsInList(r, s.t, s.deliveries[d].event);
    }
    forall e | 0 <= e < |s.t.rows| && s.t.rows[e].state == Dispatched ensures AllDone(r, s.t, e) {
      assert RowTells(r, s.t, e);
      DoneIsInList(r, s.t, e);
    }
    forall e | 0 <= e < |s.t.rows| && s.t.rows[e].state == Pending ensures s.t.rows[e].attempts < 5 {
      assert RowTells(r, s.t, e);
    }
  }

  /** Every consumer of the event did its work on it, and there was one. */
  predicate AllDone(r: Registry, t: Tables, event: nat) {
    event < |t.rows| && NamesOf(r, t, event) != []
    && forall i :: 0 <= i < |NamesOf(r, t, event)| ==> (event, NamesOf(r, t, event)[i]) in t.done
  }

  lemma DoneIsInList(r: Registry, t: Tables, event: nat)
    requires ClaimsTell(t) && event < |t.rows| && NamesOf(r, t, event) != []
    requires DoneTo(r, t, event, |NamesOf(r, t, event)|)
    ensures AllDone(r, t, event)
  {
  }

  /** A delivery with nothing between its transactions, as a run of its steps. */
  lemma {:induction false} DeliveryKeeps(r: Registry, t: Tables, event: nat, k: nat, succeeds: Succeeds)
    requires Inv(r, State(t, [])) && DistinctNames(r) && DoneTo(r, t, event, k)
    ensures var d := DeliverFrom(t, event, NamesOf(r, t, event), k, succeeds);
            && Inv(r, State(d.0, [])) && d.0.rows == t.rows
            && (d.1 == Delivered ==> DoneTo(r, d.0, event, |NamesOf(r, t, event)|))
    decreases |NamesOf(r, t, event)| - k
  {
    var names := NamesOf(r, t, event);
    if k < |names| {
      var s := State(t, [Delivery(event, k, false)]);
      var one := Consume(t, event, names[k], succeeds(event, names[k]));
      AdvanceKeeps(r, s, 0, succeeds(event, names[k]));
      assert Apply(r, s, Advance(0, succeeds(event, names[k]))).t == one.0;
      if one.1 {
        assert DoneTo(r, one.0, event, k + 1);
        DeliveryKeeps(r, one.0, event, k + 1, succeeds);
      }
    }
  }

  lemma OfferKeeps(r: Registry, t: Tables, event: nat, succeeds: Succeeds, writes: nat -> bool)
    requires Inv(r, State(t, [])) && DistinctNames(r) && event < |t.rows|
    ensures Inv(r, State(Offer(r, t, event, succeeds, writes).0, []))
    ensures |Offer(r, t, event, succeeds, writes).0.rows| == |t.rows|
  {
    var delivered := Deliver(r, t, event, t.rows[event].kind, succeeds);
    if NamesOf(r, t, event) != [] {
      DeliveryKeeps(r, t, event, 0, succeeds);
    }
    if delivered.1.Delivered? {
      RowKeeps(r, State(delivered.0, []), Marked(delivered.0, event), event);
    } else {
      RowKeeps(r, State(delivered.0, []), Refused(delivered.0, event), event);
    }
  }

  /** A whole dispatch through the inline queue keeps every guarantee, whichever
      consumers fail and whichever marks are not written. */
  lemma {:induction false} DispatchKeeps(r: Registry, t: Tables, events: seq<nat>, n: nat, succeeds: Succeeds,
                                         writes: nat -> bool)
    requires Inv(r, State(t, [])) && DistinctNames(r)
    requires n <= |events| && forall i :: 0 <= i < |events| ==> events[i] < |t.rows|
    ensures Inv(r, State(OfferAll(r, t, events, n, succeeds, writes).0, []))
    decreases n
  {
    if n > 0 {
      DispatchKeeps(r, t, events, n - 1, succeeds, writes);
      OfferKeeps(r, OfferAll(r, t, events, n - 1, succeeds, writes).0, events[n - 1], succeeds, writes);
    }
  }

  /** A delivery answers with no error exactly when all its consumers have
      committed, then or before. */
  lemma {:induction false} DeliveredMeansAllClaimed(t: Tables, event: nat, names: seq<string>, k: nat,
                                                    succeeds: Succeeds)
    requires k <= |names|
    ensures var d := DeliverFrom(t, event, names, k, succeeds);
            && t.claims <= d.0.claims
            && (d.1 == Delivered <==> forall i :: k <= i < |names| ==> (event, names[i]) in d.0.claims)
    decreases |names| - k
  {
    if k < |names| {
      var one := Consume(t, event, names[k], succeeds(event, names[k]));
      if one.1 {
        DeliveredMeansAllClaimed(one.0, event, names, k + 1, succeeds);
      }
    }
  }

  /** Delivering again what was delivered does nothing, and answers the same. */
  lemma {:induction false} AgainIsNothing(t: Tables, event: nat, names: seq<string>, k: nat, succeeds: Succeeds)
    requires k <= |names| && forall i :: k <= i < |names| ==> (event, names[i]) in t.claims
    ensures DeliverFrom(t, event, names, k, succeeds) == (t, Delivered)
    decreases |names| - k
  {
    if k < |names| {
      AgainIsNothing(t, event, names, k + 1, succeeds);
    }
  }

  /** The names from the k-th on whose work on an event is still to do. */
  function ToDo(t: Tables, event: nat, names: seq<string>, k: nat): set<string>
    requires k <= |names|
  {
    set i | k <= i < |names| && (event, names[i]) !in t.claims :: names[i]
  }

  /** Working off the k-th name leaves to do what the later ones have. */
  lemma OneLessToDo(t: Tables, event: nat, names: seq<string>, k: nat)
    requires k < |names|
    ensures var one := Consume(t, event, names[k], true).0;
            |one.done| + |ToDo(one, event, names, k + 1)| == |t.done| + |ToDo(t, event, names, k)|
  {
    var one := Consume(t, event, names[k], true).0;
    var todo, rest := ToDo(t, event, names, k), ToDo(one, event, names, k + 1);
    forall name ensures name in rest <==> name in todo && name != names[k] {
      if name in todo && name != names[k] {
        var i :| k <= i < |names| && names[i] == name;
        assert i >= k + 1 && (event, names[i]) !in one.claims;
      }
    }
    if (event, names[k]) in t.claims {
      assert todo == rest;
    } else {
      assert names[k] in todo;
      assert todo == rest + {names[k]};
    }
  }

  /** When all would succeed, a delivery does each name's work that is to do, once. */
  lemma {:induction false} WorkDone(t: Tables, event: nat, names: seq<string>, k: nat, succeeds: Succeeds)
    requires k <= |names| && forall i :: k <= i < |names| ==> succeeds(event, names[i])
    ensures var d := DeliverFrom(t, event, names, k, succeeds);
            d.1 == Delivered && |d.0.done| == |t.done| + |ToDo(t, event, names, k)|
    decreases |names| - k
  {
    if k < |names| {
      WorkDone(Consume(t, event, names[k], true).0, event, names, k + 1, succeeds);
      OneLessToDo(t, event, names, k);
    } else {
      assert ToDo(t, event, names, k) == {};
    }
  }

  /** The names from the one at k on. */
  function NamesFrom(names: seq<string>, k: nat): set<string>
    requires k <= |names|
  {
    set i | k <= i < |names| :: names[i]
  }

  predicate DistinctFrom(names: seq<string>, k: nat) {
    forall i, j :: k <= i < j < |names| ==> names[i] != names[j]
  }

  lemma OneMoreName(names: seq<string>, k: nat)
    requires k < |names|
    ensures NamesFrom(names, k) == NamesFrom(names, k + 1) + {names[k]}
    ensures DistinctFrom(names, k) <==> DistinctFrom(names, k + 1) && names[k] !in NamesFrom(names, k + 1)
  {
  }

  lemma {:induction false} NamesCounted(names: seq<string>, k: nat)
    requires k <= |names|
    ensures |NamesFrom(names, k)| <= |names| - k
    ensures |NamesFrom(names, k)| == |names| - k <==> DistinctFrom(names, k)
    decreases |names| - k
  {
    if k < |names| {
      NamesCounted(names, k + 1);
      OneMoreName(names, k);
      if names[k] in NamesFrom(names, k + 1) {
        assert NamesFrom(names, k) == NamesFrom(names, k + 1);
      }
    } else {
      assert NamesFrom(names, k) == {};
    }
  }

  /** However many consumers are registered, and all of them able to work: each of
      them works on a new event exactly when their names are distinct. The delivery
      ends well either way. */
  lemma AllWorkExactlyWhenDistinct(t: Tables, event: nat, names: seq<string>, succeeds: Succeeds)
    requires forall i :: 0 <= i < |names| ==> succeeds(event, names[i]) && (event, names[i]) !in t.claims
    ensures var d := DeliverFrom(t, event, names, 0, succeeds);
            && d.1 == Delivered
            && (|d.0.done| == |t.done| + |names| <==> forall i, j :: 0 <= i < j < |names| ==> names[i] != names[j])
  {
    WorkDone(t, event, names, 0, succeeds);
    NamesCounted(names, 0);
    assert ToDo(t, event, names, 0) == NamesFrom(names, 0);
  }

  // What one dispatch does to the table, exactly.

  /** Whether an event can be handled whole: somebody cares about its kind, and each
      who does has handled it or would. */
  predicate CanBeHandled(r: Registry, t: Tables, event: nat, kind: string, succeeds: Succeeds) {
    kind in r && r[kind] != []
    && forall i :: 0 <= i < |r[kind]| ==> (event, r[kind][i]) in t.claims || succeeds(event, r[kind][i])
  }

  /** The row of an event that was offered. */
  function RowAfter(r: Registry, t: Tables, event: nat, succeeds: Succeeds, writes: nat -> bool): Row
    requires event < |t.rows|
  {
    var row := t.rows[event];
    if !writes(event) then row
    else if CanBeHandled(r, t, event, row.kind, succeeds) then Row(row.kind, Dispatched, row.attempts + 1)
    else Row(row.kind, if row.attempts + 1 >= 5 then Parked else Pending, row.attempts + 1)
  }

  lemma {:induction false} DeliveryIsExact(t: Tables, event: nat, names: seq<string>, k: nat, succeeds: Succeeds)
    requires k <= |names|
    ensures DeliverFrom(t, event, names, k, succeeds).1 == Delivered
       <==> forall i :: k <= i < |names| ==> (event, names[i]) in t.claims || succeeds(event, names[i])
    ensures forall other: nat, name: string :: other != event ==>
              ((other, name) in DeliverFrom(t, event, names, k, succeeds).0.claims <==> (other, name) in t.claims)
    decreases |names| - k
  {
    if k < |names| {
      var one := Consume(t, event, names[k], succeeds(event, names[k]));
      if one.1 {
        DeliveryIsExact(one.0, event, names, k + 1, succeeds);
        SucceedsOrHas(t, event, names, k, succeeds);
      }
    }
  }

  /** One consumer's claim more changes for the rest only what was going to be. */
  lemma SucceedsOrHas(t: Tables, event: nat, names: seq<string>, k: nat, succeeds: Succeeds)
    requires k < |names| && Consume(t, event, names[k], succeeds(event, names[k])).1
    ensures var one := Consume(t, event, names[k], succeeds(event, names[k])).0;
            forall i :: k < i < |names| ==>
              ((event, names[i]) in one.claims || succeeds(event, names[i])
               <==> (event, names[i]) in t.claims || succeeds(event, names[i]))
  {
    var one := Consume(t, event, names[k], succeeds(event, names[k])).0;
    forall i | k < i < |names|
      ensures (event, names[i]) in one.claims || succeeds(event, names[i])
         <==> (event, names[i]) in t.claims || succeeds(event, names[i])
    {
      if names[i] == names[k] {
        assert (event, names[i]) in t.claims || succeeds(event, names[i]);
      }
    }
  }

  lemma OfferIsExact(r: Registry, t: Tables, event: nat, succeeds: Succeeds, writes: nat -> bool)
    requires event < |t.rows|
    ensures var offered, row := Offer(r, t, event, succeeds, writes), RowAfter(r, t, event, succeeds, writes);
            && offered.0.rows == t.rows[event := row]
            && offered.1 == (if writes(event) && CanBeHandled(r, t, event, t.rows[event].kind, succeeds) then 1 else 0)
            && forall other: nat, name: string :: other != event ==>
                 ((other, name) in offered.0.claims <==> (other, name) in t.claims)
  {
    var kind := t.rows[event].kind;
    DeliveryKeepsRows(r, t, event, kind, succeeds);
    if For(r, kind) != [] {
      DeliveryIsExact(t, event, For(r, kind), 0, succeeds);
    }
    assert t.rows[event := t.rows[event]] == t.rows;
  }

  /** Nothing was said yet of the events from the n-th on, and what was said of those
      before stands. */
  ghost predicate OfferedSoFar(r: Registry, t: Tables, events: seq<nat>, n: nat, succeeds: Succeeds,
                               writes: nat -> bool, later: Tables)
    requires n <= |events| && forall i :: 0 <= i < |events| ==> events[i] < |t.rows|
  {
    && |later.rows| == |t.rows|
    && (forall e :: 0 <= e < |t.rows| && e !in events[..n] ==> later.rows[e] == t.rows[e])
    && (forall i :: 0 <= i < n ==> later.rows[events[i]] == RowAfter(r, t, events[i], succeeds, writes))
    && (forall e: nat, name: string :: e !in events[..n] ==> ((e, name) in later.claims <==> (e, name) in t.claims))
  }

  /** The events that can be handled whole and will be marked. */
  function Wanted(r: Registry, t: Tables, succeeds: Succeeds, writes: nat -> bool): set<nat> {
    set e: nat | 0 <= e < |t.rows| && writes(e) && CanBeHandled(r, t, e, t.rows[e].kind, succeeds)
  }

  /** How many of the first n are among some. */
  function CountOf(events: seq<nat>, n: nat, wanted: set<nat>): nat
    requires n <= |events|
  {
    if n == 0 then 0 else CountOf(events, n - 1, wanted) + if events[n - 1] in wanted then 1 else 0
  }

  lemma SameClaimsSameRow(r: Registry, t: Tables, before: Tables, event: nat, succeeds: Succeeds, writes: nat -> bool)
    requires event < |t.rows| == |before.rows| && before.rows[event] == t.rows[event]
    requires forall name: string :: (event, name) in before.claims <==> (event, name) in t.claims
    ensures RowAfter(r, before, event, succeeds, writes) == RowAfter(r, t, event, succeeds, writes)
    ensures CanBeHandled(r, before, event, t.rows[event].kind, succeeds)
       <==> CanBeHandled(r, t, event, t.rows[event].kind, succeeds)
  {
  }

  lemma OneMoreOffered(r: Registry, t: Tables, events: seq<nat>, n: nat, succeeds: Succeeds, writes: nat -> bool,
                       before: Tables)
    requires n < |events| && (forall i :: 0 <= i < |events| ==> events[i] < |t.rows|) && events[n] !in events[..n]
    requires OfferedSoFar(r, t, events, n, succeeds, writes, before)
    ensures OfferedSoFar(r, t, events, n + 1, succeeds, writes, Offer(r, before, events[n], succeeds, writes).0)
    ensures Offer(r, before, events[n], succeeds, writes).1
            == if writes(events[n]) && CanBeHandled(r, t, events[n], t.rows[events[n]].kind, succeeds) then 1 else 0
  {
    var event := events[n];
    SameClaimsSameRow(r, t, before, event, succeeds, writes);
    OfferIsExact(r, before, event, succeeds, writes);
    assert events[..n + 1] == events[..n] + [event];
    forall i | 0 <= i < n ensures events[i] != event {
      assert events[..n][i] == events[i];
    }
  }

  predicate Increasing(events: seq<nat>) { forall i, j :: 0 <= i < j < |events| ==> events[i] < events[j] }

  lemma LastIsNew(events: seq<nat>, n: nat)
    requires n < |events| && Increasing(events)
    ensures events[n] !in events[..n]
  {
  }

  lemma {:induction false} OfferingIsExact(r: Registry, t: Tables, events: seq<nat>, n: nat, succeeds: Succeeds,
                                           writes: nat -> bool)
    requires n <= |events| && Increasing(events) && forall i :: 0 <= i < |events| ==> events[i] < |t.rows|
    ensures OfferedSoFar(r, t, events, n, succeeds, writes, OfferAll(r, t, events, n, succeeds, writes).0)
    ensures OfferAll(r, t, events, n, succeeds, writes).1 == CountOf(events, n, Wanted(r, t, succeeds, writes))
  {
    if n > 0 {
      OfferingIsExact(r, t, events, n - 1, succeeds, writes);
      LastIsNew(events, n - 1);
      OneMoreOffered(r, t, events, n - 1, succeeds, writes, OfferAll(r, t, events, n - 1, succeeds, writes).0);
    }
  }

  /** The events of a table that wait, from one on, or the first few of them. */
  ghost predicate FirstOnes(rows: seq<Row>, from: nat, take: nat, events: seq<nat>) {
    && Increasing(events) && |events| <= take
    && (forall e :: e in events ==> from <= e < |rows| && rows[e].state == Pending)
    && (forall e :: from <= e < |rows| && rows[e].state == Pending && e !in events
                    ==> |events| == take && forall i :: 0 <= i < |events| ==> events[i] < e)
  }

  lemma OneBefore(rows: seq<Row>, from: nat, take: nat, rest: seq<nat>)
    requires from < |rows| && rows[from].state == Pending && take > 0 && FirstOnes(rows, from + 1, take - 1, rest)
    ensures FirstOnes(rows, from, take, [from] + rest)
  {
    var events := [from] + rest;
    forall i, j | 0 <= i < j < |events| ensures events[i] < events[j] {
      if i == 0 {
        assert events[j] == rest[j - 1] && rest[j - 1] in rest;
      }
    }
    forall e | from <= e < |rows| && rows[e].state == Pending && e !in events
      ensures |events| == take && forall i :: 0 <= i < |events| ==> events[i] < e
    {
      assert events[0] == from && e != from;
      assert forall i :: 1 <= i < |events| ==> events[i] == rest[i - 1];
      assert e !in rest;
    }
  }

  lemma OneSkipped(rows: seq<Row>, from: nat, take: nat, events: seq<nat>)
    requires from < |rows| && rows[from].state != Pending && FirstOnes(rows, from + 1, take, events)
    ensures FirstOnes(rows, from, take, events)
  {
  }

  lemma NoneTaken(rows: seq<Row>, from: nat, take: nat)
    requires from == |rows| || take == 0
    ensures FirstOnes(rows, from, take, [])
  {
  }

  /** The events offered are the first ones waiting, in their order, up to a batch. */
  lemma {:induction false} FirstWaiting(rows: seq<Row>, from: nat, take: nat)
    requires from <= |rows|
    ensures FirstOnes(rows, from, take, Waiting(rows, from, take))
    decreases |rows| - from
  {
    if from == |rows| || take == 0 {
      NoneTaken(rows, from, take);
    } else if rows[from].state == Pending {
      FirstWaiting(rows, from + 1, take - 1);
      OneBefore(rows, from, take, Waiting(rows, from + 1, take - 1));
    } else {
      FirstWaiting(rows, from + 1, take);
      OneSkipped(rows, from, take, Waiting(rows, from + 1, take));
    }
  }

  /** The events that a dispatch turned from waiting to dispatched. */
  function Turned(before: seq<Row>, after: seq<Row>): set<nat>
    requires |before| == |after|
  {
    set e: nat | 0 <= e < |before| && before[e].state != Dispatched && after[e].state == Dispatched
  }

  /** The first n events. */
  function FirstOf(events: seq<nat>, n: nat): set<nat>
    requires n <= |events|
  {
    if n == 0 then {} else FirstOf(events, n - 1) + {events[n - 1]}
  }

  lemma {:induction false} FirstOfTells(events: seq<nat>, n: nat, e: nat)
    requires n <= |events|
    ensures e in FirstOf(events, n) <==> exists i :: 0 <= i < n && events[i] == e
  {
    if n > 0 {
      FirstOfTells(events, n - 1, e);
    }
  }

  lemma {:induction false} CountsTheSet(events: seq<nat>, n: nat, wanted: set<nat>)
    requires n <= |events| && Increasing(events)
    ensures |wanted * FirstOf(events, n)| == CountOf(events, n, wanted)
  {
    if n > 0 {
      CountsTheSet(events, n - 1, wanted);
      FirstOfTells(events, n - 1, events[n - 1]);
      OneMoreCounted(FirstOf(events, n - 1), events[n - 1], wanted);
    }
  }

  lemma OneMoreCounted(front: set<nat>, event: nat, wanted: set<nat>)
    requires event !in front
    ensures |wanted * (front + {event})| == |wanted * front| + if event in wanted then 1 else 0
  {
    if event in wanted {
      assert wanted * (front + {event}) == wanted * front + {event};
    } else {
      assert wanted * (front + {event}) == wanted * front;
    }
  }

  lemma WantedAreTurned(r: Registry, t: Tables, events: seq<nat>, succeeds: Succeeds, writes: nat -> bool,
                        later: Tables)
    requires forall e :: e in events ==> e < |t.rows| && t.rows[e].state == Pending
    requires |later.rows| == |t.rows| && forall e :: 0 <= e < |t.rows| && e !in events ==> later.rows[e] == t.rows[e]
    requires forall e :: e in events ==> later.rows[e] == RowAfter(r, t, e, succeeds, writes)
    ensures Turned(t.rows, later.rows) == Wanted(r, t, succeeds, writes) * FirstOf(events, |events|)
  {
    var turned, wanted := Turned(t.rows, later.rows), Wanted(r, t, succeeds, writes);
    forall e: nat ensures e in turned <==> e in wanted && e in FirstOf(events, |events|) {
      FirstOfTells(events, |events|, e);
      if e in events {
        assert later.rows[e] == RowAfter(r, t, e, succeeds, writes);
      }
    }
  }

  /** A dispatch offers the first events waiting, up to a batch, and touches no other.
      Of those, each whose statement is written has had one attempt more: it is
      dispatched exactly when it can be handled whole, and else waits on, or is parked
      at the fifth. The count is of those that became dispatched. */
  lemma DispatchIsExact(r: Registry, t: Tables, batch: nat, succeeds: Succeeds, writes: nat -> bool)
    ensures var events := Waiting(t.rows, 0, batch);
            var after := OfferAll(r, t, events, |events|, succeeds, writes);
            && FirstOnes(t.rows, 0, batch, events)
            && |after.0.rows| == |t.rows|
            && (forall e :: 0 <= e < |t.rows| && e !in events ==> after.0.rows[e] == t.rows[e])
            && (forall e :: e in events ==> after.0.rows[e] == RowAfter(r, t, e, succeeds, writes))
            && after.1 == |Turned(t.rows, after.0.rows)|
  {
    var events := Waiting(t.rows, 0, batch);
    FirstWaiting(t.rows, 0, batch);
    var after := OfferAll(r, t, events, |events|, succeeds, writes);
    assert OfferedSoFar(r, t, events, |events|, succeeds, writes, after.0) by {
      OfferingIsExact(r, t, events, |events|, succeeds, writes);
    }
    assert events[..|events|] == events;
    forall e | e in events ensures after.0.rows[e] == RowAfter(r, t, e, succeeds, writes) {
      var i :| 0 <= i < |events| && events[i] == e;
    }
    assert after.1 == |Turned(t.rows, after.0.rows)| by {
      OfferingIsExact(r, t, events, |events|, succeeds, writes);
      CountsTheSet(events, |events|, Wanted(r, t, succeeds, writes));
      WantedAreTurned(r, t, events, succeeds, writes, after.0);
    }
  }
}
