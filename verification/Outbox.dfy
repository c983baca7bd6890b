/** Work handed over at least once and done once (internal/platform/outbox). A
    consumer's claim and its work commit or roll back together; whether its work
    succeeds is a parameter. */
module Outbox {
  import opened Base

  const ATTEMPTS_ALLOWED: nat := 5

  datatype EventState = Pending | Dispatched | Parked

  /** A row of outbox_event; an event is known by its place in the table. */
  datatype Row = Row(kind: string, state: EventState, attempts: nat)

  /** Which consumers, by name and in order, care about a kind of event. */
  type Registry = map<string, seq<string>>

  function For(r: Registry, kind: string): seq<string> { if kind in r then r[kind] else [] }

  /** The two tables, and the work that was committed, in order. */
  datatype Tables = Tables(rows: seq<Row>, claims: set<(nat, string)>, done: seq<(nat, string)>)

  /** One consumer's transaction: the claim, then its work, or nothing. */
  function Consume(t: Tables, event: nat, name: string, succeeds: bool): (Tables, bool) {
    if (event, name) in t.claims then (t, true)
    else if !succeeds then (t, false)
    else (t.(claims := t.claims + {(event, name)}, done := t.done + [(event, name)]), true)
  }

  /** Which consumers' work would succeed. */
  type Succeeds = (nat, string) -> bool

  datatype Reply = Delivered | UnknownKind | Failed(consumer: string)

  /** What is left of a delivery from its k-th consumer on. */
  function DeliverFrom(t: Tables, event: nat, names: seq<string>, k: nat, succeeds: Succeeds): (Tables, Reply)
    requires k <= |names|
    decreases |names| - k
  {
    if k == |names| then (t, Delivered)
    else
      var one := Consume(t, event, names[k], succeeds(event, names[k]));
      if one.1 then DeliverFrom(one.0, event, names, k + 1, succeeds) else (one.0, Failed(names[k]))
  }

  function Deliver(r: Registry, t: Tables, event: nat, kind: string, succeeds: Succeeds): (Tables, Reply) {
    var names := For(r, kind);
    if names == [] then (t, UnknownKind) else DeliverFrom(t, event, names, 0, succeeds)
  }

  /** outbox_pending: the oldest events waiting, up to a batch. */
  function Waiting(rows: seq<Row>, from: nat, take: nat): (events: seq<nat>)
    requires from <= |rows|
    ensures forall i :: 0 <= i < |events| ==> from <= events[i] < |rows| && rows[events[i]].state == Pending
    ensures |events| <= take
    decreases |rows| - from
  {
    if from == |rows| || take == 0 then []
    else if rows[from].state == Pending then [from] + Waiting(rows, from + 1, take - 1)
    else Waiting(rows, from + 1, take)
  }

  /** outbox_dispatched. */
  function Marked(t: Tables, event: nat): Tables
    requires event < |t.rows|
  {
    t.(rows := t.rows[event := t.rows[event].(state := Dispatched, attempts := t.rows[event].attempts + 1)])
  }

  /** outbox_failed: tried again while attempts are left, and parked after that. */
  function Refused(t: Tables, event: nat): Tables
    requires event < |t.rows|
  {
    var attempts := t.rows[event].attempts + 1;
    var state := if attempts >= ATTEMPTS_ALLOWED then Parked else Pending;
    t.(rows := t.rows[event := t.rows[event].(attempts := attempts, state := state)])
  }

  /** One event of a dispatch: delivered inline, and marked or recorded as failed
      when that statement works. */
  function Offer(r: Registry, t: Tables, event: nat, succeeds: Succeeds, writes: nat -> bool): (Tables, nat)
    requires event < |t.rows|
  {
    var delivered := Deliver(r, t, event, t.rows[event].kind, succeeds);
    DeliveryKeepsRows(r, t, event, t.rows[event].kind, succeeds);
    if !writes(event) then (delivered.0, 0)
    else if delivered.1.Delivered? then (Marked(delivered.0, event), 1)
    else (Refused(delivered.0, event), 0)
  }

  function OfferAll(r: Registry, t: Tables, events: seq<nat>, n: nat, succeeds: Succeeds,
                    writes: nat -> bool): (s: (Tables, nat))
    requires n <= |events| && forall i :: 0 <= i < |events| ==> events[i] < |t.rows|
    ensures |s.0.rows| == |t.rows|
  {
    if n == 0 then (t, 0)
    else
      var before := OfferAll(r, t, events, n - 1, succeeds, writes);
      var one := Offer(r, before.0, events[n - 1], succeeds, writes);
      DeliveryKeepsRows(r, before.0, events[n - 1], before.0.rows[events[n - 1]].kind, succeeds);
      (one.0, before.1 + one.1)
  }

  lemma {:induction false} DeliveryFromKeepsRows(t: Tables, event: nat, names: seq<string>, k: nat, succeeds: Succeeds)
    requires k <= |names|
    ensures DeliverFrom(t, event, names, k, succeeds).0.rows == t.rows
    decreases |names| - k
  {
    if k < |names| {
      DeliveryFromKeepsRows(Consume(t, event, names[k], succeeds(event, names[k])).0, event, names, k + 1, succeeds);
    }
  }

  lemma DeliveryKeepsRows(r: Registry, t: Tables, event: nat, kind: string, succeeds: Succeeds)
    ensures Deliver(r, t, event, kind, succeeds).0.rows == t.rows
  {
    if For(r, kind) != [] {
      DeliveryFromKeepsRows(t, event, For(r, kind), 0, succeeds);
    }
  }

  class Worker {
    var consumers: Registry
    var rows: seq<Row>
    var claims: set<(nat, string)>
    ghost var done: seq<(nat, string)>

    constructor ()
      ensures consumers == map[] && Contents() == Tables([], {}, [])
    {
      consumers, rows, claims, done := map[], [], {}, [];
    }

    ghost function Contents(): Tables
      reads this
    {
      Tables(rows, claims, done)
    }

    /** On registers a consumer for a kind of event, after those it has. */
    method On(kind: string, name: string)
      modifies `consumers
      ensures consumers == old(consumers)[kind := For(old(consumers), kind) + [name]]
    {
      if kind !in consumers {
        consumers := consumers[kind := []];
      }
      consumers := consumers[kind := consumers[kind] + [name]];
    }

    /** Write, in the transaction that caused the event. */
    method Write(kind: string) returns (event: nat)
      modifies `rows
      ensures event == |old(rows)| && rows == old(rows) + [Row(kind, Pending, 0)]
    {
      event := |rows|;
      rows := rows + [Row(kind, Pending, 0)];
    }

    /** claim: whether this consumer is the first to handle this event. */
    method Claim(event: nat, name: string) returns (claimed: bool)
      modifies `claims
      ensures claimed <==> (event, name) !in old(claims)
      ensures claims == old(claims) + {(event, name)}
    {
      claimed := (event, name) !in claims;
      claims := claims + {(event, name)};
    }

    method HandleOnce(event: nat, name: string, succeeds: bool) returns (ok: bool)
      modifies `claims, `done
      ensures (Contents(), ok) == Consume(old(Contents()), event, name, succeeds)
    {
      var before := claims;
      var claimed := Claim(event, name);
      if !claimed {
        assert claims == before;
        return true;
      }
      if !succeeds {
        claims := before;
        return false;
      }
      done := done + [(event, name)];
      return true;
    }

    method DeliverEvent(event: nat, kind: string, succeeds: Succeeds) returns (reply: Reply)
      modifies `claims, `done
      ensures (Contents(), reply) == Deliver(consumers, old(Contents()), event, kind, succeeds)
    {
      var names := For(consumers, kind);
      if |names| == 0 {
        return UnknownKind;
      }
      for k := 0 to |names|
        invariant DeliverFrom(old(Contents()), event, names, 0, succeeds)
                  == DeliverFrom(Contents(), event, names, k, succeeds)
      {
        var ok := HandleOnce(event, names[k], succeeds(event, names[k]));
        if !ok {
          return Failed(names[k]);
        }
      }
      return Delivered;
    }

    /** Dispatch offers every event waiting, up to a batch, and counts those that
        were handed over and marked. */
    method Dispatch(batch: nat, succeeds: Succeeds, writes: nat -> bool) returns (dispatched: nat)
      modifies `rows, `claims, `done
      ensures var events := Waiting(old(rows), 0, batch);
              (Contents(), dispatched) == OfferAll(consumers, old(Contents()), events, |events|, succeeds, writes)
    {
      var events := Waiting(rows, 0, batch);
      dispatched := 0;
      for i := 0 to |events|
        invariant (Contents(), dispatched) == OfferAll(consumers, old(Contents()), events, i, succeeds, writes)
      {
        var marked := OfferEvent(events[i], succeeds, writes);
        dispatched := dispatched + marked;
      }
    }

    /** One event of a batch. */
    method OfferEvent(event: nat, succeeds: Succeeds, writes: nat -> bool) returns (marked: nat)
      requires event < |rows|
      modifies `rows, `claims, `done
      ensures (Contents(), marked) == Offer(consumers, old(Contents()), event, succeeds, writes)
    {
      DeliveryKeepsRows(consumers, Contents(), event, rows[event].kind, succeeds);
      var reply := DeliverEvent(event, rows[event].kind, succeeds);
      if !writes(event) {
        return 0;
      }
      var attempts := rows[event].attempts + 1;
      if reply.Delivered? {
        rows := rows[event := rows[event].(state := Dispatched, attempts := attempts)];
        return 1;
      }
      var state := if attempts >= ATTEMPTS_ALLOWED then Parked else Pending;
      rows := rows[event := rows[event].(attempts := attempts, state := state)];
      return 0;
    }
  }
}
