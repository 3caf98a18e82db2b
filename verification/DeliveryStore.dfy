/** The delivery tables as the adapter updates them, one row per destination and event. */
module DeliveryStore {
  import opened Base
  import opened Ordering
  import opened Delivery

  // Identifiers are compared as canonical uuid text, whose order is that of the uuids.
  datatype Ref = Ref(table: string, id: string)

  predicate RefLe(a: Ref, b: Ref) {
    if a.table != b.table then LexLe(a.table, b.table) else LexLe(a.id, b.id)
  }

  predicate RefLt(a: Ref, b: Ref) {
    a != b && RefLe(a, b)
  }

  lemma RefOrder(a: Ref, b: Ref, c: Ref)
    ensures RefLe(a, b) || RefLe(b, a)
    ensures RefLe(a, b) && RefLe(b, c) ==> RefLe(a, c)
    ensures RefLe(a, b) && RefLe(b, a) ==> a == b
  {
    LexTotal(a.table, b.table);
    LexTotal(a.id, b.id);
    if LexLe(a.table, b.table) && LexLe(b.table, c.table) {
      LexTransitive(a.table, b.table, c.table);
    }
    if LexLe(a.id, b.id) && LexLe(b.id, c.id) {
      LexTransitive(a.id, b.id, c.id);
    }
    if LexLe(a.table, b.table) && LexLe(b.table, a.table) {
      LexAntisymmetric(a.table, b.table);
    }
    if LexLe(b.table, c.table) && LexLe(c.table, b.table) {
      LexAntisymmetric(b.table, c.table);
    }
    if LexLe(a.id, b.id) && LexLe(b.id, a.id) {
      LexAntisymmetric(a.id, b.id);
    }
  }

  lemma RefLtTransitive(a: Ref, b: Ref, c: Ref)
    requires RefLt(a, b) && RefLt(b, c)
    ensures RefLt(a, c)
  {
    RefOrder(a, b, c);
    RefOrder(b, a, c);
  }

  ghost predicate Ascending(refs: seq<Ref>) {
    forall i, j | 0 <= i < j < |refs| :: RefLt(refs[i], refs[j])
  }

  type Rows = map<(string, Ref), Row>

  function RowOf(rows: Rows, destination: string, ref: Ref): Option<Row> {
    if (destination, ref) in rows then Some(rows[(destination, ref)]) else None
  }

  predicate Undelivered(rows: Rows, destination: string, ref: Ref) {
    RowOf(rows, destination, ref).None? || RowOf(rows, destination, ref).value.delivered.None?
  }

  /** What is left to deliver to one destination. */
  function CountUndelivered(rows: Rows, destination: string, refs: seq<Ref>): nat {
    if refs == [] then 0
    else
      CountUndelivered(rows, destination, refs[..|refs| - 1])
      + (if Undelivered(rows, destination, refs[|refs| - 1]) then 1 else 0)
  }

  /** The first `limit` available events after the cursor, in order, with no gap. */
  ghost predicate IsPage(
    events: seq<Ref>, rows: Rows, now: Time, destination: string, after: Ref, limit: nat, refs: seq<Ref>)
  {
    && |refs| <= limit && Ascending(refs)
    && (forall r | r in refs :: r in events && RefLt(after, r) && Available(RowOf(rows, destination, r), now))
    && (forall e | e in events && RefLt(after, e) && Available(RowOf(rows, destination, e), now) ::
          e in refs || (|refs| == limit && forall r | r in refs :: RefLt(r, e)))
  }

  // ---- the steps of a store ------------------------------------------------

  datatype Tables = Tables(events: set<Ref>, rows: Rows, now: Time)

  datatype Step =
    | Append(ref: Ref)
    | Pass(to: Time)
    | ClaimStep(destination: string, ref: Ref, nonce: Uuid, lease: int, force: bool)
    | DeliveredStep(destination: string, ref: Ref, nonce: Uuid)
    | FailedStep(destination: string, ref: Ref, nonce: Uuid, delay: int)

  function Updated(t: Tables, destination: string, ref: Ref, row: Option<Row>): Tables {
    if row.Some? then t.(rows := t.rows[(destination, ref) := row.value]) else t
  }

  function Take(t: Tables, s: Step): Tables {
    match s
    case Append(ref) => t.(events := t.events + {ref})
    case Pass(to) => t.(now := Max(t.now, to))
    case ClaimStep(d, ref, nonce, lease, force) =>
      if ref in t.events then Updated(t, d, ref, Claimed(RowOf(t.rows, d, ref), nonce, t.now, lease, force)) else t
    case DeliveredStep(d, ref, nonce) => Updated(t, d, ref, MarkedDelivered(RowOf(t.rows, d, ref), nonce, t.now))
    case FailedStep(d, ref, nonce, delay) =>
      Updated(t, d, ref, MarkedFailed(RowOf(t.rows, d, ref), nonce, t.now, delay))
  }

  /** The tables after the steps, from empty ones at time `born`. */
  function After(born: Time, steps: seq<Step>): Tables {
    if steps == [] then Tables({}, map[], born) else Take(After(born, steps[..|steps| - 1]), steps[|steps| - 1])
  }

  lemma AfterThen(born: Time, steps: seq<Step>, s: Step)
    ensures After(born, steps + [s]) == Take(After(born, steps), s)
  {
    assert (steps + [s])[..|steps + [s]| - 1] == steps;
  }

  class Store {
    var events: seq<Ref>         // the outbox, in key order
    var rows: Rows
    var now: Time
    var used: set<Uuid>
    ghost var born: Time
    ghost var steps: seq<Step>

    constructor (now: Time)
      ensures Valid() && events == [] && rows == map[] && this.now == now && steps == []
    {
      events, rows, used := [], map[], {};
      this.now := now;
      born, steps := now, [];
    }

    /** The outbox is in key order, and the tables are what the steps taken so far lead to. */
    ghost predicate Valid()
      reads this
    {
      && Ascending(events) && (forall r | r in events :: r.table != "")
      && After(born, steps) == Tables((set r | r in events), rows, now)
    }

    method Advance(to: Time)
      requires Valid()
      modifies this`now, this`steps
      ensures Valid() && now == Max(old(now), to) && steps == old(steps) + [Pass(to)]
    {
      AfterThen(born, steps, Pass(to));
      now := Max(now, to);
      steps := steps + [Pass(to)];
    }

    method DrawNonce() returns (nonce: Uuid)
      modifies this`used
      ensures nonce !in old(used) && used == old(used) + {nonce}
    {
      nonce := NewLeaseNonce(used);
      used := used + {nonce};
    }

    method ClaimEvent(destination: string, ref: Ref, nonce: Uuid, lease: int, force: bool)
      returns (attempt: nat, claimed: bool)
      requires Valid()
      modifies this`rows, this`steps
      ensures Valid() && steps == old(steps) + [ClaimStep(destination, ref, nonce, lease, force)]
      ensures claimed <==> ref in events && Claimed(RowOf(old(rows), destination, ref), nonce, now, lease, force).Some?
      ensures claimed ==>
                var row := Claimed(RowOf(old(rows), destination, ref), nonce, now, lease, force).value;
                rows == old(rows)[(destination, ref) := row] && attempt == row.attempts
      ensures !claimed ==> rows == old(rows) && attempt == 0
    {
      AfterThen(born, steps, ClaimStep(destination, ref, nonce, lease, force));
      steps := steps + [ClaimStep(destination, ref, nonce, lease, force)];
      if ref !in events {
        return 0, false;
      }
      var row := Claimed(RowOf(rows, destination, ref), nonce, now, lease, force);
      if row.None? {
        return 0, false;
      }
      rows := rows[(destination, ref) := row.value];
      return row.value.attempts, true;
    }

    method MarkEventDelivered(destination: string, ref: Ref, nonce: Uuid) returns (ok: bool)
      requires Valid()
      modifies this`rows, this`steps
      ensures Valid() && steps == old(steps) + [DeliveredStep(destination, ref, nonce)]
      ensures ok <==> Holds(RowOf(old(rows), destination, ref), nonce)
      ensures var marked := MarkedDelivered(RowOf(old(rows), destination, ref), nonce, now);
              rows == if ok then old(rows)[(destination, ref) := marked.value] else old(rows)
    {
      AfterThen(born, steps, DeliveredStep(destination, ref, nonce));
      steps := steps + [DeliveredStep(destination, ref, nonce)];
      var row := MarkedDelivered(RowOf(rows, destination, ref), nonce, now);
      if row.Some? {
        rows := rows[(destination, ref) := row.value];
      }
      return row.Some?;
    }

    method MarkEventFailed(destination: string, ref: Ref, nonce: Uuid, delay: int) returns (ok: bool)
      requires Valid()
      modifies this`rows, this`steps
      ensures Valid() && steps == old(steps) + [FailedStep(destination, ref, nonce, delay)]
      ensures ok <==> Holds(RowOf(old(rows), destination, ref), nonce)
      ensures var marked := MarkedFailed(RowOf(old(rows), destination, ref), nonce, now, delay);
              rows == if ok then old(rows)[(destination, ref) := marked.value] else old(rows)
    {
      AfterThen(born, steps, FailedStep(destination, ref, nonce, delay));
      steps := steps + [FailedStep(destination, ref, nonce, delay)];
      var row := MarkedFailed(RowOf(rows, destination, ref), nonce, now, delay);
      if row.Some? {
        rows := rows[(destination, ref) := row.value];
      }
      return row.Some?;
    }

    method PendingEvents(destination: string, after: Ref, limit: nat) returns (refs: seq<Ref>)
      requires Valid() && limit > 0
      ensures IsPage(events, rows, now, destination, after, limit, refs)
    {
      refs := [];
      for i := 0 to |events|
        invariant |refs| <= limit && Ascending(refs)
        invariant forall r | r in refs ::
                    r in events[..i] && RefLt(after, r) && Available(RowOf(rows, destination, r), now)
        invariant forall e | e in events[..i] && RefLt(after, e) && Available(RowOf(rows, destination, e), now) ::
                    e in refs || (|refs| == limit && forall r | r in refs :: RefLt(r, e))
      {
        var e := events[i];
        assert events[..i + 1] == events[..i] + [e];
        assert forall r | r in events[..i] :: RefLt(r, e);
        if |refs| < limit && RefLt(after, e) && Available(RowOf(rows, destination, e), now) {
          refs := refs + [e];
        }
      }
      assert events[..|events|] == events;
    }

    method CountPendingEvents(destination: string) returns (count: nat)
      ensures count == CountUndelivered(rows, destination, events)
    {
      count := 0;
      for i := 0 to |events|
        invariant count == CountUndelivered(rows, destination, events[..i])
      {
        assert events[..i + 1][..i] == events[..i];
        if Undelivered(rows, destination, events[i]) {
          count := count + 1;
        }
      }
      assert events[..|events|] == events;
    }

    /** A new integration event, appended by the trigger of some fact. */
    method AppendEvent(ref: Ref)
      requires Valid() && ref.table != ""
      modifies this`events, this`steps
      ensures Valid() && steps == old(steps) + [Append(ref)]
      ensures forall e :: e in events <==> e in old(events) || e == ref
    {
      AfterThen(born, steps, Append(ref));
      steps := steps + [Append(ref)];
      if ref in events {
        AlreadyThere(events, ref);
        return;
      }
      var i := 0;
      while i < |events| && RefLt(events[i], ref)
        invariant 0 <= i <= |events| && forall j | 0 <= j < i :: RefLt(events[j], ref)
      {
        i := i + 1;
      }
      InsertAscends(events, i, ref);
      InsertAdds(events, i, ref);
      events := events[..i] + [ref] + events[i..];
    }
  }

  lemma AlreadyThere(events: seq<Ref>, ref: Ref)
    requires ref in events
    ensures (set r | r in events) + {ref} == (set r | r in events)
  {
  }

  lemma InsertAdds(events: seq<Ref>, i: nat, ref: Ref)
    requires i <= |events|
    ensures var more := events[..i] + [ref] + events[i..];
            && (forall r :: r in more <==> r in events || r == ref)
            && (set r | r in more) == (set r | r in events) + {ref}
  {
    var more := events[..i] + [ref] + events[i..];
    assert events == events[..i] + events[i..];
    assert forall r :: r in more <==> r in events || r == ref;
  }

  lemma InsertAscends(events: seq<Ref>, i: nat, ref: Ref)
    requires Ascending(events) && i <= |events| && ref !in events
    requires forall j | 0 <= j < i :: RefLt(events[j], ref)
    requires i < |events| ==> !RefLt(events[i], ref)
    ensures Ascending(events[..i] + [ref] + events[i..])
  {
    forall j | i <= j < |events| ensures RefLt(ref, events[j]) {
      RefOrder(events[i], ref, ref);
      assert events[i] in events;
      if i < j {
        RefLtTransitive(ref, events[i], events[j]);
      }
    }
  }
}
