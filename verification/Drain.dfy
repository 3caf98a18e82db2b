/**
Draining the outbox: for each destination, page after page behind a strictly
advancing cursor, claim, publish and mark every event that is available.

`alone` says that nobody else touches the tables and no statement fails during
the drain; without it other dispatchers run between any two statements, new
events appear, and the context ends after `patience` pages.
 */
module Drain {
  import opened Base
  import opened Ordering
  import opened Delivery
  import opened DeliveryStore
  import RetryDelay

  const PAGE := 100

  datatype Summary = Summary(attempted: nat, delivered: nat, failed: nat, remaining: nat)

  datatype Failure = NoPublishers | UnknownDestination | StoreFailed | ContextDone

  // One claimed event and what became of it.
  datatype Try = Try(destination: string, ref: Ref, delivered: bool)

  function Deliveries(trace: seq<Try>): nat {
    if trace == [] then 0
    else Deliveries(trace[..|trace| - 1]) + (if trace[|trace| - 1].delivered then 1 else 0)
  }

  /** The summary counts the trace. */
  ghost predicate Tallies(s: Summary, trace: seq<Try>) {
    s.attempted == |trace| && s.delivered == Deliveries(trace) && s.attempted == s.delivered + s.failed
  }

  /** Events are tried in ascending order for each destination, hence none twice. */
  ghost predicate NoneTwice(trace: seq<Try>) {
    forall i, j | 0 <= i < j < |trace| ::
      trace[i].destination == trace[j].destination ==> RefLt(trace[i].ref, trace[j].ref)
  }

  ghost predicate Tried(trace: seq<Try>, destination: string, ref: Ref) {
    exists t :: t in trace && t.destination == destination && t.ref == ref
  }

  ghost predicate DeliveredStay(rows: Rows, more: Rows) {
    forall d, r | !Undelivered(rows, d, r) :: !Undelivered(more, d, r)
  }

  // What the publisher of a destination answers for an event during the drain.
  type Publishes = (string, Ref) -> bool

  /**
  Everything the trace reports as delivered is, after a successful publish;
  undisturbed, every successful publish is reported.
   */
  ghost predicate Honoured(rows: Rows, trace: seq<Try>, publishes: Publishes, alone: bool) {
    forall t | t in trace ::
      && (t.delivered ==> !Undelivered(rows, t.destination, t.ref) && publishes(t.destination, t.ref))
      && (alone && publishes(t.destination, t.ref) ==> t.delivered)
  }

  /** Every claim since then asked for the publish limit and the margin. */
  ghost predicate LeasesKept(a: seq<Step>, b: seq<Step>, publishLimit: int) {
    a <= b && forall i | |a| <= i < |b| && b[i].ClaimStep? :: b[i].lease == publishLimit + MARGIN
  }

  lemma LeasesKeptThen(a: seq<Step>, b: seq<Step>, c: seq<Step>, publishLimit: int)
    requires LeasesKept(a, b, publishLimit) && LeasesKept(b, c, publishLimit)
    ensures LeasesKept(a, c, publishLimit)
  {
    forall i | |a| <= i < |b| ensures c[i] == b[i] {
    }
  }

  // ---- other dispatchers ---------------------------------------------------

  /** Other dispatchers, which share the configuration, take any steps. */
  method OthersDeliver(store: Store, publishLimit: int)
    requires store.Valid()
    modifies store
    ensures store.Valid() && DeliveredStay(old(store.rows), store.rows) && store.now >= old(store.now)
    ensures LeasesKept(old(store.steps), store.steps, publishLimit)
  {
    var steps: int := *;
    for i := 0 to Max(0, steps)
      invariant store.Valid() && DeliveredStay(old(store.rows), store.rows) && store.now >= old(store.now)
      invariant LeasesKept(old(store.steps), store.steps, publishLimit)
    {
      var destination: string := *;
      var ref := AnyRef();
      var nonce: Uuid := *;
      var amount: int := *;
      if {
        case true => store.Advance(amount);
        case true => store.AppendEvent(ref);
        case true =>
          var force: bool := *;
          var fresh' := store.DrawNonce();
          var _, _ := store.ClaimEvent(destination, ref, fresh', publishLimit + MARGIN, force);
        case true => var _ := store.MarkEventDelivered(destination, ref, nonce);
        case true => var _ := store.MarkEventFailed(destination, ref, nonce, amount);
      }
    }
  }

  method AnyRef() returns (ref: Ref)
    ensures ref.table != ""
  {
    var table: string := *;
    var id: string := *;
    return Ref("integration" + table, id);
  }

  // ---- one event -----------------------------------------------------------

  ghost predicate OnlyAt(rows: Rows, more: Rows, destination: string, ref: Ref) {
    forall d, r | d != destination || r != ref :: RowOf(more, d, r) == RowOf(rows, d, r)
  }

  /**
  What one undisturbed attempt does: it takes an event that is available at some
  moment of the call, counts the attempt, and leaves the row delivered or
  released for later; it changes no other row, and nothing if it took none.
   */
  ghost predicate Undisturbed(
    rows: Rows, now: Time, more: Rows, later: Time, destination: string, ref: Ref, delivered: bool, attempted: bool,
    failed: bool)
  {
    var before, after := RowOf(rows, destination, ref), RowOf(more, destination, ref);
    && OnlyAt(rows, more, destination, ref)
    && (Available(before, now) ==> attempted)
    && (failed ==> attempted)
    && (attempted ==> Undelivered(rows, destination, ref) && Settled(before, now, after, later, ref, delivered))
    && (!attempted ==> after == before && !delivered)
  }

  /** One more attempt is counted, and the lease is gone. */
  predicate Settled(before: Option<Row>, now: Time, after: Option<Row>, later: Time, ref: Ref, delivered: bool) {
    && after.Some?
    && after.value.attempts == (if before.None? then 1 else before.value.attempts + 1)
    && after.value.nonce.None? && after.value.lease.None?
    && (after.value.delivered.Some? <==> delivered)
    && (if delivered then now <= after.value.delivered.value <= later
        else now <= after.value.nextAttempt - BackoffOf(after.value.attempts, ref) <= later)
  }

  /** How long, in microseconds, an event waits after its n-th failed attempt. */
  function BackoffOf(attempts: nat, ref: Ref): int {
    RetryDelay.DelayFor(attempts, RetryDelay.Fnv(ref.table + "\0" + ref.id)) / 1000
  }

  // Three quarters of a second: no retry comes sooner.
  const MIN_BACKOFF := 750_000

  /** publishOne with force. */
  method PublishOne(store: Store, destination: string, ref: Ref, publishes: Publishes, publishLimit: int, alone: bool)
    returns (delivered: bool, attempted: bool, failed: bool)
    requires store.Valid() && (alone ==> ref in store.events)
    modifies store
    ensures store.Valid() && DeliveredStay(old(store.rows), store.rows) && store.now >= old(store.now)
    ensures LeasesKept(old(store.steps), store.steps, publishLimit)
    ensures delivered ==> attempted && !failed
    ensures delivered ==> !Undelivered(store.rows, destination, ref) && publishes(destination, ref)
    ensures attempted && !delivered ==> failed
    ensures alone && attempted && publishes(destination, ref) ==> delivered
    ensures alone ==> store.events == old(store.events)
    ensures alone ==>
              Undisturbed(
                old(store.rows), old(store.now), store.rows, store.now, destination, ref, delivered, attempted, failed)
  {
    ghost var rows, now, start := store.rows, store.now, store.steps;
    var claimed, errored, nonce, attempt := TakeClaim(store, destination, ref, publishLimit, alone);
    if !claimed {
      return false, false, errored;
    }
    ghost var mid, midTime, granted := store.rows, store.now, store.steps;
    delivered := PublishAndMark(store, destination, ref, nonce, attempt, publishes, publishLimit, alone);
    LeasesKeptThen(start, granted, store.steps, publishLimit);
    if alone {
      TakenThenMarked(rows, now, mid, midTime, store.rows, store.now, destination, ref, attempt, delivered);
    }
    return delivered, true, !delivered;
  }

  /** An undisturbed claim took the event: nothing else changed, and one more attempt is counted. */
  ghost predicate Taken(rows: Rows, mid: Rows, destination: string, ref: Ref, attempt: nat) {
    var before, after := RowOf(rows, destination, ref), RowOf(mid, destination, ref);
    && OnlyAt(rows, mid, destination, ref) && Undelivered(rows, destination, ref)
    && after.Some? && after.value.attempts == attempt
    && attempt == (if before.None? then 1 else before.value.attempts + 1)
  }

  /** Claims the event by force, for the publish limit and the margin. */
  method TakeClaim(store: Store, destination: string, ref: Ref, publishLimit: int, alone: bool)
    returns (claimed: bool, errored: bool, nonce: Uuid, attempt: nat)
    requires store.Valid() && (alone ==> ref in store.events)
    modifies store
    ensures store.Valid() && DeliveredStay(old(store.rows), store.rows) && store.now >= old(store.now)
    ensures LeasesKept(old(store.steps), store.steps, publishLimit)
    ensures claimed ==> !errored && Holds(RowOf(store.rows, destination, ref), nonce)
    ensures alone ==> !errored && store.events == old(store.events)
    ensures alone && Available(RowOf(old(store.rows), destination, ref), old(store.now)) ==> claimed
    ensures alone && claimed ==> Taken(old(store.rows), store.rows, destination, ref, attempt)
    ensures alone && !claimed ==> store.rows == old(store.rows)
  {
    nonce, attempt := 0, 0;
    ghost var start := store.steps;
    TimePasses(store, publishLimit, alone);
    if !alone {
      if * {
        return false, true, nonce, attempt;
      }
    }
    ghost var before := store.steps;
    claimed, nonce, attempt := ForceClaim(store, destination, ref, publishLimit);
    LeasesKeptThen(start, before, store.steps, publishLimit);
    return claimed, false, nonce, attempt;
  }

  /** The clock moves on, and unless the drain is alone others take their steps. */
  method TimePasses(store: Store, publishLimit: int, alone: bool)
    requires store.Valid()
    modifies store
    ensures store.Valid() && DeliveredStay(old(store.rows), store.rows) && store.now >= old(store.now)
    ensures LeasesKept(old(store.steps), store.steps, publishLimit)
    ensures alone ==> store.events == old(store.events) && store.rows == old(store.rows)
  {
    ghost var start := store.steps;
    var to: Time := *;
    store.Advance(to);
    if !alone {
      ghost var before := store.steps;
      OthersDeliver(store, publishLimit);
      LeasesKeptThen(start, before, store.steps, publishLimit);
    }
  }

  method ForceClaim(store: Store, destination: string, ref: Ref, publishLimit: int)
    returns (claimed: bool, nonce: Uuid, attempt: nat)
    requires store.Valid()
    modifies store`rows, store`steps, store`used
    ensures store.Valid() && DeliveredStay(old(store.rows), store.rows)
    ensures LeasesKept(old(store.steps), store.steps, publishLimit)
    ensures claimed <==> ref in store.events && Available(RowOf(old(store.rows), destination, ref), store.now)
    ensures claimed ==> Holds(RowOf(store.rows, destination, ref), nonce)
    ensures claimed ==> Taken(old(store.rows), store.rows, destination, ref, attempt)
    ensures !claimed ==> store.rows == old(store.rows)
  {
    nonce := store.DrawNonce();
    attempt, claimed := store.ClaimEvent(destination, ref, nonce, publishLimit + MARGIN, true);
  }

  lemma TakenThenMarked(
    rows: Rows, now: Time, mid: Rows, midTime: Time, more: Rows, later: Time, destination: string, ref: Ref,
    attempt: nat, delivered: bool)
    requires Taken(rows, mid, destination, ref, attempt) && OnlyAt(mid, more, destination, ref)
    requires MarkedAs(RowOf(mid, destination, ref), RowOf(more, destination, ref), later, attempt, ref, delivered)
    requires now <= midTime <= later
    ensures Undisturbed(rows, now, more, later, destination, ref, delivered, true, !delivered)
  {
  }

  /** What the mark of a held row leaves: delivered now, or released to wait for its backoff; the lease is gone. */
  predicate MarkedAs(before: Option<Row>, after: Option<Row>, now: Time, attempt: nat, ref: Ref, delivered: bool) {
    && before.Some? && after.Some? && after.value.attempts == before.value.attempts
    && after.value.nonce.None? && after.value.lease.None?
    && (if delivered then after.value.delivered == Some(now)
        else after.value.delivered.None? && after.value.nextAttempt == now + BackoffOf(attempt, ref))
  }

  /** Marks according to what the publisher answered. */
  method MarkAnswered(store: Store, destination: string, ref: Ref, nonce: Uuid, attempt: nat, published: bool)
    returns (delivered: bool)
    requires store.Valid()
    modifies store`rows, store`steps
    ensures store.Valid() && old(store.steps) <= store.steps
    ensures forall i | |old(store.steps)| <= i < |store.steps| :: !store.steps[i].ClaimStep?
    ensures OnlyAt(old(store.rows), store.rows, destination, ref)
    ensures delivered <==> published && Holds(RowOf(old(store.rows), destination, ref), nonce)
    ensures var before, after := RowOf(old(store.rows), destination, ref), RowOf(store.rows, destination, ref);
            if Holds(before, nonce) then MarkedAs(before, after, store.now, attempt, ref, published)
            else after == before
  {
    if published {
      delivered := store.MarkEventDelivered(destination, ref, nonce);
    } else {
      var micros := Backoff(attempt, ref);
      var _ := store.MarkEventFailed(destination, ref, nonce, micros);
      delivered := false;
    }
  }

  /** From the granted claim on: load, publish, and mark accordingly. */
  method PublishAndMark(
    store: Store, destination: string, ref: Ref, nonce: Uuid, attempt: nat, publishes: Publishes, publishLimit: int,
    alone: bool)
    returns (delivered: bool)
    requires store.Valid() && (alone ==> Holds(RowOf(store.rows, destination, ref), nonce))
    modifies store
    ensures store.Valid() && DeliveredStay(old(store.rows), store.rows) && store.now >= old(store.now)
    ensures delivered ==> !Undelivered(store.rows, destination, ref) && publishes(destination, ref)
    ensures LeasesKept(old(store.steps), store.steps, publishLimit)
    ensures alone ==> store.events == old(store.events) && OnlyAt(old(store.rows), store.rows, destination, ref)
    ensures alone ==> delivered == publishes(destination, ref)
    ensures alone ==>
              MarkedAs(
                RowOf(old(store.rows), destination, ref), RowOf(store.rows, destination, ref), store.now, attempt, ref,
                delivered)
  {
    ghost var start := store.steps;
    TimePasses(store, publishLimit, alone);
    if !alone {
      if * {
        return false;
      }
    }
    ghost var before := store.steps;
    delivered := MarkAnswered(store, destination, ref, nonce, attempt, publishes(destination, ref));
    LeasesKeptThen(start, before, store.steps, publishLimit);
    if !alone {
      // The mark may commit and its acknowledgement be lost.
      if * {
        return false;
      }
    }
  }

  /** The retry delay in whole microseconds. */
  method Backoff(attempt: nat, ref: Ref) returns (micros: int)
    ensures micros == BackoffOf(attempt, ref) && MIN_BACKOFF <= micros <= 300_000_000
  {
    var delay := RetryDelay.RetryDelay(attempt, ref.table, ref.id);
    RetryDelay.DelayBounds(attempt, RetryDelay.Fnv(ref.table + "\0" + ref.id));
    micros := delay / 1000;
  }

  // ---- counting what is left -----------------------------------------------

  lemma {:induction false} CountSame(rows: Rows, more: Rows, destination: string, refs: seq<Ref>)
    requires forall r | r in refs :: Undelivered(more, destination, r) <==> Undelivered(rows, destination, r)
    ensures CountUndelivered(more, destination, refs) == CountUndelivered(rows, destination, refs)
  {
    if refs != [] {
      CountSame(rows, more, destination, refs[..|refs| - 1]);
    }
  }

  /** Delivering one event leaves one fewer. */
  lemma {:induction false} CountDrops(rows: Rows, more: Rows, destination: string, refs: seq<Ref>, ref: Ref)
    requires Ascending(refs) && ref in refs && OnlyAt(rows, more, destination, ref)
    requires Undelivered(rows, destination, ref) && !Undelivered(more, destination, ref)
    ensures CountUndelivered(rows, destination, refs) == CountUndelivered(more, destination, refs) + 1
  {
    var init, last := refs[..|refs| - 1], refs[|refs| - 1];
    assert refs == init + [last];
    if last == ref {
      CountSame(rows, more, destination, init);
    } else {
      CountDrops(rows, more, destination, init, ref);
    }
  }

  // ---- progress of an undisturbed drain ------------------------------------

  // What an undisturbed drain of one destination started from.
  datatype Baseline = Baseline(events: seq<Ref>, rows: Rows, now: Time, destination: string)

  ghost predicate Waiting(b: Baseline, ref: Ref) {
    ref in b.events && Available(RowOf(b.rows, b.destination, ref), b.now)
  }

  /** Everything up to the cursor has been tried; nothing after it, and no other destination, has been touched. */
  ghost predicate Swept(b: Baseline, rows: Rows, after: Ref, trace: seq<Try>) {
    && (forall r | Waiting(b, r) && !RefLt(after, r) :: Tried(trace, b.destination, r))
    && (forall r | RefLt(after, r) :: RowOf(rows, b.destination, r) == RowOf(b.rows, b.destination, r))
    && (forall d, r | d != b.destination :: RowOf(rows, d, r) == RowOf(b.rows, d, r))
  }

  /** Undelivered before = delivered since + undelivered now. */
  ghost predicate Conserved(b: Baseline, rows: Rows, prior: nat, trace: seq<Try>) {
    CountUndelivered(b.rows, b.destination, b.events) + prior
    == CountUndelivered(rows, b.destination, b.events) + Deliveries(trace)
  }

  /** The page misses no waiting event up to its own end. */
  ghost predicate NoGap(b: Baseline, after: Ref, refs: seq<Ref>) {
    && Ascending(refs)
    && (forall r | r in refs :: r in b.events && RefLt(after, r))
    && (forall r | Waiting(b, r) && RefLt(after, r) ::
          r in refs || (|refs| == PAGE && forall x | x in refs :: RefLt(x, r)))
  }

  lemma PageHasNoGap(b: Baseline, rows: Rows, now: Time, after: Ref, refs: seq<Ref>, trace: seq<Try>)
    requires Swept(b, rows, after, trace) && b.now <= now
    requires IsPage(b.events, rows, now, b.destination, after, PAGE, refs)
    ensures NoGap(b, after, refs)
    ensures forall r | r in refs :: Available(RowOf(b.rows, b.destination, r), now)
  {
  }

  /** After the last page nothing that was waiting is left untried. */
  lemma SweepEnds(b: Baseline, rows: Rows, after: Ref, refs: seq<Ref>, last: Ref, trace: seq<Try>)
    requires NoGap(b, after, refs) && |refs| < PAGE && Swept(b, rows, last, trace)
    requires if refs == [] then last == after else last == refs[|refs| - 1]
    ensures forall r | Waiting(b, r) :: Tried(trace, b.destination, r)
  {
    forall r | Waiting(b, r) ensures Tried(trace, b.destination, r) {
      if RefLt(last, r) {
        if refs != [] {
          assert refs[|refs| - 1] in refs;
          RefLtTransitive(after, last, r);
        }
        assert r in refs;
        var i :| 0 <= i < |refs| && refs[i] == r;
        if i < |refs| - 1 {
          assert RefLt(r, last);
        }
        RefOrder(last, r, r);
      }
    }
  }

  /** Trying the next event of the page moves the cursor onto it. */
  lemma SweptStep(
    b: Baseline, rows: Rows, now: Time, more: Rows, later: Time, start: Ref, refs: seq<Ref>, i: nat, after: Ref,
    trace: seq<Try>, delivered: bool, failed: bool)
    requires NoGap(b, start, refs) && i < |refs| && after == (if i == 0 then start else refs[i - 1])
    requires Swept(b, rows, after, trace)
    requires Undisturbed(rows, now, more, later, b.destination, refs[i], delivered, true, failed)
    ensures Swept(b, more, refs[i], trace + [Try(b.destination, refs[i], delivered)])
  {
    var ref, t := refs[i], Try(b.destination, refs[i], delivered);
    var longer := trace + [t];
    assert ref in refs;
    forall r | RefLt(ref, r) ensures RowOf(more, b.destination, r) == RowOf(b.rows, b.destination, r) {
      CursorAdvances(start, refs, i, after);
      RefLtTransitive(after, ref, r);
    }
    forall r | Waiting(b, r) && !RefLt(ref, r) ensures Tried(longer, b.destination, r) {
      if RefLt(after, r) {
        NextInPage(b, start, refs, i, after, r);
        assert t in longer;
      } else {
        var old' :| old' in trace && old'.destination == b.destination && old'.ref == r;
        assert old' in longer;
      }
    }
  }

  lemma CursorAdvances(start: Ref, refs: seq<Ref>, i: nat, after: Ref)
    requires Ascending(refs) && (forall r | r in refs :: RefLt(start, r)) && i < |refs|
    requires after == (if i == 0 then start else refs[i - 1])
    ensures RefLt(after, refs[i])
  {
    assert refs[i] in refs;
  }

  /** The only waiting event after the cursor and not beyond the next one of the page is that next one. */
  lemma NextInPage(b: Baseline, start: Ref, refs: seq<Ref>, i: nat, after: Ref, r: Ref)
    requires NoGap(b, start, refs) && i < |refs| && after == (if i == 0 then start else refs[i - 1])
    requires Waiting(b, r) && RefLt(after, r) && !RefLt(refs[i], r)
    ensures r == refs[i]
  {
    assert refs[i] in refs;
    if i > 0 {
      assert refs[i - 1] in refs;
      RefLtTransitive(start, after, r);
    }
    assert r in refs;
    var k :| 0 <= k < |refs| && refs[k] == r;
    if k < i {
      RefOrder(r, after, after);
      if k < i - 1 {
        RefLtTransitive(r, after, r);
      }
    }
  }

  lemma ConservedStep(
    b: Baseline, rows: Rows, now: Time, more: Rows, later: Time, prior: nat, trace: seq<Try>, ref: Ref, delivered: bool,
    attempted: bool, failed: bool)
    requires Ascending(b.events) && ref in b.events && Conserved(b, rows, prior, trace)
    requires Undisturbed(rows, now, more, later, b.destination, ref, delivered, attempted, failed)
    requires delivered ==> !Undelivered(more, b.destination, ref)
    ensures Conserved(b, more, prior, trace + [Try(b.destination, ref, delivered)])
  {
    var longer := trace + [Try(b.destination, ref, delivered)];
    assert longer[..|longer| - 1] == trace;
    if delivered {
      CountDrops(rows, more, b.destination, b.events, ref);
    } else {
      CountSame(rows, more, b.destination, b.events);
    }
  }

  // ---- the loops -----------------------------------------------------------

  /** What holds at every moment of every drain. */
  ghost predicate Steady(
    rows: Rows, destination: string, after: Ref, s: Summary, trace: seq<Try>, publishes: Publishes, alone: bool)
  {
    && Tallies(s, trace) && NoneTwice(trace) && Honoured(rows, trace, publishes, alone)
    && forall t | t in trace && t.destination == destination :: RefLe(t.ref, after)
  }

  lemma SteadySkip(
    rows: Rows, more: Rows, destination: string, after: Ref, ref: Ref, s: Summary, trace: seq<Try>,
    publishes: Publishes, alone: bool)
    requires Steady(rows, destination, after, s, trace, publishes, alone) && RefLt(after, ref)
    requires DeliveredStay(rows, more)
    ensures Steady(more, destination, ref, s, trace, publishes, alone)
    ensures forall t | t in trace && t.destination == destination :: RefLt(t.ref, ref)
  {
    forall t | t in trace && t.destination == destination ensures RefLt(t.ref, ref) {
      RefOrder(t.ref, after, ref);
      RefOrder(after, ref, after);
    }
  }

  lemma SteadyAdd(
    rows: Rows, more: Rows, destination: string, after: Ref, ref: Ref, s: Summary, trace: seq<Try>, delivered: bool,
    publishes: Publishes, alone: bool)
    requires Steady(rows, destination, after, s, trace, publishes, alone) && RefLt(after, ref)
    requires DeliveredStay(rows, more)
    requires delivered ==> !Undelivered(more, destination, ref) && publishes(destination, ref)
    requires alone && publishes(destination, ref) ==> delivered
    ensures var counted := if delivered then s.(attempted := s.attempted + 1, delivered := s.delivered + 1)
                           else s.(attempted := s.attempted + 1, failed := s.failed + 1);
            Steady(more, destination, ref, counted, trace + [Try(destination, ref, delivered)], publishes, alone)
  {
    SteadySkip(rows, more, destination, after, ref, s, trace, publishes, alone);
    var longer := trace + [Try(destination, ref, delivered)];
    assert longer[..|longer| - 1] == trace;
    forall i | 0 <= i < |trace| && trace[i].destination == destination ensures RefLt(trace[i].ref, ref) {
      assert trace[i] in trace;
    }
    RefOrder(ref, ref, ref);
  }

  /** What holds, besides, at every moment of an undisturbed one. */
  ghost predicate Exact(b: Baseline, events: seq<Ref>, rows: Rows, now: Time, after: Ref, prior: nat, trace: seq<Try>) {
    && events == b.events && Ascending(events) && b.now <= now
    && Swept(b, rows, after, trace) && Conserved(b, rows, prior, trace)
  }

  /** One event of a page. */
  method TryNext(
    store: Store, destination: string, refs: seq<Ref>, i: nat, after: Ref, publishes: Publishes, publishLimit: int,
    alone: bool, summary: Summary,
    ghost start: Ref, ghost b: Baseline, ghost prior: nat, ghost trace: seq<Try>)
    returns (failure: Option<Failure>, claimed: bool, counted: Summary, ghost longer: seq<Try>)
    requires store.Valid() && i < |refs| && RefLt(after, refs[i]) && b.destination == destination
    requires Steady(store.rows, destination, after, summary, trace, publishes, alone)
    requires alone ==> Exact(b, store.events, store.rows, store.now, after, prior, trace)
    requires alone ==> NoGap(b, start, refs) && after == (if i == 0 then start else refs[i - 1])
    requires alone ==> Available(RowOf(b.rows, destination, refs[i]), store.now)
    modifies store
    ensures store.Valid() && store.now >= old(store.now) && DeliveredStay(old(store.rows), store.rows)
    ensures LeasesKept(old(store.steps), store.steps, publishLimit)
    ensures Steady(store.rows, destination, refs[i], counted, longer, publishes, alone)
    ensures counted.remaining == summary.remaining && trace <= longer
    ensures failure.Some? ==> failure.value == StoreFailed
    ensures forall t | t in longer :: t in trace || t.destination == destination
    ensures alone ==> failure.None? && claimed && Exact(b, store.events, store.rows, store.now, refs[i], prior, longer)
  {
    ghost var rows, now := store.rows, store.now;
    counted, longer := summary, trace;
    if alone {
      assert refs[i] in refs;
    }
    var delivered, attempted, failed := PublishOne(store, destination, refs[i], publishes, publishLimit, alone);
    if !attempted {
      SteadySkip(rows, store.rows, destination, after, refs[i], summary, trace, publishes, alone);
      failure := if failed then Some(StoreFailed) else None;
      return failure, false, counted, longer;
    }
    SteadyAdd(rows, store.rows, destination, after, refs[i], summary, trace, delivered, publishes, alone);
    longer := trace + [Try(destination, refs[i], delivered)];
    if delivered {
      counted := counted.(attempted := counted.attempted + 1, delivered := counted.delivered + 1);
    } else {
      counted := counted.(attempted := counted.attempted + 1, failed := counted.failed + 1);
    }
    if alone {
      SweptStep(b, rows, now, store.rows, store.now, start, refs, i, after, trace, delivered, failed);
      ConservedStep(b, rows, now, store.rows, store.now, prior, trace, refs[i], delivered, attempted, failed);
    }
    return None, true, counted, longer;
  }

  /** The loop over one page. */
  method DrainPage(
    store: Store, destination: string, refs: seq<Ref>, start: Ref, publishes: Publishes, publishLimit: int,
    alone: bool, summary: Summary,
    ghost b: Baseline, ghost prior: nat, ghost trace: seq<Try>)
    returns (failure: Option<Failure>, after: Ref, claimedAny: bool, counted: Summary, ghost longer: seq<Try>)
    requires store.Valid() && refs != [] && Ascending(refs) && (forall r | r in refs :: RefLt(start, r))
    requires b.destination == destination && Steady(store.rows, destination, start, summary, trace, publishes, alone)
    requires alone ==> Exact(b, store.events, store.rows, store.now, start, prior, trace) && NoGap(b, start, refs)
    requires alone ==> forall r | r in refs :: Available(RowOf(b.rows, destination, r), store.now)
    modifies store
    ensures store.Valid() && store.now >= old(store.now) && DeliveredStay(old(store.rows), store.rows)
    ensures LeasesKept(old(store.steps), store.steps, publishLimit)
    ensures failure.None? ==> after == refs[|refs| - 1]
    ensures Steady(store.rows, destination, after, counted, longer, publishes, alone)
    ensures counted.remaining == summary.remaining && trace <= longer
    ensures failure.Some? ==> failure.value == StoreFailed
    ensures forall t | t in longer :: t in trace || t.destination == destination
    ensures alone ==> failure.None? && claimedAny && Exact(b, store.events, store.rows, store.now, after, prior, longer)
  {
    ghost var pageTime, entry := store.now, store.steps;
    failure, after, claimedAny, counted, longer := None, start, false, summary, trace;
    for i := 0 to |refs|
      invariant store.Valid() && store.now >= pageTime && DeliveredStay(old(store.rows), store.rows)
      invariant LeasesKept(entry, store.steps, publishLimit)
      invariant after == if i == 0 then start else refs[i - 1]
      invariant Steady(store.rows, destination, after, counted, longer, publishes, alone)
      invariant counted.remaining == summary.remaining && trace <= longer
      invariant forall t | t in longer :: t in trace || t.destination == destination
      invariant alone ==> Exact(b, store.events, store.rows, store.now, after, prior, longer) && (i > 0 ==> claimedAny)
    {
      assert refs[i] in refs;
      CursorAdvances(start, refs, i, after);
      var claimed;
      ghost var before := store.steps;
      failure, claimed, counted, longer :=
        TryNext(store, destination, refs, i, after, publishes, publishLimit, alone, counted, start, b, prior, longer);
      LeasesKeptThen(entry, before, store.steps, publishLimit);
      after := refs[i];
      claimedAny := claimedAny || claimed;
      if failure.Some? {
        return;
      }
    }
    failure := None;
  }

  /** How many events lie after the cursor. */
  function Ahead(events: seq<Ref>, after: Ref): nat {
    if events == [] then 0
    else Ahead(events[..|events| - 1], after) + (if RefLt(after, events[|events| - 1]) then 1 else 0)
  }

  lemma {:induction false} AheadDrops(events: seq<Ref>, a: Ref, b: Ref)
    requires RefLt(a, b)
    ensures Ahead(events, b) <= Ahead(events, a) && (b in events ==> Ahead(events, b) < Ahead(events, a))
  {
    if events != [] {
      var init, last := events[..|events| - 1], events[|events| - 1];
      assert events == init + [last];
      AheadDrops(init, a, b);
      if RefLt(b, last) {
        RefLtTransitive(a, b, last);
      }
    }
  }

  const ORIGIN := Ref("", "")

  ghost predicate Untouched(trace: seq<Try>, destination: string) {
    forall t | t in trace :: t.destination != destination
  }

  /** Every event that was waiting for the destination has been tried. */
  ghost predicate AllTried(b: Baseline, trace: seq<Try>) {
    forall r | Waiting(b, r) :: Tried(trace, b.destination, r)
  }

  ghost predicate OthersSame(rows: Rows, more: Rows, destination: string) {
    forall d, r | d != destination :: RowOf(more, d, r) == RowOf(rows, d, r)
  }

  lemma ExactFromOrigin(b: Baseline, trace: seq<Try>)
    requires Ascending(b.events) && forall r | r in b.events :: r.table != ""
    ensures Exact(b, b.events, b.rows, b.now, ORIGIN, Deliveries(trace), trace)
  {
    forall r | Waiting(b, r) ensures RefLt(ORIGIN, r) {
    }
  }

  /** The page loop for one destination, then the count of what is left. */
  method DrainDestination(
    store: Store, destination: string, publishes: Publishes, publishLimit: int, alone: bool, patience: nat,
    summary: Summary, ghost trace: seq<Try>)
    returns (failure: Option<Failure>, counted: Summary, ghost longer: seq<Try>)
    requires store.Valid() && Untouched(trace, destination)
    requires Tallies(summary, trace) && NoneTwice(trace) && Honoured(store.rows, trace, publishes, alone)
    modifies store
    ensures store.Valid() && store.now >= old(store.now) && DeliveredStay(old(store.rows), store.rows)
    ensures LeasesKept(old(store.steps), store.steps, publishLimit)
    ensures failure.Some? ==> failure.value == StoreFailed || failure.value == ContextDone
    ensures Tallies(counted, longer) && NoneTwice(longer) && Honoured(store.rows, longer, publishes, alone)
    ensures trace <= longer && forall t | t in longer :: t in trace || t.destination == destination
    ensures alone ==>
              var b := Baseline(old(store.events), old(store.rows), old(store.now), destination);
              && failure.None? && store.events == b.events
              && OthersSame(b.rows, store.rows, destination) && AllTried(b, longer)
              && Conserved(b, store.rows, Deliveries(trace), longer)
              && counted.remaining == summary.remaining + CountUndelivered(store.rows, destination, b.events)
  {
    ghost var b := Baseline(store.events, store.rows, store.now, destination);
    ghost var prior, entry := Deliveries(trace), store.steps;
    var after, pages := ORIGIN, 0;
    failure, counted, longer := None, summary, trace;
    ExactFromOrigin(b, trace);
    while true
      invariant store.Valid() && store.now >= b.now && DeliveredStay(b.rows, store.rows) && pages <= patience
      invariant LeasesKept(entry, store.steps, publishLimit)
      invariant Steady(store.rows, destination, after, counted, longer, publishes, alone)
      invariant counted.remaining == summary.remaining && trace <= longer
      invariant forall t | t in longer :: t in trace || t.destination == destination
      invariant alone ==> Exact(b, store.events, store.rows, store.now, after, prior, longer)
      decreases if alone then Ahead(store.events, after) else patience - pages
    {
      ghost var before := store.steps;
      if !alone {
        OthersDeliver(store, publishLimit);
        LeasesKeptThen(entry, before, store.steps, publishLimit);
        if * {
          return Some(StoreFailed), counted, longer;
        }
        if pages == patience {
          return Some(ContextDone), counted, longer;
        }
        pages := pages + 1;
      }
      var refs := store.PendingEvents(destination, after, PAGE);
      if alone {
        PageHasNoGap(b, store.rows, store.now, after, refs, longer);
      }
      if |refs| == 0 {
        if alone {
          SweepEnds(b, store.rows, after, refs, after, longer);
        }
        break;
      }
      var start := after;
      var claimedAny;
      before := store.steps;
      failure, after, claimedAny, counted, longer :=
        DrainPage(store, destination, refs, start, publishes, publishLimit, alone, counted, b, prior, longer);
      LeasesKeptThen(entry, before, store.steps, publishLimit);
      if failure.Some? {
        return;
      }
      assert refs[|refs| - 1] in refs;
      AheadDrops(store.events, start, after);
      if !claimedAny || |refs| < PAGE {
        if alone {
          SweepEnds(b, store.rows, start, refs, after, longer);
        }
        break;
      }
    }
    if !alone {
      if * {
        return Some(StoreFailed), counted, longer;
      }
    }
    var remaining := store.CountPendingEvents(destination);
    counted := counted.(remaining := counted.remaining + remaining);
    return None, counted, longer;
  }

  // ---- all destinations ----------------------------------------------------

  ghost predicate InNameOrder(names: seq<string>) {
    forall i, j | 0 <= i < j < |names| :: LexLe(names[i], names[j]) && names[i] != names[j]
  }

  method DestinationIDs(registered: set<string>) returns (names: seq<string>)
    ensures InNameOrder(names) && forall d :: d in names <==> d in registered
  {
    var listed: seq<string> := [];
    var rest := registered;
    while rest != {}
      invariant rest <= registered && forall d :: d in listed <==> d in registered && d !in rest
      invariant forall i, j | 0 <= i < j < |listed| :: listed[i] != listed[j]
      decreases |rest|
    {
      var d :| d in rest;
      listed := listed + [d];
      rest := rest - {d};
    }
    LexIsTotalOrder();
    SortSorts(LexLe, listed);
    SortKeepsMembers(LexLe, listed);
    names := Sort(LexLe, listed);
  }

  ghost predicate Selects(registered: set<string>, chosen: string, names: seq<string>) {
    forall d :: d in names <==> if chosen == "" then d in registered else d == chosen
  }

  /** selectedDestinationIDs: every registered destination in order, or the one named. */
  method SelectedDestinations(registered: set<string>, chosen: string) returns (names: Option<seq<string>>)
    ensures names.None? <==> chosen != "" && chosen !in registered
    ensures names.Some? ==> InNameOrder(names.value) && Selects(registered, chosen, names.value)
  {
    if chosen == "" {
      var all := DestinationIDs(registered);
      return Some(all);
    }
    return if chosen in registered then Some([chosen]) else None;
  }

  function TotalUndelivered(rows: Rows, events: seq<Ref>, destinations: seq<string>): nat {
    if destinations == [] then 0
    else
      TotalUndelivered(rows, events, destinations[..|destinations| - 1])
      + CountUndelivered(rows, destinations[|destinations| - 1], events)
  }

  /** The state of an undisturbed drain after some of its destinations. */
  ghost predicate Drained(
    events: seq<Ref>, rows: Rows, now: Time, done: seq<string>, more: Rows, later: Time, s: Summary, trace: seq<Try>)
  {
    && now <= later
    && (forall d, r | d !in done :: RowOf(more, d, r) == RowOf(rows, d, r))
    && (forall d | d in done :: AllTried(Baseline(events, rows, now, d), trace))
    && TotalUndelivered(rows, events, done) == s.delivered + s.remaining
    && s.remaining == TotalUndelivered(more, events, done)
  }

  lemma DrainedStart(events: seq<Ref>, rows: Rows, now: Time, names: seq<string>)
    ensures Drained(events, rows, now, names[..0], rows, now, Summary(0, 0, 0, 0), [])
  {
  }

  lemma DrainedStep(
    events: seq<Ref>, rows: Rows, now: Time, names: seq<string>, i: nat, mid: Rows, midTime: Time, s: Summary,
    trace: seq<Try>,
    more: Rows, later: Time, counted: Summary, longer: seq<Try>)
    requires i < |names| && InNameOrder(names) && Drained(events, rows, now, names[..i], mid, midTime, s, trace)
    requires midTime <= later && OthersSame(mid, more, names[i]) && trace <= longer
    requires AllTried(Baseline(events, mid, midTime, names[i]), longer)
    requires Conserved(Baseline(events, mid, midTime, names[i]), more, Deliveries(trace), longer)
    requires Tallies(s, trace) && Tallies(counted, longer)
    requires counted.remaining == s.remaining + CountUndelivered(more, names[i], events)
    ensures Drained(events, rows, now, names[..i + 1], more, later, counted, longer)
  {
    var d := names[i];
    assert names[..i + 1] == names[..i] + [d];
    assert names[..i + 1][..i] == names[..i];
    assert d !in names[..i];
    CountSame(rows, mid, d, events);
    TotalSame(mid, more, events, names[..i], d);
    forall r | Waiting(Baseline(events, rows, now, d), r) ensures Tried(longer, d, r) {
      assert Waiting(Baseline(events, mid, midTime, d), r);
    }
    forall e, r | e in names[..i] && Waiting(Baseline(events, rows, now, e), r) ensures Tried(longer, e, r) {
      assert AllTried(Baseline(events, rows, now, e), trace);
      var t :| t in trace && t.destination == e && t.ref == r;
      assert t in longer;
    }
  }

  /**
  PublishPending. Always: attempted = delivered + failed, no event is tried
  twice for a destination, and what is reported delivered is. Undisturbed, it
  succeeds, tries every event that was undelivered and unleased for a selected
  destination exactly once, delivers exactly those whose publisher succeeds, and
  undelivered before = delivered + remaining.
   */
  method PublishPending(
    store: Store, registered: set<string>, chosen: string, publishes: Publishes, publishLimit: int, alone: bool,
    patience: nat)
    returns (failure: Option<Failure>, summary: Summary, ghost names: seq<string>, ghost trace: seq<Try>)
    requires store.Valid()
    modifies store
    ensures store.Valid() && DeliveredStay(old(store.rows), store.rows)
    ensures LeasesKept(old(store.steps), store.steps, publishLimit)
    ensures Tallies(summary, trace) && NoneTwice(trace) && Honoured(store.rows, trace, publishes, alone)
    ensures failure == Some(NoPublishers) <==> registered == {}
    ensures failure == Some(UnknownDestination) <==> registered != {} && chosen != "" && chosen !in registered
    ensures failure.None? ==> Selects(registered, chosen, names)
    ensures alone && registered != {} && (chosen == "" || chosen in registered) ==>
              && failure.None?
              && DrainIsExact(old(store.events), old(store.rows), old(store.now), store.rows, names, summary, trace)
  {
    summary, names, trace := Summary(0, 0, 0, 0), [], [];
    if registered == {} {
      return Some(NoPublishers), summary, names, trace;
    }
    var selected := SelectedDestinations(registered, chosen);
    if selected.None? {
      return Some(UnknownDestination), summary, names, trace;
    }
    names := selected.value;
    failure, summary, trace := DrainAll(store, selected.value, publishes, publishLimit, alone, patience);
  }

  /** Everything waiting was tried, and undelivered before = delivered + remaining, which is what is undelivered now. */
  ghost predicate DrainIsExact(
    events: seq<Ref>, rows: Rows, now: Time, more: Rows, names: seq<string>, s: Summary, trace: seq<Try>)
  {
    && (forall d | d in names :: AllTried(Baseline(events, rows, now, d), trace))
    && TotalUndelivered(rows, events, names) == s.delivered + s.remaining
    && s.remaining == TotalUndelivered(more, events, names)
  }

  /** The loop over destinations. */
  method DrainAll(
    store: Store, destinations: seq<string>, publishes: Publishes, publishLimit: int, alone: bool, patience: nat)
    returns (failure: Option<Failure>, summary: Summary, ghost trace: seq<Try>)
    requires store.Valid() && InNameOrder(destinations)
    modifies store
    ensures store.Valid() && DeliveredStay(old(store.rows), store.rows)
    ensures LeasesKept(old(store.steps), store.steps, publishLimit)
    ensures Tallies(summary, trace) && NoneTwice(trace) && Honoured(store.rows, trace, publishes, alone)
    ensures failure.Some? ==> failure.value == StoreFailed || failure.value == ContextDone
    ensures alone ==>
              && failure.None?
              && DrainIsExact(
                   old(store.events), old(store.rows), old(store.now), store.rows, destinations, summary, trace)
  {
    failure, summary, trace := None, Summary(0, 0, 0, 0), [];
    ghost var events, rows, now := store.events, store.rows, store.now;
    ghost var start := store.steps;
    DrainedStart(events, rows, now, destinations);
    for i := 0 to |destinations|
      invariant store.Valid() && DeliveredStay(rows, store.rows) && failure.None?
      invariant LeasesKept(start, store.steps, publishLimit)
      invariant Tallies(summary, trace) && NoneTwice(trace) && Honoured(store.rows, trace, publishes, alone)
      invariant forall t | t in trace :: t.destination in destinations[..i]
      invariant alone ==> store.events == events
      invariant alone ==> Drained(events, rows, now, destinations[..i], store.rows, store.now, summary, trace)
    {
      ghost var before := store.steps;
      failure, summary, trace := DrainNext(
        store, destinations, i, publishes, publishLimit, alone, patience, summary, events, rows, now, trace);
      LeasesKeptThen(start, before, store.steps, publishLimit);
      if failure.Some? {
        return;
      }
    }
    if alone {
      DrainedEnd(events, rows, now, destinations, store.rows, store.now, summary, trace);
    }
  }

  lemma DrainedEnd(
    events: seq<Ref>, rows: Rows, now: Time, names: seq<string>, more: Rows, later: Time, s: Summary, trace: seq<Try>)
    requires Drained(events, rows, now, names[..|names|], more, later, s, trace)
    ensures DrainIsExact(events, rows, now, more, names, s, trace)
  {
    assert names[..|names|] == names;
  }

  /** One round of the loop over destinations. */
  method DrainNext(
    store: Store, destinations: seq<string>, i: nat, publishes: Publishes, publishLimit: int, alone: bool,
    patience: nat, summary: Summary,
    ghost events: seq<Ref>, ghost rows: Rows, ghost now: Time, ghost trace: seq<Try>)
    returns (failure: Option<Failure>, counted: Summary, ghost longer: seq<Try>)
    requires store.Valid() && i < |destinations| && InNameOrder(destinations) && DeliveredStay(rows, store.rows)
    requires Tallies(summary, trace) && NoneTwice(trace) && Honoured(store.rows, trace, publishes, alone)
    requires forall t | t in trace :: t.destination in destinations[..i]
    requires alone ==> store.events == events
    requires alone ==> Drained(events, rows, now, destinations[..i], store.rows, store.now, summary, trace)
    modifies store
    ensures store.Valid() && DeliveredStay(rows, store.rows)
    ensures LeasesKept(old(store.steps), store.steps, publishLimit)
    ensures Tallies(counted, longer) && NoneTwice(longer) && Honoured(store.rows, longer, publishes, alone)
    ensures forall t | t in longer :: t.destination in destinations[..i + 1]
    ensures failure.Some? ==> failure.value == StoreFailed || failure.value == ContextDone
    ensures alone ==> failure.None? && store.events == events
    ensures alone ==> Drained(events, rows, now, destinations[..i + 1], store.rows, store.now, counted, longer)
  {
    ghost var mid, midTime := store.rows, store.now;
    assert destinations[..i + 1] == destinations[..i] + [destinations[i]];
    failure, counted, longer := DrainDestination(
      store, destinations[i], publishes, publishLimit, alone, patience, summary, trace);
    if alone {
      DrainedStep(
        events, rows, now, destinations, i, mid, midTime, summary, trace, store.rows, store.now, counted, longer);
    }
  }

  lemma {:induction false} TotalSame(rows: Rows, more: Rows, events: seq<Ref>, names: seq<string>, other: string)
    requires OthersSame(rows, more, other) && other !in names
    ensures TotalUndelivered(more, events, names) == TotalUndelivered(rows, events, names)
  {
    if names != [] {
      TotalSame(rows, more, events, names[..|names| - 1], other);
      CountSame(rows, more, names[|names| - 1], events);
    }
  }
}
