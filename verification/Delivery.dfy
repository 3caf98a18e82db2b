/**
Delivery of one integration event to one destination: the delivery row with
its nonce lease, and every run of claimants that claim, publish, crash, lose
acknowledgements and mark.
 */
module Delivery {
  import opened Base

  datatype Row = Row(
    attempts: nat, nonce: Option<Uuid>, lease: Option<Time>, nextAttempt: Time, delivered: Option<Time>)

  // ---- the three statements ------------------------------------------------

  /** Undelivered and not under an unexpired lease. */
  predicate Available(row: Option<Row>, now: Time) {
    row.None? || (row.value.delivered.None? && (row.value.lease.None? || row.value.lease.value <= now))
  }

  /** ClaimEvent's upsert; None when no row was inserted or updated. */
  function Claimed(row: Option<Row>, nonce: Uuid, now: Time, lease: int, force: bool): Option<Row> {
    if row.None? then Some(Row(1, Some(nonce), Some(now + lease), now, None))
    else if Available(row, now) && (force || row.value.nextAttempt <= now) then
      Some(row.value.(attempts := row.value.attempts + 1, nonce := Some(nonce), lease := Some(now + lease)))
    else None
  }

  predicate Holds(row: Option<Row>, nonce: Uuid) {
    row.Some? && row.value.nonce == Some(nonce) && row.value.delivered.None?
  }

  /** MarkEventDelivered and MarkEventFailed; None when no row matched, which reports a lost lease. */
  function MarkedDelivered(row: Option<Row>, nonce: Uuid, now: Time): Option<Row> {
    if Holds(row, nonce) then Some(row.value.(delivered := Some(now), nonce := None, lease := None)) else None
  }

  function MarkedFailed(row: Option<Row>, nonce: Uuid, now: Time, delay: int): Option<Row> {
    if Holds(row, nonce) then Some(row.value.(nonce := None, lease := None, nextAttempt := now + delay)) else None
  }

  // ---- runs ----------------------------------------------------------------

  // The lease outlives the publish limit by five seconds.
  const MARGIN := 5_000_000

  datatype Outcome = Published | PublishFailed | Crashed

  datatype Stage = Waiting | Publishing(start: Time) | Finished(start: Time, end: Time, outcome: Outcome)

  datatype Grant = Grant(nonce: Uuid, at: Time, stage: Stage)

  datatype State = State(row: Option<Row>, now: Time, limit: int, grants: seq<Grant>)

  datatype Event =
    | Claim(nonce: Uuid, force: bool)
    | Start(grant: nat)
    | Finish(grant: nat, outcome: Outcome)
    | MarkDelivered(grant: nat)
    | MarkFailed(grant: nat, delay: int)
    | Tick(to: Time)

  function LeaseOf(s: State): int {
    s.limit + MARGIN
  }

  predicate FinishedWith(s: State, g: nat, outcome: Outcome) {
    g < |s.grants| && s.grants[g].stage.Finished? && s.grants[g].stage.outcome == outcome
  }

  function WithStage(s: State, g: nat, stage: Stage): State
    requires g < |s.grants|
  {
    s.(grants := s.grants[g := s.grants[g].(stage := stage)])
  }

  function Updated(s: State, row: Option<Row>): State {
    if row.Some? then s.(row := row) else s
  }

  /**
  One step; a step that is not enabled changes nothing. Claimants draw fresh
  nonces, and mark an event delivered only after its publisher returned, failed
  only after it failed; a claimant that stops at any point has crashed.
   */
  function Next(s: State, e: Event): State {
    match e
    case Claim(nonce, force) =>
      var claimed := Claimed(s.row, nonce, s.now, LeaseOf(s), force);
      if claimed.None? || exists g | g in s.grants :: g.nonce == nonce then s
      else s.(row := claimed, grants := s.grants + [Grant(nonce, s.now, Waiting)])
    case Start(g) =>
      if g < |s.grants| && s.grants[g].stage.Waiting? then WithStage(s, g, Publishing(s.now)) else s
    case Finish(g, outcome) =>
      if g < |s.grants| && s.grants[g].stage.Publishing?
      then WithStage(s, g, Finished(s.grants[g].stage.start, s.now, outcome)) else s
    case MarkDelivered(g) =>
      if FinishedWith(s, g, Published) then Updated(s, MarkedDelivered(s.row, s.grants[g].nonce, s.now)) else s
    case MarkFailed(g, delay) =>
      if FinishedWith(s, g, PublishFailed) then Updated(s, MarkedFailed(s.row, s.grants[g].nonce, s.now, delay)) else s
    case Tick(to) => if s.now <= to then s.(now := to) else s
  }

  function Run(s: State, es: seq<Event>): State {
    if es == [] then s else Next(Run(s, es[..|es| - 1]), es[|es| - 1])
  }

  predicate Init(s: State) {
    s.row.None? && s.grants == [] && s.limit > 0
  }

  // ---- the invariant -------------------------------------------------------

  predicate Timely(g: Grant, now: Time) {
    && g.at <= now
    && (g.stage.Publishing? ==> g.at <= g.stage.start <= now)
    && (g.stage.Finished? ==> g.at <= g.stage.start <= g.stage.end <= now)
  }

  /** When `b` was granted, `a` had finished or its lease had run out. */
  predicate Separated(a: Grant, b: Grant, lease: int) {
    a.at <= b.at && ((a.stage.Finished? && a.stage.end <= b.at) || a.at + lease <= b.at)
  }

  /** The row belongs to the last grant, or to nobody once that grant has finished. */
  predicate RowOk(row: Row, last: Grant, lease: int, now: Time) {
    && (row.nonce.Some? <==> row.lease.Some?)
    && (row.nonce.Some? ==> row.nonce.value == last.nonce && row.lease.value == last.at + lease && row.delivered.None?)
    && (row.nonce.None? ==> last.stage.Finished?)
    && (row.delivered.Some? ==>
          last.stage.Finished? && last.stage.outcome == Published && last.stage.end <= row.delivered.value <= now)
  }

  predicate Inv(s: State) {
    && s.limit > 0
    && (s.row.None? <==> s.grants == [])
    && (forall i | 0 <= i < |s.grants| :: Timely(s.grants[i], s.now))
    && (forall i, j | 0 <= i < j < |s.grants| :: s.grants[i].nonce != s.grants[j].nonce)
    && (forall i, j | 0 <= i < j < |s.grants| :: Separated(s.grants[i], s.grants[j], LeaseOf(s)))
    && (s.row.Some? ==>
          s.row.value.attempts == |s.grants| && RowOk(s.row.value, s.grants[|s.grants| - 1], LeaseOf(s), s.now))
  }

  lemma ClaimKeeps(s: State, e: Event)
    requires Inv(s) && e.Claim?
    ensures Inv(Next(s, e))
  {
    var n := Next(s, e);
    if n.grants != s.grants {
      var g := n.grants[|s.grants|];
      forall i | 0 <= i < |s.grants| ensures Separated(s.grants[i], g, LeaseOf(s)) && s.grants[i].nonce != g.nonce {
        assert s.grants[i] in s.grants;
        if i < |s.grants| - 1 {
          assert Separated(s.grants[i], s.grants[|s.grants| - 1], LeaseOf(s));
        }
        assert Timely(s.grants[|s.grants| - 1], s.now);
      }
    }
  }

  lemma StageKeeps(s: State, g: nat, stage: Stage)
    requires Inv(s) && g < |s.grants|
    requires Timely(s.grants[g].(stage := stage), s.now) && !s.grants[g].stage.Finished?
    ensures Inv(WithStage(s, g, stage))
  {
    var n := WithStage(s, g, stage);
    forall i, j | 0 <= i < j < |n.grants| ensures Separated(n.grants[i], n.grants[j], LeaseOf(s)) {
      assert Separated(s.grants[i], s.grants[j], LeaseOf(s));
    }
  }

  lemma NextKeepsInv(s: State, e: Event)
    requires Inv(s)
    ensures Inv(Next(s, e))
  {
    match e
    case Claim(_, _) => ClaimKeeps(s, e);
    case Start(g) =>
      if g < |s.grants| && s.grants[g].stage.Waiting? {
        StageKeeps(s, g, Publishing(s.now));
      }
    case Finish(g, outcome) =>
      if g < |s.grants| && s.grants[g].stage.Publishing? {
        StageKeeps(s, g, Finished(s.grants[g].stage.start, s.now, outcome));
      }
    case MarkDelivered(g) => MarkKeeps(s, e, g);
    case MarkFailed(g, _) => MarkKeeps(s, e, g);
    case Tick(_) =>
  }

  lemma MarkKeeps(s: State, e: Event, g: nat)
    requires Inv(s) && ((e.MarkDelivered? && e.grant == g) || (e.MarkFailed? && e.grant == g))
    ensures Inv(Next(s, e))
  {
    if g < |s.grants| && Holds(s.row, s.grants[g].nonce) {
      assert g == |s.grants| - 1;
      assert Timely(s.grants[g], s.now);
    }
  }

  lemma {:induction false} RunKeepsInv(s: State, es: seq<Event>)
    requires Init(s)
    ensures Inv(Run(s, es))
  {
    if es != [] {
      RunKeepsInv(s, es[..|es| - 1]);
      NextKeepsInv(Run(s, es[..|es| - 1]), es[|es| - 1]);
    }
  }

  // ---- what every run guarantees -------------------------------------------

  /** The attempt counter is the number of granted claims. */
  lemma {:induction false} AttemptsCountGrants(s: State, es: seq<Event>)
    requires Init(s)
    ensures var r := Run(s, es); (if r.row.Some? then r.row.value.attempts else 0) == |r.grants|
  {
    RunKeepsInv(s, es);
  }

  /** A delivered event was published by the claimant that held the lease, before it was marked. */
  lemma {:induction false} DeliveredWasPublished(s: State, es: seq<Event>)
    requires Init(s)
    ensures var r := Run(s, es);
            r.row.Some? && r.row.value.delivered.Some? ==>
              && |r.grants| > 0
              && var holder := r.grants[|r.grants| - 1];
              && holder.stage.Finished? && holder.stage.outcome == Published
              && holder.stage.end <= r.row.value.delivered.value
  {
    RunKeepsInv(s, es);
  }

  /** Delivered is absorbing: whatever anyone does afterwards, the row never changes and no claim is granted. */
  lemma {:induction false} DeliveredIsAbsorbing(s: State, es: seq<Event>)
    requires s.row.Some? && s.row.value.delivered.Some?
    ensures Run(s, es).row == s.row && |Run(s, es).grants| == |s.grants|
  {
    if es != [] {
      DeliveredIsAbsorbing(s, es[..|es| - 1]);
    }
  }

  /** A claimant that was overtaken, or that let the lease go, can never change the row again. */
  lemma {:induction false} FormerHolderIsFenced(s: State, es: seq<Event>, g: nat, delay: int)
    requires Init(s)
    requires var r := Run(s, es); g < |r.grants| && (g < |r.grants| - 1 || (r.row.Some? && r.row.value.nonce.None?))
    ensures var r := Run(s, es);
            && !Holds(r.row, r.grants[g].nonce)
            && Next(r, MarkDelivered(g)) == r && Next(r, MarkFailed(g, delay)) == r
  {
    RunKeepsInv(s, es);
  }

  lemma NextKeepsFence(r: State, e: Event, g: nat)
    requires g < |r.grants| && !Holds(r.row, r.grants[g].nonce)
    ensures var n := Next(r, e);
            g < |n.grants| && n.grants[g].nonce == r.grants[g].nonce && !Holds(n.row, n.grants[g].nonce)
  {
    assert r.grants[g] in r.grants;
  }

  /** Fences never fall: a grant that does not hold the row does not hold it in any continuation. */
  lemma {:induction false} FencedForever(s: State, es: seq<Event>, g: nat)
    requires g < |s.grants| && !Holds(s.row, s.grants[g].nonce)
    ensures var r := Run(s, es);
            g < |r.grants| && r.grants[g].nonce == s.grants[g].nonce && !Holds(r.row, r.grants[g].nonce)
  {
    if es != [] {
      FencedForever(s, es[..|es| - 1], g);
      NextKeepsFence(Run(s, es[..|es| - 1]), es[|es| - 1], g);
    }
  }

  // ---- leases and backoff --------------------------------------------------

  /** Exactly when a claim is granted and what it leaves, column by column. */
  lemma ClaimedExactly(row: Option<Row>, nonce: Uuid, now: Time, lease: int, force: bool)
    ensures var n := Claimed(row, nonce, now, lease, force);
            && (n.Some? <==>
                  || row.None?
                  || (&& row.value.delivered.None? && (row.value.lease.Some? ==> row.value.lease.value <= now)
                      && (force || row.value.nextAttempt <= now)))
            && (n.Some? ==>
                  && n.value.nonce == Some(nonce) && n.value.lease == Some(now + lease) && n.value.delivered.None?
                  && n.value.attempts == (if row.None? then 1 else row.value.attempts + 1)
                  && n.value.nextAttempt == (if row.None? then now else row.value.nextAttempt))
  {
  }

  /** A failed mark lets an unforced claim through exactly when its delay has passed, and a forced one at once. */
  lemma FailedMarkWaits(row: Option<Row>, nonce: Uuid, now: Time, delay: int, other: Uuid, at: Time, lease: int)
    requires Holds(row, nonce)
    ensures var failed := MarkedFailed(row, nonce, now, delay);
            && failed.Some?
            && (Claimed(failed, other, at, lease, false).Some? <==> now + delay <= at)
            && Claimed(failed, other, at, lease, true).Some?
  {
  }

  predicate MarksUnder(e: Event, grants: seq<Grant>, nonce: Uuid) {
    match e
    case MarkDelivered(g) => g < |grants| && grants[g].nonce == nonce
    case MarkFailed(g, _) => g < |grants| && grants[g].nonce == nonce
    case _ => false
  }

  lemma LeasedStep(s: State, e: Event, nonce: Uuid, until: Time)
    requires s.row.Some? && s.row.value.nonce == Some(nonce) && s.row.value.lease == Some(until)
    requires s.now < until && !MarksUnder(e, s.grants, nonce)
    ensures var n := Next(s, e);
            && n.row == s.row && |n.grants| == |s.grants|
            && forall i | 0 <= i < |s.grants| :: n.grants[i].nonce == s.grants[i].nonce
  {
  }

  /**
  Exclusive leases: until the lease ends, and unless its holder marks, the row
  does not change and no claim, forced or not, is granted.
   */
  lemma {:induction false} LeaseIsExclusive(s: State, es: seq<Event>, nonce: Uuid, until: Time)
    requires s.row.Some? && s.row.value.nonce == Some(nonce) && s.row.value.lease == Some(until)
    requires Run(s, es).now < until && forall e | e in es :: !MarksUnder(e, s.grants, nonce)
    ensures var r := Run(s, es);
            && r.row == s.row && |r.grants| == |s.grants|
            && (forall i | 0 <= i < |s.grants| :: r.grants[i].nonce == s.grants[i].nonce)
  {
    if es != [] {
      var prior, e := es[..|es| - 1], es[|es| - 1];
      assert e in es && forall x | x in prior :: x in es;
      ClockAdvances(Run(s, prior), e);
      LeaseIsExclusive(s, prior, nonce, until);
      assert !MarksUnder(e, Run(s, prior).grants, nonce);
      LeasedStep(Run(s, prior), e, nonce, until);
    }
  }

  lemma ClockAdvances(s: State, e: Event)
    ensures s.now <= Next(s, e).now
  {
  }

  /** Backoff: a released row does not change before its next attempt is due unless somebody forces a claim. */
  lemma {:induction false} BackoffHolds(s: State, es: seq<Event>, until: Time)
    requires s.row.Some? && s.row.value.nonce.None? && s.row.value.nextAttempt == until
    requires Run(s, es).now < until && forall e | e in es :: !(e.Claim? && e.force)
    ensures Run(s, es).row == s.row && |Run(s, es).grants| == |s.grants|
  {
    if es != [] {
      var prior, e := es[..|es| - 1], es[|es| - 1];
      assert e in es && forall x | x in prior :: x in es;
      ClockAdvances(Run(s, prior), e);
      BackoffHolds(s, prior, until);
    }
  }

  /** Started within the margin and, so far, published within the limit. */
  predicate Punctual(g: Grant, limit: int, now: Time) {
    match g.stage
    case Waiting => true
    case Publishing(start) => start <= g.at + MARGIN && now <= start + limit
    case Finished(start, end, _) => start <= g.at + MARGIN && end <= start + limit
  }

  function WindowEnd(g: Grant, now: Time): Time
    requires !g.stage.Waiting?
  {
    if g.stage.Finished? then g.stage.end else now
  }

  /** In any state with the invariant, a window that closes within its lease closes before a later one opens. */
  lemma WindowsWithinLease(r: State, i: nat, j: nat)
    requires Inv(r) && i < j < |r.grants| && !r.grants[i].stage.Waiting? && !r.grants[j].stage.Waiting?
    requires WindowEnd(r.grants[i], r.now) <= r.grants[i].at + LeaseOf(r)
    ensures WindowEnd(r.grants[i], r.now) <= r.grants[j].stage.start
  {
    assert Separated(r.grants[i], r.grants[j], LeaseOf(r));
    assert Timely(r.grants[i], r.now) && Timely(r.grants[j], r.now);
  }

  /**
  Publish windows never overlap: when an earlier claimant was punctual, its
  window closes no later than the next claimant's opens.
   */
  lemma {:induction false} PublishWindowsDisjoint(s: State, es: seq<Event>, i: nat, j: nat)
    requires Init(s)
    requires var r := Run(s, es);
             && i < j < |r.grants| && !r.grants[i].stage.Waiting? && !r.grants[j].stage.Waiting?
             && Punctual(r.grants[i], r.limit, r.now)
    ensures var r := Run(s, es); WindowEnd(r.grants[i], r.now) <= r.grants[j].stage.start
  {
    RunKeepsInv(s, es);
    WindowsWithinLease(Run(s, es), i, j);
  }

  // ---- exactly when windows can overlap ------------------------------------

  /** The window of grant `i` closes at `close`, after that of a later grant has opened. */
  ghost predicate Overlapped(n: State, i: nat, close: Time) {
    && i < |n.grants| && !n.grants[i].stage.Waiting? && WindowEnd(n.grants[i], n.now) == close
    && exists j :: i < j < |n.grants| && !n.grants[j].stage.Waiting? && n.grants[j].stage.start < close
  }

  ghost predicate CanOverlap(r: State, i: nat, close: Time) {
    exists fs :: Overlapped(Run(r, fs), i, close)
  }

  /** Running on keeps the invariant, the configuration, and when a grant was made. */
  lemma {:induction false} RunOn(r: State, fs: seq<Event>, i: nat)
    requires Inv(r) && i < |r.grants|
    ensures var n := Run(r, fs);
            Inv(n) && n.limit == r.limit && i < |n.grants| && n.grants[i].at == r.grants[i].at
  {
    if fs != [] {
      RunOn(r, fs[..|fs| - 1], i);
      NextKeepsInv(Run(r, fs[..|fs| - 1]), fs[|fs| - 1]);
    }
  }

  lemma RunThen(s: State, es: seq<Event>, e: Event)
    ensures Run(s, es + [e]) == Next(Run(s, es), e)
  {
    assert (es + [e])[..|es + [e]| - 1] == es;
  }

  lemma {:induction false} FreshNonce(grants: seq<Grant>) returns (nonce: Uuid)
    ensures forall g | g in grants :: g.nonce < nonce
  {
    if grants == [] {
      nonce := 0;
    } else {
      var prior := grants[..|grants| - 1];
      nonce := FreshNonce(prior);
      assert grants == prior + [grants[|grants| - 1]];
      nonce := Max(nonce, grants[|grants| - 1].nonce + 1);
    }
  }

  /** The claimant holds the row to the end of its lease, is overtaken at once, and keeps publishing until `close`. */
  lemma OvertakenLater(r: State, i: nat, close: Time) returns (fs: seq<Event>)
    requires Inv(r) && |r.grants| == i + 1 && r.grants[i].stage.Publishing?
    requires r.now <= r.grants[i].at + LeaseOf(r) < close
    ensures Overlapped(Run(r, fs), i, close)
  {
    var nonce := FreshNonce(r.grants);
    var lapse := r.grants[i].at + LeaseOf(r);
    Overtaken(r, i, nonce, lapse);
    RunThen(r, [], Tick(lapse));
    fs := [] + [Tick(lapse)];
    RunThen(r, fs, Claim(nonce, true));
    fs := fs + [Claim(nonce, true)];
    RunThen(r, fs, Start(i + 1));
    fs := fs + [Start(i + 1)];
    RunThen(r, fs, Tick(close));
    fs := fs + [Tick(close)];
    KeepsPublishing(Next(Next(Next(r, Tick(lapse)), Claim(nonce, true)), Start(i + 1)), i, lapse, close);
  }

  /** When the lease lapses another claimant is granted the row and starts publishing. */
  lemma Overtaken(r: State, i: nat, nonce: Uuid, lapse: Time)
    requires Inv(r) && |r.grants| == i + 1 && r.grants[i].stage.Publishing?
    requires lapse == r.grants[i].at + LeaseOf(r) && r.now <= lapse && forall g | g in r.grants :: g.nonce < nonce
    ensures var n := Next(Next(Next(r, Tick(lapse)), Claim(nonce, true)), Start(i + 1));
            n.grants == r.grants + [Grant(nonce, lapse, Publishing(lapse))] && n.now == lapse
  {
    var a := Next(r, Tick(lapse));
    var b := Next(a, Claim(nonce, true));
    assert b == a.(row := b.row, grants := r.grants + [Grant(nonce, lapse, Waiting)]);
  }

  lemma KeepsPublishing(n: State, i: nat, lapse: Time, close: Time)
    requires |n.grants| == i + 2 && n.now == lapse < close
    requires n.grants[i].stage.Publishing? && n.grants[i + 1].stage == Publishing(lapse)
    ensures Overlapped(Next(n, Tick(close)), i, close)
  {
    assert Next(n, Tick(close)).grants[i + 1].stage.start < close;
  }

  lemma NotOverlapped(r: State, fs: seq<Event>, i: nat, close: Time)
    requires Inv(r) && i < |r.grants| && close <= r.grants[i].at + LeaseOf(r)
    ensures !Overlapped(Run(r, fs), i, close)
  {
    var n := Run(r, fs);
    RunOn(r, fs, i);
    if !n.grants[i].stage.Waiting? && WindowEnd(n.grants[i], n.now) == close {
      forall j | i < j < |n.grants| && !n.grants[j].stage.Waiting? ensures close <= n.grants[j].stage.start {
        WindowsWithinLease(n, i, j);
      }
    }
  }

  /**
  Exactly when a window can be overlapped: for the claimant that is publishing
  within its lease, some continuation lets a later window open before this one
  closes at `close` if and only if `close` lies beyond the end of the lease.
   */
  lemma {:induction false} OverlapExactly(s: State, es: seq<Event>, i: nat, close: Time)
    requires Init(s)
    requires var r := Run(s, es);
             && |r.grants| == i + 1 && r.grants[i].stage.Publishing? && r.now <= r.grants[i].at + LeaseOf(r)
    ensures var r := Run(s, es); CanOverlap(r, i, close) <==> r.grants[i].at + LeaseOf(r) < close
  {
    RunKeepsInv(s, es);
    var r := Run(s, es);
    if r.grants[i].at + LeaseOf(r) < close {
      var fs := OvertakenLater(r, i, close);
    } else {
      forall fs ensures !Overlapped(Run(r, fs), i, close) {
        NotOverlapped(r, fs, i, close);
      }
    }
  }

  /** A run with two overlapping windows: the first claimant publishes past its lease. */
  lemma LateClaimantIsOverlapped() returns (s: State, es: seq<Event>)
    ensures Init(s) && Overlapped(Run(s, es), 0, MARGIN + 2)
  {
    s := State(None, 0, 1, []);
    es := FirstPublisher(s);
    var fs := OvertakenLater(Run(s, es), 0, MARGIN + 2);
    RunConcat(s, es, fs);
    es := es + fs;
  }

  lemma FirstPublisher(s: State) returns (es: seq<Event>)
    requires s == State(None, 0, 1, [])
    ensures Inv(Run(s, es)) && Run(s, es).grants == [Grant(0, 0, Publishing(0))]
    ensures Run(s, es).now == 0 && Run(s, es).limit == 1
  {
    es := [];
    RunThen(s, es, Claim(0, true));
    es := es + [Claim(0, true)];
    RunThen(s, es, Start(0));
    es := es + [Start(0)];
    RunKeepsInv(s, es);
  }

  lemma {:induction false} RunConcat(s: State, es: seq<Event>, fs: seq<Event>)
    ensures Run(s, es + fs) == Run(Run(s, es), fs)
  {
    if fs == [] {
      assert es + fs == es;
    } else {
      RunConcat(s, es, fs[..|fs| - 1]);
      assert es + fs == (es + fs[..|fs| - 1]) + [fs[|fs| - 1]];
      RunThen(s, es + fs[..|fs| - 1], fs[|fs| - 1]);
    }
  }
}
