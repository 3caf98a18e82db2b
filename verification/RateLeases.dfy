/**
What a lease and a backoff are worth: as long as they last, nobody else is
granted the row, whatever anybody claims, forced or not. Stated in the columns
of the coordination row.
 */
module RateLeases {
  import opened Base
  import opened RateTypes
  import opened RateRows
  import opened RateCache

  /** The three-valued readiness column, in two values: nothing unknown is ready. */
  lemma ReadyExactly(r: Row, u: Unit, now: Time)
    ensures Ready(r, u, now) <==>
            if r.kind.FetchLatest? then r.completed.Some? && r.freshUntil.Some? && now < r.freshUntil.value
            else && r.covered.Some? && FetchToOf(u) <= r.covered.value
                 && ((u.MonthUnit? && u.permanent) || (r.freshUntil.Some? && now < r.freshUntil.value))
  {
  }

  /** Everything a claim looks at, in two values: nothing unknown lets it through. */
  lemma ClaimableExactly(r: Row, u: Unit, now: Time, force: bool)
    ensures Claimable(r, u, now, force) <==>
            && r.series == u.series && (r.kind.FetchLatest? <==> u.LatestUnit?)
            && (r.lease.Some? ==> r.lease.value <= now) && r.nextAttempt <= now
            && (force
                || (if r.kind.FetchLatest? then r.completed.None? || (r.freshUntil.Some? && r.freshUntil.value <= now)
                    else || r.covered.None? || r.covered.value < FetchToOf(u)
                         || (!(u.MonthUnit? && u.permanent) && r.freshUntil.Some? && r.freshUntil.value <= now)))
  {
  }

  /** The row is leased beyond `now`, or backing off beyond it. */
  ghost predicate Guarded(rows: map<Key, Row>, k: Key, now: Time) {
    k in rows && ((rows[k].lease.Some? && now < rows[k].lease.value) || now < rows[k].nextAttempt)
  }

  /** A claim, by whatever nonce and forced or not, neither changes a guarded row nor returns its unit. */
  lemma {:induction false} GuardedIsRefused(
    rows: map<Key, Row>, units: seq<Unit>, nonce: Uuid, now: Time, lease: int, force: bool, k: Key)
    requires Guarded(rows, k, now)
    ensures var (n, claimed) := ClaimAll(rows, units, nonce, now, lease, force);
            k in n && n[k] == rows[k] && forall u | u in claimed :: KeyOf(u) != k
  {
    if units != [] {
      GuardedIsRefused(rows, units[..|units| - 1], nonce, now, lease, force, k);
    }
  }

  /** The step completes or releases the key under the nonce that holds it. */
  ghost predicate LetsGo(e: Event, k: Key, nonce: Uuid) {
    match e
    case Complete(n, units, _, _) => n == nonce && exists u :: u in units && KeyOf(u) == k
    case FailUnit(n, u, _) => n == nonce && KeyOf(u) == k
    case _ => false
  }

  lemma ClockAdvances(c: Cache, e: Event)
    ensures c.now <= Next(c, e).now
  {
  }

  lemma HeldStep(c: Cache, e: Event, k: Key, nonce: Uuid, until: Time)
    requires k in c.rows && c.rows[k].nonce == Some(nonce) && c.rows[k].lease == Some(until)
    requires c.now < until && !LetsGo(e, k, nonce)
    ensures k in Next(c, e).rows && Next(c, e).rows[k] == c.rows[k]
  {
    match e
    case Claim(units, other, lease, force) => GuardedIsRefused(c.rows, units, other, c.now, lease, force, k);
    case Complete(other, units, _, _) =>
      UnitAtExact(units, k);
      if UnitAt(units, k).Some? {
        assert other != nonce;
      }
    case FailUnit(_, _, _) =>
    case Tick(_) =>
  }

  /**
  Exclusive leases: a row held under a nonce until some time keeps that nonce
  and that time through every continuation that stays before it and in which
  the holder does not complete or release the row, and in all those states no
  claim by anybody, forced or not, returns a unit of it.
   */
  lemma {:induction false} LeaseIsExclusive(c: Cache, es: seq<Event>, k: Key, nonce: Uuid, until: Time)
    requires k in c.rows && c.rows[k].nonce == Some(nonce) && c.rows[k].lease == Some(until)
    requires Run(c, es).now < until && forall e | e in es :: !LetsGo(e, k, nonce)
    ensures var r := Run(c, es);
            && k in r.rows && r.rows[k].nonce == Some(nonce) && r.rows[k].lease == Some(until)
            && (forall units, other, lease, force ::
                  forall u | u in ClaimAll(r.rows, units, other, r.now, lease, force).1 :: KeyOf(u) != k)
  {
    if es != [] {
      var prior, e := es[..|es| - 1], es[|es| - 1];
      assert es == prior + [e];
      assert forall x | x in prior :: x in es;
      ClockAdvances(Run(c, prior), e);
      LeaseIsExclusive(c, prior, k, nonce, until);
      HeldStep(Run(c, prior), e, k, nonce, until);
    }
    var r := Run(c, es);
    forall units, other, lease, force
      ensures forall u | u in ClaimAll(r.rows, units, other, r.now, lease, force).1 :: KeyOf(u) != k
    {
      GuardedIsRefused(r.rows, units, other, r.now, lease, force, k);
    }
  }

  lemma {:induction false} ClaimedIsLeased(
    rows: map<Key, Row>, units: seq<Unit>, nonce: Uuid, now: Time, lease: int, force: bool, u: Unit)
    requires u in ClaimAll(rows, units, nonce, now, lease, force).1
    ensures var n := ClaimAll(rows, units, nonce, now, lease, force).0;
            KeyOf(u) in n && n[KeyOf(u)].nonce == Some(nonce) && n[KeyOf(u)].lease == Some(now + lease)
  {
    var prior := ClaimAll(rows, units[..|units| - 1], nonce, now, lease, force).1;
    if u in prior {
      ClaimedIsLeased(rows, units[..|units| - 1], nonce, now, lease, force, u);
    }
  }

  /** A unit that a claim returned is held, exclusively, for the whole lease that was asked for. */
  lemma GrantedUnitIsHeld(
    c: Cache, units: seq<Unit>, nonce: Uuid, lease: int, force: bool, u: Unit, es: seq<Event>)
    requires u in ClaimAll(c.rows, units, nonce, c.now, lease, force).1
    requires var n := Next(c, Claim(units, nonce, lease, force));
             Run(n, es).now < c.now + lease && forall e | e in es :: !LetsGo(e, KeyOf(u), nonce)
    ensures var r := Run(Next(c, Claim(units, nonce, lease, force)), es);
            && Owned(r.rows, KeyOf(u), nonce) && r.rows[KeyOf(u)].lease == Some(c.now + lease)
            && (forall more, other, longer, forced ::
                  forall v | v in ClaimAll(r.rows, more, other, r.now, longer, forced).1 :: KeyOf(v) != KeyOf(u))
  {
    ClaimedIsLeased(c.rows, units, nonce, c.now, lease, force, u);
    LeaseIsExclusive(Next(c, Claim(units, nonce, lease, force)), es, KeyOf(u), nonce, c.now + lease);
  }

  /** Work that nobody has a row for yet is granted to the first claim that names it, forced or not. */
  lemma {:induction false} NewWorkIsGranted(
    rows: map<Key, Row>, units: seq<Unit>, nonce: Uuid, now: Time, lease: int, force: bool, k: Key)
    requires k !in rows
    ensures var (n, claimed) := ClaimAll(rows, units, nonce, now, lease, force);
            && (k in n <==> exists u :: u in units && KeyOf(u) == k)
            && (k in n ==> exists u :: u in claimed && KeyOf(u) == k)
  {
    if units != [] {
      var prior, u := units[..|units| - 1], units[|units| - 1];
      assert forall v :: v in units <==> v in prior || v == u;
      NewWorkIsGranted(rows, prior, nonce, now, lease, force, k);
      var (n, claimed) := ClaimAll(rows, prior, nonce, now, lease, force);
      assert forall v | v in claimed :: v in ClaimAll(rows, units, nonce, now, lease, force).1;
    }
  }

  // ---- backoff -------------------------------------------------------------

  /** Released, and not to be claimed before `until`. */
  ghost predicate BacksOff(c: Cache, k: Key, until: Time) {
    k in c.rows && c.rows[k].nonce.None? && c.rows[k].lease.None? && c.rows[k].nextAttempt == until
  }

  lemma BackoffStep(c: Cache, e: Event, k: Key, until: Time)
    requires BacksOff(c, k, until) && c.now < until
    ensures k in Next(c, e).rows && Next(c, e).rows[k] == c.rows[k]
  {
    match e
    case Claim(units, other, lease, force) => GuardedIsRefused(c.rows, units, other, c.now, lease, force, k);
    case Complete(_, units, _, _) => UnitAtExact(units, k);
    case FailUnit(_, _, _) =>
    case Tick(_) =>
  }

  /** Until its backoff is over a released row does not change, whatever anybody does, and no unit of it is granted. */
  lemma {:induction false} BackoffHolds(c: Cache, es: seq<Event>, k: Key, until: Time)
    requires BacksOff(c, k, until) && Run(c, es).now < until
    ensures var r := Run(c, es);
            && k in r.rows && r.rows[k] == c.rows[k]
            && (forall units, other, lease, force ::
                  forall u | u in ClaimAll(r.rows, units, other, r.now, lease, force).1 :: KeyOf(u) != k)
  {
    if es != [] {
      var prior, e := es[..|es| - 1], es[|es| - 1];
      ClockAdvances(Run(c, prior), e);
      BackoffHolds(c, prior, k, until);
      BackoffStep(Run(c, prior), e, k, until);
    }
    var r := Run(c, es);
    forall units, other, lease, force
      ensures forall u | u in ClaimAll(r.rows, units, other, r.now, lease, force).1 :: KeyOf(u) != k
    {
      GuardedIsRefused(r.rows, units, other, r.now, lease, force, k);
    }
  }

  /** A unit released with a delay is granted to nobody before the delay is over, and to a forced claim right after. */
  lemma ReleasedUnitWaits(c: Cache, nonce: Uuid, u: Unit, delay: int, es: seq<Event>)
    requires Owned(c.rows, KeyOf(u), nonce) && SameIdentity(c.rows[KeyOf(u)], u)
    ensures var n := Next(c, FailUnit(nonce, u, delay));
            && (Run(n, es).now < c.now + delay ==>
                  forall units, other, lease, force ::
                    forall v | v in ClaimAll(Run(n, es).rows, units, other, Run(n, es).now, lease, force).1 ::
                      KeyOf(v) != KeyOf(u))
            && (forall at, other, lease | at >= c.now + delay ::
                  ClaimAll(n.rows, [u], other, at, lease, true).1 == [u])
  {
    var n := Next(c, FailUnit(nonce, u, delay));
    if Run(n, es).now < c.now + delay {
      BackoffHolds(n, es, KeyOf(u), c.now + delay);
    }
    forall at, other, lease | at >= c.now + delay ensures ClaimAll(n.rows, [u], other, at, lease, true).1 == [u] {
      ForcedClaimOfOne(n.rows, u, other, at, lease);
    }
  }

  lemma ForcedClaimOfOne(rows: map<Key, Row>, u: Unit, nonce: Uuid, now: Time, lease: int)
    requires KeyOf(u) in rows && SameIdentity(rows[KeyOf(u)], u)
    requires rows[KeyOf(u)].lease.None? && rows[KeyOf(u)].nextAttempt <= now
    ensures ClaimAll(rows, [u], nonce, now, lease, true).1 == [u]
  {
    assert [u][..0] == [];
    assert ClaimAll(rows, [], nonce, now, lease, true) == (rows, []);
  }

  /** A completed unit is free at once: a forced claim of it is granted from then on. */
  lemma CompletedUnitIsFree(
    c: Cache, nonce: Uuid, units: seq<Unit>, req: FetchRequest, obs: seq<ProviderObservation>, u: Unit)
    requires CanComplete(c, nonce, units, req, obs) && u in units && SameIdentity(c.rows[KeyOf(u)], u)
    ensures var n := Next(c, Complete(nonce, units, req, obs));
            forall at, other, lease | at >= c.now :: ClaimAll(n.rows, [u], other, at, lease, true).1 == [u]
  {
    var n := Next(c, Complete(nonce, units, req, obs));
    assert Owned(c.rows, KeyOf(u), nonce);
    UnitAtExact(units, KeyOf(u));
    forall at, other, lease | at >= c.now ensures ClaimAll(n.rows, [u], other, at, lease, true).1 == [u] {
      ForcedClaimOfOne(n.rows, u, other, at, lease);
    }
  }
}
