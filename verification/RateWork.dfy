/** Facts about the units of work that planning, claiming and batching hand on to one another. */
module RateWork {
  import opened Base
  import opened Ordering
  import opened RateTypes
  import opened RateRows
  import opened RateCache
  import opened Batching

  predicate DistinctIds(units: seq<Unit>) {
    forall i, j | 0 <= i < j < |units| :: units[i].series.id != units[j].series.id
  }

  ghost predicate Workable(units: seq<Unit>) {
    Plannable(units) && forall u | u in units :: WellPlanned(u)
  }

  ghost predicate FetchedSince(c: Cache, k: Key, since: Time) {
    exists t :: (k, t) in c.fetched && since <= t <= c.now
  }

  lemma FetchedSinceStays(c: Cache, n: Cache, k: Key, since: Time, earlier: Time)
    requires c.fetched <= n.fetched && c.now <= n.now && FetchedSince(c, k, since) && earlier <= since
    ensures FetchedSince(n, k, earlier)
  {
    var t :| (k, t) in c.fetched && since <= t <= c.now;
    assert (k, t) in n.fetched;
  }

  /** Claimed units are some of the requested ones, in order. */
  lemma {:induction false} ClaimedAreUnits(
    rows: map<Key, Row>, units: seq<Unit>, nonce: Uuid, now: Time, lease: int, force: bool)
    ensures var claimed := ClaimAll(rows, units, nonce, now, lease, force).1;
            multiset(claimed) <= multiset(units) && (Plannable(units) ==> Plannable(claimed))
  {
    if units != [] {
      var u, prior := units[|units| - 1], units[..|units| - 1];
      assert units == prior + [u];
      ClaimedAreUnits(rows, prior, nonce, now, lease, force);
      var before := ClaimAll(rows, prior, nonce, now, lease, force).1;
      if Plannable(units) {
        PlannableGrows(prior, before, u);
      }
    }
  }

  lemma PlannableGrows(prior: seq<Unit>, some: seq<Unit>, u: Unit)
    requires Plannable(prior + [u])
    ensures Plannable(prior)
    ensures multiset(some) <= multiset(prior) && Plannable(some) ==> Plannable(some + [u])
  {
    var all := prior + [u];
    assert forall i | 0 <= i < |prior| :: all[i] == prior[i];
    assert forall x | x in prior :: x in all;
    assert u in all;
    if multiset(some) <= multiset(prior) && Plannable(some) {
      forall i | 0 <= i < |some| && SameStart(some[i], u) ensures some[i].series.id != u.series.id {
        assert some[i] in multiset(some);
        assert some[i] in multiset(prior);
        var k :| 0 <= k < |prior| && prior[k] == some[i];
        assert all[k] == some[i] && all[|prior|] == u;
      }
    }
  }

  /** A batch cut from workable units may be sent as one request. */
  lemma BatchIsWorkable(units: seq<Unit>, batch: seq<Unit>)
    requires Workable(units) && batch in Cut(Sort(UnitLe, units))
    ensures BatchOk(batch) && DistinctIds(batch) && (forall u | u in batch :: u in units && WellPlanned(u))
  {
    CutPacks(units);
    BatchIsWindow(Sort(UnitLe, units), batch);
    SortPermutes(UnitLe, units);
    BatchIdsOk(units, batch);
    var ids := RequestForBatch(batch).ids;
    assert forall i | 0 <= i < |batch| :: ids[i] == batch[i].series.id;
    forall u | u in batch ensures u in units {
      assert u in multiset(batch);
      assert u in multiset(units);
    }
  }
}
