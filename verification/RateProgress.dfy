/**
What makes units ready: left alone, with a provider that answers, whoever may
claim a unit gets it, and the fetch that completes it leaves it ready.
 */
module RateProgress {
  import opened Base
  import opened RateTypes
  import opened RateRows
  import opened RateCache
  import opened RateStore
  import opened Batching
  import opened RateWork

  ghost predicate ReadyAt(c: Cache, u: Unit) {
    StateOf(c.rows, u, c.now).ready
  }

  ghost predicate AllReadyAt(c: Cache, units: seq<Unit>) {
    forall u | u in units :: ReadyAt(c, u)
  }

  ghost predicate AllOwned(rows: map<Key, Row>, units: seq<Unit>, nonce: Uuid) {
    forall u | u in units :: Owned(rows, KeyOf(u), nonce)
  }

  /** The unit has no row yet, or one that a claim would be granted. */
  predicate Grantable(c: Cache, u: Unit, force: bool) {
    KeyOf(u) in c.rows ==> Claimable(c.rows[KeyOf(u)], u, c.now, force)
  }

  /** The rows of other work are as they were. */
  ghost predicate OthersKept(rows: map<Key, Row>, more: map<Key, Row>, units: seq<Unit>) {
    forall k | k in rows && (forall u | u in units :: KeyOf(u) != k) :: k in more && more[k] == rows[k]
  }

  /** Completed at this moment, and ready. */
  ghost predicate DoneAt(c: Cache, u: Unit) {
    ReadyAt(c, u) && StateOf(c.rows, u, c.now).completed == Some(c.now)
  }

  ghost predicate AllDoneAt(c: Cache, units: seq<Unit>) {
    forall u | u in units :: DoneAt(c, u)
  }

  /** No time has passed, the units are done, and nothing happened to other work. */
  ghost predicate Renewed(c: Cache, n: Cache, units: seq<Unit>) {
    n.now == c.now && AllDoneAt(n, units) && OthersKept(c.rows, n.rows, units)
  }

  // ---- claiming ------------------------------------------------------------

  /** The units are held under the nonce, and only they were touched. */
  ghost predicate Granted(c: Cache, rows: map<Key, Row>, units: seq<Unit>, nonce: Uuid) {
    && AllOwned(rows, units, nonce) && OthersKept(c.rows, rows, units)
    && (forall k | k in rows && k !in c.rows :: exists u :: u in units && KeyOf(u) == k)
  }

  /** A claim of distinct work that may all be claimed is granted in full. */
  lemma {:induction false} AllGranted(c: Cache, units: seq<Unit>, nonce: Uuid, lease: int, force: bool)
    requires Plannable(units) && forall u | u in units :: Grantable(c, u, force)
    ensures var (rows, claimed) := ClaimAll(c.rows, units, nonce, c.now, lease, force);
            claimed == units && Granted(c, rows, units, nonce)
  {
    if units != [] {
      var prior, u := units[..|units| - 1], units[|units| - 1];
      assert units == prior + [u];
      PlannableGrows(prior, prior, u);
      assert forall v | v in prior :: v in units;
      AllGranted(c, prior, nonce, lease, force);
      forall v | v in prior ensures KeyOf(v) != KeyOf(u) {
        var i :| 0 <= i < |prior| && prior[i] == v;
        KeysDiffer(units, i, |prior|);
      }
      OneGranted(c, ClaimAll(c.rows, prior, nonce, c.now, lease, force).0, prior, u, nonce, lease, force);
    }
  }

  lemma OneGranted(
    c: Cache, rows: map<Key, Row>, prior: seq<Unit>, u: Unit, nonce: Uuid, lease: int, force: bool)
    requires Granted(c, rows, prior, nonce) && Grantable(c, u, force)
    requires forall v | v in prior :: KeyOf(v) != KeyOf(u)
    ensures var (after, got) := ClaimOne(rows, u, nonce, c.now, lease, force);
            got && Granted(c, after, prior + [u], nonce)
  {
    var k := KeyOf(u);
    if k in c.rows {
      assert rows[k] == c.rows[k];
    } else {
      assert k !in rows;
    }
    assert Claimable(Ensured(rows, u, c.now)[k], u, c.now, force);
    var after := ClaimOne(rows, u, nonce, c.now, lease, force).0;
    assert after == rows[k := after[k]] && after[k].nonce == Some(nonce);
    OneMoreOwned(c, rows, after, prior, u, nonce);
  }

  lemma OneMoreOwned(c: Cache, rows: map<Key, Row>, after: map<Key, Row>, prior: seq<Unit>, u: Unit, nonce: Uuid)
    requires Granted(c, rows, prior, nonce) && Owned(after, KeyOf(u), nonce)
    requires after == rows[KeyOf(u) := after[KeyOf(u)]]
    requires forall v | v in prior :: KeyOf(v) != KeyOf(u)
    ensures Granted(c, after, prior + [u], nonce)
  {
    var units := prior + [u];
    assert u in units && forall v | v in prior :: v in units;
  }

  lemma GrantedThenRenewed(c: Cache, m: Cache, n: Cache, units: seq<Unit>, nonce: Uuid)
    requires Granted(c, m.rows, units, nonce) && m.now == c.now && Renewed(m, n, units)
    ensures Renewed(c, n, units)
  {
  }

  /** Two units of a plan have different keys. */
  lemma KeysDiffer(units: seq<Unit>, i: nat, j: nat)
    requires Plannable(units) && i < j < |units|
    ensures KeyOf(units[i]) != KeyOf(units[j])
  {
    assert SameStart(units[i], units[j]) ==> units[i].series.id != units[j].series.id;
  }

  // ---- completing ----------------------------------------------------------

  lemma CompletedIsReady(r: Row, u: Unit, now: Time, freshFor: int)
    requires SameIdentity(r, u) && freshFor >= 1
    ensures Ready(Completed(r, u, FetchToOf(u), now, freshFor), u, now)
  {
  }

  /** A completion leaves each of its units done. */
  lemma CompletionRenews(c: Cache, nonce: Uuid, batch: seq<Unit>, obs: seq<ProviderObservation>)
    requires BatchOk(batch) && c.freshFor >= 1 && CanComplete(c, nonce, batch, RequestForBatch(batch), obs)
    requires forall u | u in batch :: SameIdentity(c.rows[KeyOf(u)], u)
    ensures Renewed(c, Next(c, Complete(nonce, batch, RequestForBatch(batch), obs)), batch)
  {
    var n := Next(c, Complete(nonce, batch, RequestForBatch(batch), obs));
    forall u | u in batch ensures DoneAt(n, u) {
      var i :| 0 <= i < |batch| && batch[i] == u;
      assert PeriodOf(batch[i]) == PeriodOf(batch[0]);
      UnitAtExact(batch, KeyOf(u));
      var v := UnitAt(batch, KeyOf(u)).value;
      var j :| 0 <= j < |batch| && batch[j] == v;
      assert i == j;
      CompletedIsReady(c.rows[KeyOf(u)], u, c.now, c.freshFor);
    }
    forall k | k in c.rows && forall u | u in batch :: KeyOf(u) != k ensures k in n.rows && n.rows[k] == c.rows[k] {
      UnitAtExact(batch, k);
    }
  }

  // ---- batch by batch ------------------------------------------------------

  /** The batches before `i` are done, those from `i` on are still held, and other work is as it was. */
  ghost predicate PartlyRenewed(c: Cache, n: Cache, units: seq<Unit>, batches: seq<seq<Unit>>, i: nat, nonce: Uuid) {
    && n.now == c.now && OthersKept(c.rows, n.rows, units)
    && (forall j | 0 <= j < |batches| && j < i :: AllDoneAt(n, batches[j]))
    && (forall j | i <= j < |batches| :: AllOwned(n.rows, batches[j], nonce))
  }

  lemma NothingRenewed(c: Cache, units: seq<Unit>, batches: seq<seq<Unit>>, nonce: Uuid)
    requires Packing(units, batches) && AllOwned(c.rows, units, nonce)
    ensures PartlyRenewed(c, c, units, batches, 0, nonce)
  {
    forall j, u | 0 <= j < |batches| && u in batches[j] ensures u in units {
      InBatch(units, batches, j, u);
    }
  }

  lemma InBatch(units: seq<Unit>, batches: seq<seq<Unit>>, j: nat, u: Unit)
    requires Packing(units, batches) && j < |batches| && u in batches[j]
    ensures u in units
  {
    PlaceInFlatten(batches, j, u);
    assert u in multiset(Flatten(batches));
  }

  lemma {:induction false} PlaceInFlatten(batches: seq<seq<Unit>>, j: nat, u: Unit)
    requires j < |batches| && u in batches[j]
    ensures u in Flatten(batches)
  {
    if j > 0 {
      PlaceInFlatten(batches[1..], j - 1, u);
    }
  }

  lemma {:induction false} PlacesInFlatten(batches: seq<seq<Unit>>, i: nat, j: nat, u: Unit, v: Unit)
    returns (a: nat, b: nat)
    requires i < j < |batches| && u in batches[i] && v in batches[j]
    ensures a < b < |Flatten(batches)| && Flatten(batches)[a] == u && Flatten(batches)[b] == v
  {
    if i == 0 {
      PlaceInFlatten(batches[1..], j - 1, v);
      a :| 0 <= a < |batches[0]| && batches[0][a] == u;
      b :| 0 <= b < |Flatten(batches[1..])| && Flatten(batches[1..])[b] == v;
      b := b + |batches[0]|;
    } else {
      a, b := PlacesInFlatten(batches[1..], i - 1, j - 1, u, v);
      a, b := a + |batches[0]|, b + |batches[0]|;
    }
  }

  lemma BatchesAreApart(units: seq<Unit>, batches: seq<seq<Unit>>, i: nat, j: nat, u: Unit, v: Unit)
    requires Plannable(units) && Packing(units, batches)
    requires i < j < |batches| && u in batches[i] && v in batches[j]
    ensures KeyOf(u) != KeyOf(v)
  {
    var a, b := PlacesInFlatten(batches, i, j, u, v);
    if SameStart(u, v) {
      TwiceInBatch(units, Flatten(batches), a, b);
    }
  }

  lemma MoreRenewed(
    c: Cache, m: Cache, n: Cache, units: seq<Unit>, batches: seq<seq<Unit>>, i: nat, nonce: Uuid)
    requires Plannable(units) && Packing(units, batches) && i < |batches|
    requires PartlyRenewed(c, m, units, batches, i, nonce) && Renewed(m, n, batches[i])
    ensures PartlyRenewed(c, n, units, batches, i + 1, nonce)
  {
    forall j, v | 0 <= j < |batches| && j != i && v in batches[j] && KeyOf(v) in m.rows
      ensures KeyOf(v) in n.rows && n.rows[KeyOf(v)] == m.rows[KeyOf(v)]
    {
      forall u | u in batches[i] ensures KeyOf(u) != KeyOf(v) {
        if i < j {
          BatchesAreApart(units, batches, i, j, u, v);
        } else {
          BatchesAreApart(units, batches, j, i, v, u);
        }
      }
    }
    forall j | 0 <= j < i ensures AllDoneAt(n, batches[j]) {
      forall v | v in batches[j] ensures DoneAt(n, v) {
        assert DoneAt(m, v);
      }
    }
    forall u | u in batches[i] ensures u in units {
      InBatch(units, batches, i, u);
    }
  }

  lemma AllRenewed(c: Cache, n: Cache, units: seq<Unit>, batches: seq<seq<Unit>>, nonce: Uuid)
    requires Packing(units, batches) && PartlyRenewed(c, n, units, batches, |batches|, nonce)
    ensures Renewed(c, n, units)
  {
    forall u | u in units ensures DoneAt(n, u) {
      assert u in multiset(units);
      var j := BatchOf(batches, u);
    }
  }

  lemma {:induction false} BatchOf(batches: seq<seq<Unit>>, u: Unit) returns (j: nat)
    requires u in Flatten(batches)
    ensures j < |batches| && u in batches[j]
  {
    if u in batches[0] {
      j := 0;
    } else {
      j := BatchOf(batches[1..], u);
      j := j + 1;
    }
  }

  // ---- the provider --------------------------------------------------------

  /** All the provider has is positive and dated. */
  ghost predicate Proper(p: Provider) {
    forall id, d :: p(id, d).Some? ==> d != 0 && p(id, d).value.coefficient > 0
  }

  /** The provider has a value the unit's request can bring, and the request is one the client lets through. */
  ghost predicate Supplied(p: Provider, lookback: nat, today: Day, u: Unit) {
    if u.MonthUnit? then u.from != 0 && u.fetchTo != 0
    else exists d :: today - lookback <= d <= today && p(u.series.id, d).Some?
  }

  /** The response keeps to the series of the batch and, for a range, to its period. */
  ghost predicate Within(batch: seq<Unit>, obs: seq<ProviderObservation>)
    requires batch != []
  {
    var req := RequestForBatch(batch);
    forall o | o in obs :: o.id in req.ids && (req.kind.FetchRange? ==> req.from <= o.date <= req.to)
  }

  /** An honest response that keeps to its request can be stored by whoever holds the units. */
  lemma HolderCompletes(p: Provider, c: Cache, nonce: Uuid, batch: seq<Unit>, obs: seq<ProviderObservation>)
    requires BatchOk(batch) && DistinctIds(batch) && Proper(p) && Honest(p, batch, obs) && Within(batch, obs)
    requires AllOwned(c.rows, batch, nonce)
    ensures CanComplete(c, nonce, batch, RequestForBatch(batch), obs)
  {
    var req := RequestForBatch(batch);
    forall o | o in obs ensures Storable(batch, req, o) {
      var i :| 0 <= i < |batch| && req.ids[i] == o.id;
      SeriesForUnit(batch, batch[i]);
      assert p(o.id, o.date) == Some(o.value);
    }
    forall i, j | 0 <= i < j < |batch| ensures KeyOf(batch[i]) != KeyOf(batch[j]) {
      assert batch[i].series.id != batch[j].series.id;
    }
  }
}
