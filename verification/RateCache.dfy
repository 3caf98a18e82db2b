/**
Runs of the exchange-rate cache: workers claim units under nonces, fetch outside
any transaction, then complete or fail; other workers take over expired
leases; and whatever the interleaving, the cache agrees with the provider.
 */
module RateCache {
  import opened Base
  import opened RateTypes
  import opened RateRows
  import opened RateLog
  import opened Batching

  datatype Cache = Cache(
    rows: map<Key, Row>,
    log: seq<Observation>,
    now: Time,
    freshFor: int,              // configuration shared by every instance
    used: set<Uuid>,            // lease nonces drawn so far
    closed: set<Key>,           // months completed as permanent
    fetched: set<(Key, Time)>)  // committed fetches

  // ---- the three transactions ----------------------------------------------

  function Ensured(rows: map<Key, Row>, u: Unit, now: Time): map<Key, Row> {
    if KeyOf(u) in rows then rows else rows[KeyOf(u) := NewRow(u, now)]
  }

  function ClaimOne(
    rows: map<Key, Row>, u: Unit, nonce: Uuid, now: Time, lease: int, force: bool): (map<Key, Row>, bool)
  {
    var k, present := KeyOf(u), Ensured(rows, u, now);
    if Claimable(present[k], u, now, force) then (present[k := Leased(present[k], nonce, now + lease)], true)
    else (present, false)
  }

  function ClaimAll(rows: map<Key, Row>, units: seq<Unit>, nonce: Uuid, now: Time, lease: int, force: bool)
    : (map<Key, Row>, seq<Unit>)
  {
    if units == [] then (rows, [])
    else
      var u := units[|units| - 1];
      var (prior, claimed) := ClaimAll(rows, units[..|units| - 1], nonce, now, lease, force);
      var (after, got) := ClaimOne(prior, u, nonce, now, lease, force);
      (after, if got then claimed + [u] else claimed)
  }

  predicate Owned(rows: map<Key, Row>, k: Key, nonce: Uuid) {
    k in rows && rows[k].nonce == Some(nonce)
  }

  /** The series a response row is stored under: that of the last unit with its identifier. */
  function SeriesFor(units: seq<Unit>, id: string): Option<Series> {
    if units == [] then None
    else if units[|units| - 1].series.id == id then Some(units[|units| - 1].series)
    else SeriesFor(units[..|units| - 1], id)
  }

  predicate Storable(units: seq<Unit>, req: FetchRequest, o: ProviderObservation) {
    && SeriesFor(units, o.id).Some? && o.value.coefficient > 0 && o.date != 0
    && (req.kind.FetchRange? ==> req.from <= o.date <= req.to)
  }

  function Imports(units: seq<Unit>, obs: seq<ProviderObservation>): seq<Observation>
    requires forall o | o in obs :: SeriesFor(units, o.id).Some?
  {
    seq(|obs|, i requires 0 <= i < |obs| => Observation(SeriesFor(units, obs[i].id).value, obs[i].date, obs[i].value))
  }

  function UnitAt(units: seq<Unit>, k: Key): Option<Unit> {
    if units == [] then None
    else if KeyOf(units[|units| - 1]) == k then Some(units[|units| - 1])
    else UnitAt(units[..|units| - 1], k)
  }

  function CompleteRows(rows: map<Key, Row>, units: seq<Unit>, through: Day, now: Time, freshFor: int): map<Key, Row> {
    map k | k in rows ::
      if UnitAt(units, k).Some? then Completed(rows[k], UnitAt(units, k).value, through, now, freshFor) else rows[k]
  }

  /** Everything the completing transaction checks before it commits. */
  ghost predicate CanComplete(
    c: Cache, nonce: Uuid, units: seq<Unit>, req: FetchRequest, obs: seq<ProviderObservation>)
  {
    && units != []
    && (forall u | u in units :: Owned(c.rows, KeyOf(u), nonce))
    && (forall i, j | 0 <= i < j < |units| :: KeyOf(units[i]) != KeyOf(units[j]))
    && (forall o | o in obs :: Storable(units, req, o))
  }

  ghost function Keys(units: seq<Unit>): set<Key> {
    set u | u in units :: KeyOf(u)
  }

  ghost function ClosedBy(units: seq<Unit>): set<Key> {
    set u | u in units && PermanentUnit(u) :: KeyOf(u)
  }

  // ---- events and runs -----------------------------------------------------

  datatype Event =
    | Claim(units: seq<Unit>, nonce: Uuid, lease: int, force: bool)
    | Complete(nonce: Uuid, units: seq<Unit>, req: FetchRequest, obs: seq<ProviderObservation>)
    | FailUnit(nonce: Uuid, unit: Unit, delay: int)
    | Tick(to: Time)

  /** The cache after a completing transaction, which commits only when every check passes. */
  ghost function Finished(
    c: Cache, nonce: Uuid, units: seq<Unit>, req: FetchRequest, obs: seq<ProviderObservation>): Cache
  {
    if CanComplete(c, nonce, units, req, obs) then
      c.(rows := CompleteRows(c.rows, units, req.to, c.now, c.freshFor),
         log := RecordAll(c.log, Imports(units, obs)),
         closed := c.closed + ClosedBy(units),
         fetched := c.fetched + (set k | k in Keys(units) :: (k, c.now)))
    else c
  }

  ghost function Next(c: Cache, e: Event): Cache {
    match e
    case Claim(units, nonce, lease, force) =>
      c.(rows := ClaimAll(c.rows, units, nonce, c.now, lease, force).0, used := c.used + {nonce})
    case Complete(nonce, units, req, obs) => Finished(c, nonce, units, req, obs)
    case FailUnit(nonce, u, delay) =>
      if Owned(c.rows, KeyOf(u), nonce) then
        c.(rows := c.rows[KeyOf(u) := Released(c.rows[KeyOf(u)], c.now + delay)])
      else c
    case Tick(to) => if c.now <= to then c.(now := to) else c
  }

  predicate WellPlanned(u: Unit) {
    u.MonthUnit? ==> u.from <= u.fetchTo <= u.to
  }

  /** The response is what the provider holds: all of the period for a range, some newest day for a latest. */
  ghost predicate Honest(p: Provider, units: seq<Unit>, obs: seq<ProviderObservation>)
    requires units != []
  {
    var req := RequestForBatch(units);
    && (forall o | o in obs :: p(o.id, o.date) == Some(o.value))
    && (req.kind.FetchRange? ==>
          forall u, d | u in units && req.from <= d <= req.to && p(u.series.id, d).Some? ::
            ProviderObservation(u.series.id, d, p(u.series.id, d).value) in obs)
    && (req.kind.FetchLatest? ==> forall u | u in units :: exists o :: o in obs && o.id == u.series.id)
  }

  /** What the service does: draw fresh nonces, pack batches properly, and get honest answers. */
  ghost predicate Legal(p: Provider, c: Cache, e: Event) {
    match e
    case Claim(units, nonce, _, _) => nonce !in c.used && forall u | u in units :: WellPlanned(u)
    case Complete(_, units, req, obs) =>
      && BatchOk(units) && req == RequestForBatch(units) && (forall u | u in units :: WellPlanned(u))
      && (forall i, j | 0 <= i < j < |units| :: units[i].series.id != units[j].series.id)
      && Honest(p, units, obs)
    case FailUnit(_, _, _) => true
    case Tick(_) => true
  }

  ghost function Run(c: Cache, es: seq<Event>): Cache {
    if es == [] then c else Next(Run(c, es[..|es| - 1]), es[|es| - 1])
  }

  ghost predicate LegalRun(p: Provider, c: Cache, es: seq<Event>) {
    es == [] || (LegalRun(p, c, es[..|es| - 1]) && Legal(p, Run(c, es[..|es| - 1]), es[|es| - 1]))
  }

  ghost predicate Empty(c: Cache) {
    c.rows == map[] && c.log == [] && c.used == {} && c.closed == {} && c.fetched == {} && c.freshFor >= 1
  }

  // ---- the invariant -------------------------------------------------------

  ghost predicate LogSound(p: Provider, log: seq<Observation>) {
    forall o | o in log :: p(o.series.id, o.date) == Some(o.value)
  }

  /** The log holds exactly what the provider has, from the month's start through `until`. */
  ghost predicate CoveredThrough(p: Provider, log: seq<Observation>, s: Series, start: Day, until: Day) {
    forall d | start <= d <= until :: Current(log, s, d) == p(s.id, d)
  }

  ghost predicate Observed(log: seq<Observation>, s: Series) {
    exists o :: o in log && o.series == s
  }

  /** Row shape: identity, lease, and freshness bookkeeping. */
  ghost predicate RowShape(c: Cache, k: Key, r: Row) {
    && r.series == k.series
    && r.kind == (if k.LatestKey? then FetchLatest else FetchRange)
    && (r.nonce.Some? <==> r.lease.Some?)
    && (r.nonce.Some? ==> r.nonce.value in c.used)
    && (r.completed.Some? ==> (k, r.completed.value) in c.fetched && r.completed.value <= c.now)
    && (r.freshUntil.Some? ==> r.completed.Some? && r.freshUntil.value == r.completed.value + c.freshFor)
    && (k.LatestKey? ==> r.completed.Some? ==> r.freshUntil.Some?)
    && (k.MonthKey? ==> r.covered.Some? ==> k in c.closed || r.freshUntil.Some?)
  }

  /** What the row promises about the log. */
  ghost predicate RowBacked(p: Provider, log: seq<Observation>, k: Key, r: Row) {
    && (k.LatestKey? ==> r.completed.Some? ==> Observed(log, k.series))
    && (k.MonthKey? ==> r.covered.Some? ==> CoveredThrough(p, log, k.series, k.month, r.covered.value))
  }

  ghost predicate Inv(p: Provider, c: Cache) {
    && c.freshFor >= 1
    && LogSound(p, c.log)
    && (forall k | k in c.rows :: RowShape(c, k, c.rows[k]))
    && (forall k | k in c.rows :: RowBacked(p, c.log, k, c.rows[k]))
  }

  // ---- the log under imports -----------------------------------------------

  lemma {:induction false} CurrentIsLogged(log: seq<Observation>, s: Series, d: Day)
    ensures Current(log, s, d).Some? ==> Observation(s, d, Current(log, s, d).value) in log
    ensures Current(log, s, d).None? ==> forall o | o in log :: o.series != s || o.date != d
  {
    if log != [] {
      CurrentIsLogged(log[..|log| - 1], s, d);
      assert log == log[..|log| - 1] + [log[|log| - 1]];
    }
  }

  lemma {:induction false} RecordAllKeeps(log: seq<Observation>, imports: seq<Observation>)
    ensures forall o | o in RecordAll(log, imports) :: o in log || o in imports
    ensures forall o | o in log :: o in RecordAll(log, imports)
    ensures forall o | o in imports :: exists v :: Observation(o.series, o.date, v) in RecordAll(log, imports)
  {
    if imports != [] {
      var prior, last := imports[..|imports| - 1], imports[|imports| - 1];
      assert imports == prior + [last];
      var mid := RecordAll(log, prior);
      RecordAllKeeps(log, prior);
      CurrentIsLogged(mid, last.series, last.date);
      forall o | o in imports ensures exists v :: Observation(o.series, o.date, v) in RecordAll(log, imports) {
        if o in prior {
          var v :| Observation(o.series, o.date, v) in mid;
          assert Observation(o.series, o.date, v) in RecordAll(log, imports);
        } else if Current(mid, last.series, last.date) == Some(last.value) {
          assert Observation(o.series, o.date, last.value) in RecordAll(log, imports);
        } else {
          assert Observation(o.series, o.date, o.value) in RecordAll(log, imports);
        }
      }
    }
  }

  lemma SoundCurrent(p: Provider, log: seq<Observation>, s: Series, d: Day)
    requires LogSound(p, log)
    ensures Current(log, s, d).Some? ==> Current(log, s, d) == p(s.id, d)
    ensures (exists v :: Observation(s, d, v) in log) ==> Current(log, s, d) == p(s.id, d)
  {
    CurrentIsLogged(log, s, d);
    if Current(log, s, d).Some? {
      assert Observation(s, d, Current(log, s, d).value) in log;
    }
  }

  /** Coverage survives any sound growth of the log. */
  lemma CoverageSurvives(p: Provider, log: seq<Observation>, more: seq<Observation>, s: Series, start: Day, until: Day)
    requires LogSound(p, more) && CoveredThrough(p, log, s, start, until)
    requires forall o | o in log :: o in more
    ensures CoveredThrough(p, more, s, start, until)
  {
    forall d | start <= d <= until ensures Current(more, s, d) == p(s.id, d) {
      CurrentIsLogged(log, s, d);
      SoundCurrent(p, more, s, d);
    }
  }

  lemma ObservedSurvives(log: seq<Observation>, more: seq<Observation>, s: Series)
    requires Observed(log, s) && forall o | o in log :: o in more
    ensures Observed(more, s)
  {
  }

  lemma RowBackedSurvives(p: Provider, log: seq<Observation>, more: seq<Observation>, k: Key, r: Row)
    requires LogSound(p, more) && RowBacked(p, log, k, r) && forall o | o in log :: o in more
    ensures RowBacked(p, more, k, r)
  {
    if k.MonthKey? && r.covered.Some? {
      CoverageSurvives(p, log, more, k.series, k.month, r.covered.value);
    }
    if k.LatestKey? && r.completed.Some? {
      ObservedSurvives(log, more, k.series);
    }
  }

  // ---- claims, failures and time keep the invariant ------------------------

  ghost predicate RowsOk(p: Provider, c: Cache, rows: map<Key, Row>) {
    forall k | k in rows :: RowShape(c, k, rows[k]) && RowBacked(p, c.log, k, rows[k])
  }

  lemma ClaimOneKeeps(
    p: Provider, c: Cache, rows: map<Key, Row>, u: Unit, nonce: Uuid, now: Time, lease: int, force: bool)
    requires RowsOk(p, c, rows) && nonce in c.used
    ensures RowsOk(p, c, ClaimOne(rows, u, nonce, now, lease, force).0)
  {
    var n := ClaimOne(rows, u, nonce, now, lease, force).0;
    forall k | k in n ensures RowShape(c, k, n[k]) && RowBacked(p, c.log, k, n[k]) {
      if k in rows {
        assert RowShape(c, k, rows[k]) && RowBacked(p, c.log, k, rows[k]);
      }
    }
  }

  lemma {:induction false} ClaimAllKeeps(
    p: Provider, c: Cache, rows: map<Key, Row>, units: seq<Unit>, nonce: Uuid, now: Time, lease: int, force: bool)
    requires RowsOk(p, c, rows) && nonce in c.used
    ensures RowsOk(p, c, ClaimAll(rows, units, nonce, now, lease, force).0)
  {
    if units != [] {
      ClaimAllKeeps(p, c, rows, units[..|units| - 1], nonce, now, lease, force);
      var prior := ClaimAll(rows, units[..|units| - 1], nonce, now, lease, force).0;
      ClaimOneKeeps(p, c, prior, units[|units| - 1], nonce, now, lease, force);
    }
  }

  lemma ClaimKeeps(p: Provider, c: Cache, e: Event)
    requires Inv(p, c) && e.Claim?
    ensures Inv(p, Next(c, e))
  {
    var wide := c.(used := c.used + {e.nonce});
    assert RowsOk(p, wide, c.rows);
    ClaimAllKeeps(p, wide, c.rows, e.units, e.nonce, c.now, e.lease, e.force);
  }

  // ---- completion ----------------------------------------------------------

  lemma {:induction false} SeriesForUnit(units: seq<Unit>, u: Unit)
    requires u in units
    requires forall i, j | 0 <= i < j < |units| :: units[i].series.id != units[j].series.id
    ensures SeriesFor(units, u.series.id) == Some(u.series)
  {
    var last := units[|units| - 1];
    if last.series.id == u.series.id {
      var i :| 0 <= i < |units| && units[i] == u;
    } else {
      assert units == units[..|units| - 1] + [last];
      SeriesForUnit(units[..|units| - 1], u);
    }
  }

  lemma {:induction false} UnitAtExact(units: seq<Unit>, k: Key)
    ensures UnitAt(units, k).Some? ==> UnitAt(units, k).value in units && KeyOf(UnitAt(units, k).value) == k
    ensures UnitAt(units, k).None? ==> forall u | u in units :: KeyOf(u) != k
  {
    if units != [] {
      UnitAtExact(units[..|units| - 1], k);
      assert units == units[..|units| - 1] + [units[|units| - 1]];
    }
  }

  lemma ImportsSound(p: Provider, units: seq<Unit>, obs: seq<ProviderObservation>)
    requires forall o | o in obs :: SeriesFor(units, o.id).Some?
    requires forall o | o in obs :: p(o.id, o.date) == Some(o.value)
    ensures forall o | o in Imports(units, obs) :: p(o.series.id, o.date) == Some(o.value)
  {
    forall i | 0 <= i < |obs| ensures SeriesFor(units, obs[i].id).value.id == obs[i].id {
      SeriesForId(units, obs[i].id);
    }
  }

  lemma {:induction false} SeriesForId(units: seq<Unit>, id: string)
    ensures SeriesFor(units, id).Some? ==> SeriesFor(units, id).value.id == id
  {
    if units != [] {
      SeriesForId(units[..|units| - 1], id);
    }
  }

  /** The response of a batch covers the whole fetched period of each of its units. */
  lemma BatchCovers(p: Provider, log: seq<Observation>, units: seq<Unit>, obs: seq<ProviderObservation>, u: Unit)
    requires BatchOk(units) && Honest(p, units, obs) && u in units && u.MonthUnit?
    requires forall i, j | 0 <= i < j < |units| :: units[i].series.id != units[j].series.id
    requires forall o | o in obs :: SeriesFor(units, o.id).Some?
    requires LogSound(p, RecordAll(log, Imports(units, obs)))
    ensures CoveredThrough(p, RecordAll(log, Imports(units, obs)), u.series, u.from, RequestForBatch(units).to)
  {
    var more, req := RecordAll(log, Imports(units, obs)), RequestForBatch(units);
    assert PeriodOf(u) == PeriodOf(units[0]);
    forall d | u.from <= d <= req.to ensures Current(more, u.series, d) == p(u.series.id, d) {
      SoundCurrent(p, more, u.series, d);
      if p(u.series.id, d).Some? {
        var o := ProviderObservation(u.series.id, d, p(u.series.id, d).value);
        assert o in obs;
        ImportedIsLogged(log, units, obs, o);
        SeriesForUnit(units, u);
      }
    }
  }

  lemma ImportedIsLogged(log: seq<Observation>, units: seq<Unit>, obs: seq<ProviderObservation>, o: ProviderObservation)
    requires o in obs && forall o | o in obs :: SeriesFor(units, o.id).Some?
    ensures exists v :: Observation(SeriesFor(units, o.id).value, o.date, v) in RecordAll(log, Imports(units, obs))
  {
    var i :| 0 <= i < |obs| && obs[i] == o;
    assert Imports(units, obs)[i] in Imports(units, obs);
    RecordAllKeeps(log, Imports(units, obs));
  }

  lemma BatchObserves(p: Provider, log: seq<Observation>, units: seq<Unit>, obs: seq<ProviderObservation>, u: Unit)
    requires BatchOk(units) && Honest(p, units, obs) && u in units && u.LatestUnit?
    requires forall i, j | 0 <= i < j < |units| :: units[i].series.id != units[j].series.id
    requires forall o | o in obs :: SeriesFor(units, o.id).Some?
    ensures Observed(RecordAll(log, Imports(units, obs)), u.series)
  {
    assert PeriodOf(u) == PeriodOf(units[0]);
    var o :| o in obs && o.id == u.series.id;
    ImportedIsLogged(log, units, obs, o);
    SeriesForUnit(units, u);
  }

  lemma CompletedShape(c: Cache, n: Cache, k: Key, r: Row, u: Unit, through: Day)
    requires RowShape(c, k, r) && KeyOf(u) == k && c.freshFor >= 1
    requires n.freshFor == c.freshFor && n.now == c.now && (k, c.now) in n.fetched && c.closed <= n.closed
    requires PermanentUnit(u) ==> k in n.closed
    ensures RowShape(n, k, Completed(r, u, through, c.now, c.freshFor))
  {
  }

  lemma CompletedBacked(
    p: Provider, log: seq<Observation>, k: Key, r: Row, u: Unit, through: Day, now: Time, freshFor: int)
    requires RowBacked(p, log, k, r) && KeyOf(u) == k
    requires u.LatestUnit? ==> Observed(log, k.series)
    requires u.MonthUnit? ==> CoveredThrough(p, log, k.series, k.month, through)
    ensures RowBacked(p, log, k, Completed(r, u, through, now, freshFor))
  {
  }

  lemma CompleteKeepsRow(p: Provider, c: Cache, e: Event, k: Key)
    requires Inv(p, c) && e.Complete? && Legal(p, c, e) && CanComplete(c, e.nonce, e.units, e.req, e.obs)
    requires k in c.rows && LogSound(p, Next(c, e).log)
    ensures var n := Next(c, e); k in n.rows && RowShape(n, k, n.rows[k]) && RowBacked(p, n.log, k, n.rows[k])
  {
    var n, through := Next(c, e), e.req.to;
    RecordAllKeeps(c.log, Imports(e.units, e.obs));
    RowBackedSurvives(p, c.log, n.log, k, c.rows[k]);
    UnitAtExact(e.units, k);
    if UnitAt(e.units, k).Some? {
      var u := UnitAt(e.units, k).value;
      assert k in Keys(e.units);
      assert (k, c.now) in n.fetched;
      CompletedShape(c, n, k, c.rows[k], u, through);
      match u
      case MonthUnit(_, _, _, _, _) => BatchCovers(p, c.log, e.units, e.obs, u);
      case LatestUnit(_) => BatchObserves(p, c.log, e.units, e.obs, u);
      CompletedBacked(p, n.log, k, c.rows[k], u, through, c.now, c.freshFor);
    }
  }

  lemma CompleteKeeps(p: Provider, c: Cache, e: Event)
    requires Inv(p, c) && e.Complete? && Legal(p, c, e)
    ensures Inv(p, Next(c, e))
  {
    if CanComplete(c, e.nonce, e.units, e.req, e.obs) {
      var n := Next(c, e);
      ImportsSound(p, e.units, e.obs);
      RecordAllKeeps(c.log, Imports(e.units, e.obs));
      assert LogSound(p, n.log);
      forall k | k in n.rows ensures RowShape(n, k, n.rows[k]) && RowBacked(p, n.log, k, n.rows[k]) {
        CompleteKeepsRow(p, c, e, k);
      }
    }
  }

  lemma NextKeepsInv(p: Provider, c: Cache, e: Event)
    requires Inv(p, c) && Legal(p, c, e)
    ensures Inv(p, Next(c, e))
  {
    match e
    case Claim(_, _, _, _) => ClaimKeeps(p, c, e);
    case Complete(_, _, _, _) => CompleteKeeps(p, c, e);
    case FailUnit(_, _, _) =>
    case Tick(_) =>
  }

  /** In every reachable state the cache agrees with the provider it stands in for. */
  lemma {:induction false} RunKeepsInv(p: Provider, c: Cache, es: seq<Event>)
    requires Empty(c) && LegalRun(p, c, es)
    ensures Inv(p, Run(c, es))
  {
    if es != [] {
      RunKeepsInv(p, c, es[..|es| - 1]);
      NextKeepsInv(p, Run(c, es[..|es| - 1]), es[|es| - 1]);
    }
  }
}
