/** The promises of the exchange-rate cache, over every run. */
module RateTheorems {
  import opened Base
  import opened Sql
  import opened RateTypes
  import opened RateRows
  import opened RateLog
  import opened RateCache

  // ---- readiness -----------------------------------------------------------

  /**
  On every reachable row, for every unit whose permanence has not reverted,
  readiness and unforced staleness are exact complements: a unit that is
  neither leased nor backing off is either ready or claimable.
   */
  lemma NeverStuck(p: Provider, c: Cache, es: seq<Event>, u: Unit, now: Time)
    requires Empty(c) && LegalRun(p, c, es)
    requires var r := Run(c, es); KeyOf(u) in r.rows && (KeyOf(u) in r.closed ==> PermanentUnit(u))
    ensures var row := Run(c, es).rows[KeyOf(u)];
            && (Ready(row, u, now) <==> !Holds(Stale(row, u, now)))
            && (Free(row, now) ==> Ready(row, u, now) || Claimable(row, u, now, false))
  {
    RunKeepsInv(p, c, es);
    var r := Run(c, es);
    assert RowShape(r, KeyOf(u), r.rows[KeyOf(u)]);
    ReadyComplementsStale(r.rows[KeyOf(u)], u, now);
  }

  // ---- fencing -------------------------------------------------------------

  lemma {:induction false} ClaimGivesOnlyItsNonce(
    rows: map<Key, Row>, units: seq<Unit>, nonce: Uuid, now: Time, lease: int, force: bool, other: Uuid, k: Key)
    requires other != nonce && !Owned(rows, k, other)
    ensures !Owned(ClaimAll(rows, units, nonce, now, lease, force).0, k, other)
  {
    if units != [] {
      ClaimGivesOnlyItsNonce(rows, units[..|units| - 1], nonce, now, lease, force, other, k);
    }
  }

  lemma NextKeepsFence(p: Provider, c: Cache, e: Event, nonce: Uuid, k: Key)
    requires Legal(p, c, e) && nonce in c.used && !Owned(c.rows, k, nonce)
    ensures nonce in Next(c, e).used && !Owned(Next(c, e).rows, k, nonce)
  {
    if e.Claim? {
      ClaimGivesOnlyItsNonce(c.rows, e.units, e.nonce, c.now, e.lease, e.force, nonce, k);
    }
  }

  /**
  Once a drawn nonce does not hold a row - the lease was taken over, completed
  or released - it never holds it again, and whatever its former holder
  still tries on that row changes nothing, forever.
   */
  lemma {:induction false} FormerHolderIsFenced(p: Provider, c: Cache, es: seq<Event>, nonce: Uuid, k: Key)
    requires LegalRun(p, c, es) && nonce in c.used && !Owned(c.rows, k, nonce)
    ensures var r := Run(c, es);
            && nonce in r.used && !Owned(r.rows, k, nonce)
            && (forall units, req, obs | k in Keys(units) :: Next(r, Complete(nonce, units, req, obs)) == r)
            && (forall u, delay | KeyOf(u) == k :: Next(r, FailUnit(nonce, u, delay)) == r)
  {
    if es != [] {
      FormerHolderIsFenced(p, c, es[..|es| - 1], nonce, k);
      NextKeepsFence(p, Run(c, es[..|es| - 1]), es[|es| - 1], nonce, k);
    }
    var r := Run(c, es);
    forall units, req, obs | k in Keys(units) ensures Next(r, Complete(nonce, units, req, obs)) == r {
      var u :| u in units && KeyOf(u) == k;
      assert !Owned(r.rows, KeyOf(u), nonce);
    }
  }

  /** A claim over an expired lease takes the row away from its former holder. */
  lemma TakeoverFences(c: Cache, u: Unit, former: Uuid, nonce: Uuid, lease: int, force: bool)
    requires Owned(c.rows, KeyOf(u), former) && former != nonce
    ensures var (rows, got) := ClaimOne(c.rows, u, nonce, c.now, lease, force);
            got ==> !Owned(rows, KeyOf(u), former) && Owned(rows, KeyOf(u), nonce)
  {
  }

  /** Failing releases at most the one row that still carries the caller's nonce. */
  lemma FailReleasesOnlyItsOwn(c: Cache, nonce: Uuid, u: Unit, delay: int)
    ensures var n := Next(c, FailUnit(nonce, u, delay));
            && n.rows.Keys == c.rows.Keys && n.log == c.log
            && (forall k | k in c.rows :: n.rows[k] != c.rows[k] ==> k == KeyOf(u) && Owned(c.rows, k, nonce))
            && !Owned(n.rows, KeyOf(u), nonce)
  {
  }

  // ---- coverage only grows -------------------------------------------------

  ghost predicate CoversThrough(rows: map<Key, Row>, k: Key, day: Day) {
    k in rows && rows[k].covered.Some? && rows[k].covered.value >= day
  }

  /** `n` is reachable from `c`: nothing that was stored or covered has been lost. */
  ghost predicate Later(c: Cache, n: Cache) {
    && c.now <= n.now && c.freshFor == n.freshFor
    && c.used <= n.used && c.closed <= n.closed && c.fetched <= n.fetched
    && (forall o | o in c.log :: o in n.log)
    && (forall k, day | CoversThrough(c.rows, k, day) :: CoversThrough(n.rows, k, day))
    && c.rows.Keys <= n.rows.Keys
    && FencesStand(c, n) && OnlyFetchesComplete(c, n)
  }

  /** A drawn nonce gains no row. */
  ghost predicate FencesStand(c: Cache, n: Cache) {
    forall k, nonce | nonce in c.used && Owned(n.rows, k, nonce) :: Owned(c.rows, k, nonce)
  }

  function CompletedAt(rows: map<Key, Row>, k: Key): Option<Time> {
    if k in rows then rows[k].completed else None
  }

  /** A completion time changes only to that of a fetch committed since. */
  ghost predicate OnlyFetchesComplete(c: Cache, n: Cache) {
    forall k | CompletedAt(n.rows, k) != CompletedAt(c.rows, k) ::
      CompletedAt(n.rows, k).Some? && CompletedAt(n.rows, k).value >= c.now
  }

  lemma LaterTransitive(a: Cache, b: Cache, c: Cache)
    requires Later(a, b) && Later(b, c)
    ensures Later(a, c)
  {
  }

  lemma {:induction false} ClaimKeepsCoverage(
    rows: map<Key, Row>, units: seq<Unit>, nonce: Uuid, now: Time, lease: int, force: bool)
    ensures var n := ClaimAll(rows, units, nonce, now, lease, force).0;
            && rows.Keys <= n.Keys
            && (forall k | k in rows :: n[k].covered == rows[k].covered)
            && (forall k :: CompletedAt(n, k) == CompletedAt(rows, k))
  {
    if units != [] {
      ClaimKeepsCoverage(rows, units[..|units| - 1], nonce, now, lease, force);
    }
  }

  lemma NextIsLater(p: Provider, c: Cache, e: Event)
    requires Legal(p, c, e)
    ensures Later(c, Next(c, e))
  {
    assert FencesStand(c, Next(c, e)) by {
      forall k, nonce | nonce in c.used && !Owned(c.rows, k, nonce) ensures !Owned(Next(c, e).rows, k, nonce) {
        NextKeepsFence(p, c, e, nonce, k);
      }
    }
    match e
    case Claim(units, nonce, lease, force) => ClaimKeepsCoverage(c.rows, units, nonce, c.now, lease, force);
    case Complete(_, _, _, _) => CompletionKeepsRows(c, e);
    case FailUnit(_, _, _) =>
    case Tick(_) =>
  }

  lemma CompletionKeepsRows(c: Cache, e: Event)
    requires e.Complete?
    ensures var n := Next(c, e);
            && c.rows.Keys <= n.rows.Keys && (forall k | k in c.rows :: KeepsCovered(c.rows[k], n.rows[k]))
            && (forall o | o in c.log :: o in n.log) && OnlyFetchesComplete(c, n)
  {
    if CanComplete(c, e.nonce, e.units, e.req, e.obs) {
      RecordAllKeeps(c.log, Imports(e.units, e.obs));
      forall k | k in c.rows ensures k in Next(c, e).rows && KeepsCovered(c.rows[k], Next(c, e).rows[k]) {
        UnitAtExact(e.units, k);
      }
    }
  }

  predicate KeepsCovered(r: Row, n: Row) {
    r.covered.Some? ==> n.covered.Some? && n.covered.value >= r.covered.value
  }

  lemma {:induction false} RunIsLater(p: Provider, c: Cache, es: seq<Event>)
    requires LegalRun(p, c, es)
    ensures Later(c, Run(c, es))
  {
    if es != [] {
      RunIsLater(p, c, es[..|es| - 1]);
      NextIsLater(p, Run(c, es[..|es| - 1]), es[|es| - 1]);
      LaterTransitive(c, Run(c, es[..|es| - 1]), Run(c, es));
    }
  }

  // ---- the log of a run ----------------------------------------------------

  /** What a step imports: the observations of a completion that commits. */
  ghost function ImportsOf(c: Cache, e: Event): seq<Observation> {
    if e.Complete? && CanComplete(c, e.nonce, e.units, e.req, e.obs) then Imports(e.units, e.obs) else []
  }

  /** Everything imported during a run, in commit order. */
  ghost function CommittedImports(c: Cache, es: seq<Event>): seq<Observation> {
    if es == [] then []
    else CommittedImports(c, es[..|es| - 1]) + ImportsOf(Run(c, es[..|es| - 1]), es[|es| - 1])
  }

  lemma {:induction false} RunRecordsImports(c: Cache, es: seq<Event>)
    ensures Run(c, es).log == RecordAll(c.log, CommittedImports(c, es))
  {
    if es != [] {
      var prior := es[..|es| - 1];
      RunRecordsImports(c, prior);
      RecordAllConcat(c.log, CommittedImports(c, prior), ImportsOf(Run(c, prior), es[|es| - 1]));
    }
  }

  /** The completion answered a request for the observation: positive, dated, of one of its units, and in its period. */
  ghost predicate AskedFor(e: Event, o: Observation) {
    && e.Complete? && (exists u :: u in e.units && u.series == o.series)
    && ProviderObservation(o.series.id, o.date, o.value) in e.obs
    && o.value.coefficient > 0 && o.date != 0 && (e.req.kind.FetchRange? ==> e.req.from <= o.date <= e.req.to)
  }

  /** Whatever the provider answers, only what was asked for is logged. */
  lemma {:induction false} LoggedWasAskedFor(c: Cache, es: seq<Event>, o: Observation)
    requires o in Run(c, es).log && o !in c.log
    ensures exists e :: e in es && AskedFor(e, o)
  {
    var prior, e := es[..|es| - 1], es[|es| - 1];
    if o in Run(c, prior).log {
      LoggedWasAskedFor(c, prior, o);
      var x :| x in prior && AskedFor(x, o);
      assert x in es;
    } else {
      LogsWhatItAskedFor(Run(c, prior), e, o);
      assert e in es;
    }
  }

  lemma LogsWhatItAskedFor(c: Cache, e: Event, o: Observation)
    requires o in Next(c, e).log && o !in c.log
    ensures AskedFor(e, o)
  {
    LoggedOrImported(c.log, Imports(e.units, e.obs), o);
    var i :| 0 <= i < |e.obs| && Imports(e.units, e.obs)[i] == o;
    SeriesForId(e.units, e.obs[i].id);
    SeriesOfUnit(e.units, e.obs[i].id);
    assert Storable(e.units, e.req, e.obs[i]);
  }

  lemma {:induction false} SeriesOfUnit(units: seq<Unit>, id: string)
    requires SeriesFor(units, id).Some?
    ensures exists u :: u in units && u.series == SeriesFor(units, id).value
  {
    var last := units[|units| - 1];
    if last.series.id == id {
      assert last in units;
    } else {
      SeriesOfUnit(units[..|units| - 1], id);
      var u :| u in units[..|units| - 1] && u.series == SeriesFor(units, id).value;
      assert u in units;
    }
  }

  lemma {:induction false} LoggedOrImported(log: seq<Observation>, imports: seq<Observation>, o: Observation)
    requires o in RecordAll(log, imports)
    ensures o in log || o in imports
  {
    if imports != [] && o in RecordAll(log, imports[..|imports| - 1]) {
      LoggedOrImported(log, imports[..|imports| - 1], o);
    }
  }

  /**
  For every sequence of events, whatever the provider answers and however it
  changes its mind: per coordinate the log is the stutter-free compression of
  everything imported, and its current value is the last one imported.
   */
  lemma RunLogIsDestuttered(c: Cache, es: seq<Event>, s: Series, d: Day)
    requires c.log == []
    ensures Values(Run(c, es).log, s, d) == Destutter(Values(CommittedImports(c, es), s, d))
    ensures Current(Run(c, es).log, s, d) == Current(CommittedImports(c, es), s, d)
  {
    RunRecordsImports(c, es);
    LogIsDestutteredImports(CommittedImports(c, es), s, d);
  }

  // ---- a reopened month ----------------------------------------------------

  /** A covered range row without a freshness deadline that nobody holds. */
  ghost predicate Dormant(c: Cache, k: Key, through: Day) {
    && k in c.rows && c.rows[k].kind.FetchRange?
    && c.rows[k].covered == Some(through) && c.rows[k].freshUntil.None? && c.rows[k].nonce.None?
  }

  /** Nobody forces a claim of `k`, nor asks for days beyond `through`. */
  ghost predicate LeavesAlone(e: Event, k: Key, through: Day) {
    e.Claim? ==> forall u | u in e.units && KeyOf(u) == k :: !e.force && FetchToOf(u) <= through
  }

  lemma {:induction false} ClaimLeavesDormant(
    rows: map<Key, Row>, units: seq<Unit>, nonce: Uuid, now: Time, lease: int, k: Key, through: Day)
    requires k in rows && rows[k].kind.FetchRange? && rows[k].covered == Some(through) && rows[k].freshUntil.None?
    requires forall u | u in units && KeyOf(u) == k :: FetchToOf(u) <= through
    ensures k in ClaimAll(rows, units, nonce, now, lease, false).0
    ensures ClaimAll(rows, units, nonce, now, lease, false).0[k] == rows[k]
  {
    if units != [] {
      ClaimLeavesDormant(rows, units[..|units| - 1], nonce, now, lease, k, through);
      assert units[|units| - 1] in units;
    }
  }

  lemma {:induction false} OthersLeaveRow(
    rows: map<Key, Row>, units: seq<Unit>, nonce: Uuid, now: Time, lease: int, force: bool, k: Key)
    requires k in rows && forall u | u in units :: KeyOf(u) != k
    ensures k in ClaimAll(rows, units, nonce, now, lease, force).0
    ensures ClaimAll(rows, units, nonce, now, lease, force).0[k] == rows[k]
  {
    if units != [] {
      OthersLeaveRow(rows, units[..|units| - 1], nonce, now, lease, force, k);
      assert units[|units| - 1] in units;
    }
  }

  lemma DormantStep(c: Cache, e: Event, k: Key, through: Day)
    requires Dormant(c, k, through) && LeavesAlone(e, k, through)
    ensures k in Next(c, e).rows && Next(c, e).rows[k] == c.rows[k]
  {
    match e
    case Claim(units, nonce, lease, force) =>
      if force {
        OthersLeaveRow(c.rows, units, nonce, c.now, lease, force, k);
      } else {
        ClaimLeavesDormant(c.rows, units, nonce, c.now, lease, k, through);
      }
    case Complete(nonce, units, req, obs) =>
      UnitAtExact(units, k);
    case FailUnit(_, _, _) =>
    case Tick(_) =>
  }

  /**
  A dormant month stays as it is through every continuation in which nobody
  forces a claim of it or asks for days beyond it, so that a unit that plans it
  as non-permanent is neither ready nor claimable in any of those states; and
  whenever it is free, it can be claimed exactly by force.
   */
  lemma {:induction false} ReopenedMonthStaysStuck(
    c: Cache, es: seq<Event>, u: Unit, through: Day, at: Time, force: bool)
    requires Dormant(c, KeyOf(u), through) && u.MonthUnit? && !u.permanent && u.fetchTo <= through
    requires forall e | e in es :: LeavesAlone(e, KeyOf(u), through)
    requires SameIdentity(c.rows[KeyOf(u)], u)
    ensures var r := Run(c, es);
            && KeyOf(u) in r.rows && r.rows[KeyOf(u)] == c.rows[KeyOf(u)] && !Ready(r.rows[KeyOf(u)], u, at)
            && (Claimable(r.rows[KeyOf(u)], u, at, force) <==> force && Free(r.rows[KeyOf(u)], at))
  {
    if es != [] {
      var prior, e := es[..|es| - 1], es[|es| - 1];
      assert forall x | x in prior :: x in es;
      assert e in es;
      ReopenedMonthStaysStuck(c, prior, u, through, at, force);
      DormantStep(Run(c, prior), e, KeyOf(u), through);
    }
  }

  // ---- the cache stands in for the provider --------------------------------

  /** The current rows of one series from `from` through `until`, by ascending day. */
  function LoggedDays(log: seq<Observation>, s: Series, from: Day, until: Day): seq<Observation>
    decreases until - from
  {
    if from > until then []
    else
      (match Current(log, s, from) case Some(v) => [Observation(s, from, v)] case None => [])
      + LoggedDays(log, s, from + 1, until)
  }

  /** What the provider holds for the same days. */
  function ProvidedDays(p: Provider, s: Series, from: Day, until: Day): seq<Observation>
    decreases until - from
  {
    if from > until then []
    else
      (match p(s.id, from) case Some(v) => [Observation(s, from, v)] case None => [])
      + ProvidedDays(p, s, from + 1, until)
  }

  /** RangeObservations: the current rows of the requested series, ordered by series and day. */
  function RangeRows(log: seq<Observation>, series: seq<Series>, from: Day, until: Day): seq<Observation> {
    if series == [] then [] else LoggedDays(log, series[0], from, until) + RangeRows(log, series[1..], from, until)
  }

  /** What asking the provider directly for the same range would return. */
  function DirectRows(p: Provider, series: seq<Series>, from: Day, until: Day): seq<Observation> {
    if series == [] then [] else ProvidedDays(p, series[0], from, until) + DirectRows(p, series[1..], from, until)
  }

  lemma {:induction false} DaysAgree(p: Provider, log: seq<Observation>, s: Series, from: Day, until: Day)
    requires forall d | from <= d <= until :: Current(log, s, d) == p(s.id, d)
    ensures LoggedDays(log, s, from, until) == ProvidedDays(p, s, from, until)
    decreases until - from
  {
    if from <= until {
      DaysAgree(p, log, s, from + 1, until);
    }
  }

  lemma {:induction false} RangeRowsAgree(
    p: Provider, log: seq<Observation>, series: seq<Series>, from: Day, until: Day)
    requires forall s, d | s in series && from <= d <= until :: Current(log, s, d) == p(s.id, d)
    ensures RangeRows(log, series, from, until) == DirectRows(p, series, from, until)
  {
    if series != [] {
      DaysAgree(p, log, series[0], from, until);
      RangeRowsAgree(p, log, series[1..], from, until);
    }
  }

  /** A ready month is covered through the last day its unit fetches. */
  lemma ReadyMonthIsCovered(p: Provider, c: Cache, u: Unit, at: Time)
    requires Inv(p, c) && u.MonthUnit? && KeyOf(u) in c.rows && Ready(c.rows[KeyOf(u)], u, at)
    ensures CoversThrough(c.rows, KeyOf(u), u.fetchTo)
  {
    assert RowShape(c, KeyOf(u), c.rows[KeyOf(u)]);
  }

  /** Once a month has been seen ready, the log agrees with the provider on it in every later state. */
  lemma SeenReadyAgrees(p: Provider, c: Cache, u: Unit, d: Day)
    requires Inv(p, c) && u.MonthUnit? && CoversThrough(c.rows, KeyOf(u), u.fetchTo) && u.from <= d <= u.fetchTo
    ensures Current(c.log, u.series, d) == p(u.series.id, d)
  {
    assert RowBacked(p, c.log, KeyOf(u), c.rows[KeyOf(u)]);
  }

  // ---- freshness -----------------------------------------------------------

  /** The provider was fetched for `k`, and that fetch was still fresh at `at`. */
  ghost predicate FreshFetch(c: Cache, k: Key, at: Time) {
    exists t :: (k, t) in c.fetched && t <= c.now && at < t + c.freshFor
  }

  /** A latest unit that reads ready was fetched within the freshness period, and its series has an observation. */
  lemma ReadyLatestIsFresh(p: Provider, c: Cache, u: Unit, at: Time)
    requires Inv(p, c) && u.LatestUnit? && KeyOf(u) in c.rows && Ready(c.rows[KeyOf(u)], u, at)
    ensures FreshFetch(c, KeyOf(u), at) && Observed(c.log, u.series)
  {
    var row := c.rows[KeyOf(u)];
    assert RowShape(c, KeyOf(u), row) && RowBacked(p, c.log, KeyOf(u), row);
    assert (KeyOf(u), row.completed.value) in c.fetched;
  }
}
