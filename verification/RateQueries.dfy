/** The two questions callers ask the rate service, answered from the cache exactly as the provider would. */
module RateQueries {
  import opened Base
  import opened Ordering
  import opened Calendar
  import opened RateTypes
  import opened RateRows
  import opened RateLog
  import opened RateCache
  import opened RateTheorems
  import opened RateStory
  import opened RateStore
  import opened Batching
  import opened Planning
  import opened Normalizing
  import opened RateWork
  import opened RateService
  import opened RateProgress
  import opened RateResolve

  datatype QueryError = InvalidSeries | InvalidDateRange | Unresolved(failure: Failure)

  datatype Result<T> = Ok(value: T) | Err(error: QueryError)

  // ---- planned units are workable ------------------------------------------

  ghost predicate ProperSeries(series: seq<Series>) {
    StrictlyById(series) && forall s | s in series :: SeriesOk(s)
  }

  lemma MonthIsWorkable(starts: int -> Day, series: seq<Series>, month: int, today: Today)
    requires ProperSeries(series) && Increasing(starts)
    ensures Workable(MonthUnits(starts, series, month, today))
  {
    var units := MonthUnits(starts, series, month, today);
    assert starts(month) < starts(month + 1);
    assert forall i | 0 <= i < |units| :: units[i].series == series[i] && series[i] in series;
    forall u | u in units ensures SeriesIdOk(u.series.id) {
      var i :| 0 <= i < |units| && units[i] == u;
    }
  }

  lemma {:induction false} PlanIsWorkable(starts: int -> Day, series: seq<Series>, month: int, last: int, today: Today)
    requires ProperSeries(series) && Increasing(starts)
    ensures Workable(PlanMonths(starts, series, month, last, today))
    decreases last - month
  {
    if month <= last {
      var head, tail := MonthUnits(starts, series, month, today), PlanMonths(starts, series, month + 1, last, today);
      MonthIsWorkable(starts, series, month, today);
      PlanIsWorkable(starts, series, month + 1, last, today);
      forall j | 0 <= j < |tail| ensures tail[j].MonthUnit? && tail[j].from != starts(month) {
        var k := PlanShape(starts, series, month + 1, last, today, j);
      }
      WorkableConcat(head, tail);
    }
  }

  lemma WorkableConcat(a: seq<Unit>, b: seq<Unit>)
    requires Workable(a) && Workable(b)
    requires forall i, j | 0 <= i < |a| && 0 <= j < |b| :: !SameStart(a[i], b[j])
    ensures Workable(a + b)
  {
  }

  // ---- range ---------------------------------------------------------------

  /** The rows dated no later than `day`. */
  function Through(rows: seq<Observation>, day: Day): seq<Observation> {
    if rows == [] then [] else (if rows[0].date <= day then [rows[0]] else []) + Through(rows[1..], day)
  }

  lemma {:induction false} ThroughConcat(a: seq<Observation>, b: seq<Observation>, day: Day)
    ensures Through(a + b, day) == Through(a, day) + Through(b, day)
  {
    if a == [] {
      assert a + b == b;
    } else {
      assert (a + b)[1..] == a[1..] + b;
      ThroughConcat(a[1..], b, day);
    }
  }

  lemma {:induction false} ThroughDays(log: seq<Observation>, s: Series, from: Day, until: Day, day: Day)
    ensures Through(LoggedDays(log, s, from, until), day) == LoggedDays(log, s, from, Min(until, day))
    decreases until - from
  {
    if from <= until {
      var head := match Current(log, s, from) case Some(v) => [Observation(s, from, v)] case None => [];
      ThroughConcat(head, LoggedDays(log, s, from + 1, until), day);
      ThroughDays(log, s, from + 1, until, day);
    }
  }

  lemma {:induction false} ThroughRange(log: seq<Observation>, series: seq<Series>, from: Day, until: Day, day: Day)
    ensures Through(RangeRows(log, series, from, until), day) == RangeRows(log, series, from, Min(until, day))
  {
    if series != [] {
      ThroughConcat(LoggedDays(log, series[0], from, until), RangeRows(log, series[1..], from, until), day);
      ThroughDays(log, series[0], from, until, day);
      ThroughRange(log, series[1..], from, until, day);
    }
  }

  /** Rows of series in identifier order, each by ascending day, are in the order of the query. */
  lemma {:induction false} RangeRowsInOrder(log: seq<Observation>, series: seq<Series>, from: Day, until: Day)
    requires StrictlyById(series)
    ensures SortedBy(RowLe, RangeRows(log, series, from, until))
    ensures forall o | o in RangeRows(log, series, from, until) :: o.series in series
  {
    if series != [] {
      var head, tail := LoggedDays(log, series[0], from, until), RangeRows(log, series[1..], from, until);
      DaysInOrder(log, series[0], from, until);
      RangeRowsInOrder(log, series[1..], from, until);
      forall i, j | 0 <= i < |head| && 0 <= j < |tail| ensures RowLe(head[i], tail[j]) {
        assert head[i] in head && tail[j] in tail;
        var k :| 0 <= k < |series| - 1 && series[1..][k] == tail[j].series;
        assert series[k + 1] == tail[j].series;
      }
    }
  }

  lemma {:induction false} DaysInOrder(log: seq<Observation>, s: Series, from: Day, until: Day)
    ensures SortedBy(RowLe, LoggedDays(log, s, from, until))
    ensures forall o | o in LoggedDays(log, s, from, until) :: o.series == s && from <= o.date <= until
    decreases until - from
  {
    if from <= until {
      DaysInOrder(log, s, from + 1, until);
    }
  }

  ghost predicate AllCovered(c: Cache, units: seq<Unit>) {
    forall u | u in units :: u.MonthUnit? && CoversThrough(c.rows, KeyOf(u), u.fetchTo)
  }

  /**
  The range cache refines direct fetching. Once every planned month has been
  covered, the stored rows up to today are exactly - same rows, same order -
  what the provider itself would return.
   */
  lemma RangeRefinesProvider(p: Provider, c: Cache, series: seq<Series>, from: Date, to: Date, today: Date)
    requires Inv(p, c) && ProperSeries(series) && Valid(from) && Valid(to)
    requires AllCovered(c, PlanMonths(MonthStart, series, from.month, to.month, Today(Ordinal(today), today.month)))
    ensures Through(RangeRows(c.log, series, Ordinal(from), Ordinal(to)), Ordinal(today)) ==
            DirectRows(p, series, Ordinal(from), Min(Ordinal(to), Ordinal(today)))
  {
    var last := Min(Ordinal(to), Ordinal(today));
    forall s, d | s in series && Ordinal(from) <= d <= last ensures Current(c.log, s, d) == p(s.id, d) {
      CoveredDayAgrees(p, c, series, from, to, today, s, d);
    }
    RangeRowsAgree(p, c.log, series, Ordinal(from), last);
    ThroughRange(c.log, series, Ordinal(from), Ordinal(to), Ordinal(today));
  }

  lemma CoveredDayAgrees(
    p: Provider, c: Cache, series: seq<Series>, from: Date, to: Date, today: Date, s: Series, d: Day)
    requires Inv(p, c) && ProperSeries(series) && Valid(from) && Valid(to) && s in series
    requires Ordinal(from) <= d <= Ordinal(to) && d <= Ordinal(today)
    requires AllCovered(c, PlanMonths(MonthStart, series, from.month, to.month, Today(Ordinal(today), today.month)))
    ensures Current(c.log, s, d) == p(s.id, d)
  {
    var units := PlanMonths(MonthStart, series, from.month, to.month, Today(Ordinal(today), today.month));
    RangePlanIsExact(series, from, to, today, s, d);
    var i :| 0 <= i < |units| && Covers(units[i], s, d) && OnlyAt(units, s, d, i);
    assert units[i] in units;
    SeenReadyAgrees(p, c, units[i], d);
  }

  /** Whatever the cache returns, even past today, the provider holds. */
  lemma {:induction false} RowsAreProvided(
    p: Provider, log: seq<Observation>, series: seq<Series>, from: Day, until: Day)
    requires LogSound(p, log)
    ensures forall o | o in RangeRows(log, series, from, until) ::
              o.series in series && from <= o.date <= until && p(o.series.id, o.date) == Some(o.value)
  {
    if series != [] {
      DaysAreProvided(p, log, series[0], from, until);
      RowsAreProvided(p, log, series[1..], from, until);
    }
  }

  lemma {:induction false} DaysAreProvided(p: Provider, log: seq<Observation>, s: Series, from: Day, until: Day)
    requires LogSound(p, log)
    ensures forall o | o in LoggedDays(log, s, from, until) ::
              o.series == s && from <= o.date <= until && p(s.id, o.date) == Some(o.value)
    decreases until - from
  {
    if from <= until {
      SoundCurrent(p, log, s, from);
      DaysAreProvided(p, log, s, from + 1, until);
    }
  }

  /** The same series, one per identifier, in identifier order. */
  ghost predicate NormalForm(requested: seq<Series>, series: seq<Series>) {
    ProperSeries(series) && forall s :: s in series <==> s in requested
  }

  /** The answer is, through today, exactly what the provider would return. */
  ghost predicate IsExact(
    p: Provider, series: seq<Series>, from: Date, to: Date, today: Date, answer: seq<Observation>)
  {
    Through(answer, Ordinal(today)) == DirectRows(p, series, Ordinal(from), Min(Ordinal(to), Ordinal(today)))
  }

  /** Every row is the provider's, for a requested series and day. */
  ghost predicate IsSound(p: Provider, series: seq<Series>, from: Date, to: Date, answer: seq<Observation>) {
    forall o | o in answer ::
      && o.series in series && Ordinal(from) <= o.date <= Ordinal(to)
      && p(o.series.id, o.date) == Some(o.value)
  }

  function PlanFor(series: seq<Series>, from: Date, to: Date, today: Date): seq<Unit> {
    PlanMonths(MonthStart, series, from.month, to.month, Today(Ordinal(today), today.month))
  }

  /** The final read of a range. */
  method ReadRange(store: Store, p: Provider, series: seq<Series>, from: Date, to: Date, today: Date)
    returns (ok: bool, found: seq<Observation>)
    requires Live(p, store) && ProperSeries(series) && Valid(from) && Valid(to)
    ensures ok ==> IsSound(p, series, from, to, found)
    ensures ok && AllCovered(store.View(), PlanFor(series, from, to, today)) ==>
              IsExact(p, series, from, to, today, found)
    ensures ok ==> (IsExact(p, series, from, to, today, found) <==>
                    AllLogged(p, store.log, series, Ordinal(from), Min(Ordinal(to), Ordinal(today))))
    ensures store.quiet ==> ok
  {
    var fails: bool := *;
    if fails && !store.quiet {
      return false, [];
    }
    RowsAreProvided(p, store.log, series, Ordinal(from), Ordinal(to));
    RangeRowsInOrder(store.log, series, Ordinal(from), Ordinal(to));
    SortedIsSort(RowLe, RangeRows(store.log, series, Ordinal(from), Ordinal(to)));
    if AllCovered(store.View(), PlanFor(series, from, to, today)) {
      RangeRefinesProvider(p, store.View(), series, from, to, today);
    }
    ThroughRange(store.log, series, Ordinal(from), Ordinal(to), Ordinal(today));
    ExactWhenLogged(p, store.log, series, Ordinal(from), Min(Ordinal(to), Ordinal(today)));
    found := store.RangeObservations(series, Ordinal(from), Ordinal(to));
    return true, found;
  }

  /** Every day from `from` through `until` on which the provider has a value of a series is logged. */
  ghost predicate AllLogged(p: Provider, log: seq<Observation>, series: seq<Series>, from: Day, until: Day) {
    forall s, d | s in series && from <= d <= until && p(s.id, d).Some? :: Current(log, s, d).Some?
  }

  /** The stored rows are the provider's exactly when every day the provider has is logged. */
  lemma ExactWhenLogged(p: Provider, log: seq<Observation>, series: seq<Series>, from: Day, until: Day)
    requires LogSound(p, log)
    ensures RangeRows(log, series, from, until) == DirectRows(p, series, from, until) <==>
            AllLogged(p, log, series, from, until)
  {
    if AllLogged(p, log, series, from, until) {
      forall s, d | s in series && from <= d <= until ensures Current(log, s, d) == p(s.id, d) {
        SoundCurrent(p, log, s, d);
      }
      RangeRowsAgree(p, log, series, from, until);
    }
    if RangeRows(log, series, from, until) == DirectRows(p, series, from, until) {
      forall s, d | s in series && from <= d <= until && p(s.id, d).Some? ensures Current(log, s, d).Some? {
        InDirectRows(p, series, from, until, s, d);
        StoredIsCurrent(log, series, from, until, Observation(s, d, p(s.id, d).value));
      }
    }
  }

  lemma {:induction false} InDirectRows(p: Provider, series: seq<Series>, from: Day, until: Day, s: Series, d: Day)
    requires s in series && from <= d <= until && p(s.id, d).Some?
    ensures Observation(s, d, p(s.id, d).value) in DirectRows(p, series, from, until)
  {
    if s == series[0] {
      InProvidedDays(p, s, from, until, d);
    } else {
      InDirectRows(p, series[1..], from, until, s, d);
    }
  }

  lemma {:induction false} InProvidedDays(p: Provider, s: Series, from: Day, until: Day, d: Day)
    requires from <= d <= until && p(s.id, d).Some?
    ensures Observation(s, d, p(s.id, d).value) in ProvidedDays(p, s, from, until)
    decreases until - from
  {
    if from < d {
      InProvidedDays(p, s, from + 1, until, d);
    }
  }

  lemma {:induction false} StoredIsCurrent(
    log: seq<Observation>, series: seq<Series>, from: Day, until: Day, o: Observation)
    requires o in RangeRows(log, series, from, until)
    ensures Current(log, o.series, o.date) == Some(o.value)
  {
    if o in LoggedDays(log, series[0], from, until) {
      StoredDayIsCurrent(log, series[0], from, until, o);
    } else {
      StoredIsCurrent(log, series[1..], from, until, o);
    }
  }

  lemma {:induction false} StoredDayIsCurrent(log: seq<Observation>, s: Series, from: Day, until: Day, o: Observation)
    requires o in LoggedDays(log, s, from, until)
    ensures Current(log, o.series, o.date) == Some(o.value)
    decreases until - from
  {
    if o in LoggedDays(log, s, from + 1, until) {
      StoredDayIsCurrent(log, s, from + 1, until, o);
    }
  }

  /**
  Range: whatever claims, failures, takeovers and forced refreshes came before
  or happen meanwhile, a successful answer is, through today, exactly what
  the provider itself would return for the requested series and days, and
  any later row is the provider's too.
   */
  method Range(
    store: Store, p: Provider, config: Config, requested: seq<Series>, from: Date, to: Date, today: Date, patience: nat)
    returns (answer: Result<seq<Observation>>, series: seq<Series>)
    requires Live(p, store) && Valid(from) && Valid(to)
    modifies store
    ensures Live(p, store) && Onward(old(store.story), store.story)
    ensures answer == Err(InvalidSeries) <==> !Acceptable(requested)
    ensures answer == Err(InvalidDateRange) <==> Acceptable(requested) && Ordinal(from) > Ordinal(to)
    ensures answer.Ok? ==> NormalForm(requested, series) && Ordinal(from) <= Ordinal(to)
    ensures answer.Ok? ==> IsExact(p, series, from, to, today, answer.value)
    ensures answer.Ok? ==> IsSound(p, series, from, to, answer.value)
    ensures store.quiet && patience > 0 && Acceptable(requested) && Ordinal(from) <= Ordinal(to) ==>
              NormalForm(requested, series)
              && (AllReadyAt(old(store.View()), PlanFor(series, from, to, today)) ==>
                    answer.Ok? && store.story == old(store.story))
    ensures patience > 1 && Acceptable(requested) && Ordinal(from) <= Ordinal(to)
            && old(Attainable(store, p, config, Ordinal(today), PlanFor(series, from, to, today))) ==>
              answer.Ok?
  {
    LaterReflexive(store.View());
    series := [];
    var normal := NormalizeSeries(requested);
    if normal.None? {
      return Err(InvalidSeries), series;
    }
    series := normal.value;
    if Ordinal(from) > Ordinal(to) {
      return Err(InvalidDateRange), series;
    }
    var units := RangeUnits(MonthStart, series, from.month, to.month, Today(Ordinal(today), today.month));
    PlannedMonths(series, from, to, today);
    var failure := ResolveMonths(store, p, config, units, Ordinal(today), patience);
    if failure.Some? {
      return Err(Unresolved(failure.value)), series;
    }
    var ok, found := ReadRange(store, p, series, from, to, today);
    if !ok {
      return Err(Unresolved(StoreFailed)), series;
    }
    return Ok(found), series;
  }

  /** Resolves month units, and lets others run before the final read. */
  method ResolveMonths(store: Store, p: Provider, config: Config, units: seq<Unit>, today: Day, patience: nat)
    returns (failure: Option<Failure>)
    requires Live(p, store) && Workable(units) && forall u | u in units :: u.MonthUnit?
    modifies store
    ensures Live(p, store) && Onward(old(store.story), store.story)
    ensures failure.None? ==> AllCovered(store.View(), units)
    ensures store.quiet && patience > 0 && AllReadyAt(old(store.View()), units) ==>
              failure.None? && store.story == old(store.story)
    ensures patience > 1 && old(Attainable(store, p, config, today, units)) ==> failure.None?
  {
    ghost var start := store.story;
    failure := Resolve(store, p, config, units, today, patience);
    ghost var before := store.story;
    OthersRun(store, p, None);
    OnwardTransitive(start, before, store.story);
    if failure.None? {
      CoveredStays(Present(before), store.View(), units, before.past[|start.acts|].now);
    }
  }

  lemma CoveredStays(c: Cache, n: Cache, units: seq<Unit>, at: Time)
    requires Later(c, n) && forall u | u in units :: u.MonthUnit? && SeenReady(c, u, at)
    ensures AllCovered(n, units)
  {
    forall u | u in units ensures CoversThrough(n.rows, KeyOf(u), u.fetchTo) {
      SeenReadyStays(c, n, u, at);
    }
  }

  // ---- forced refresh ------------------------------------------------------

  /** Each month was covered through its last day at `from`, or some completion since then reached it. */
  ghost predicate EachReached(s: Story, from: nat, units: seq<Unit>)
    requires from <= |s.acts| < |s.past|
  {
    forall u | u in units ::
      || CoversThrough(s.past[from].rows, KeyOf(u), FetchToOf(u))
      || Reached(s, from, |s.acts|, KeyOf(u), FetchToOf(u))
  }

  /** The months are covered exactly when each was, or was reached by a completion since. */
  lemma CoveredWhenReached(s: Story, from: nat, units: seq<Unit>)
    requires WellTold(s) && from <= |s.acts| && forall u | u in units :: u.MonthUnit?
    ensures AllCovered(Present(s), units) <==> EachReached(s, from, units)
  {
    forall u | u in units
      ensures CoversThrough(Present(s).rows, KeyOf(u), u.fetchTo) <==>
              || CoversThrough(s.past[from].rows, KeyOf(u), u.fetchTo)
              || Reached(s, from, |s.acts|, KeyOf(u), u.fetchTo)
    {
      CoveredExactly(s, KeyOf(u), u.fetchTo, from, |s.acts|);
    }
  }

  /** The day of the series was logged at `from`, or imported by a completion committed since. */
  ghost predicate KnownSince(s: Story, from: nat, series: Series, d: Day)
    requires from <= |s.acts| < |s.past|
  {
    exists v :: Observation(series, d, v) in s.past[from].log + CommittedImports(s.past[from], s.acts[from..])
  }

  /** Every requested day through `until` on which the provider has a value was logged before or imported since. */
  ghost predicate AllKnown(p: Provider, s: Story, from: nat, series: seq<Series>, first: Day, until: Day)
    requires from <= |s.acts| < |s.past|
  {
    forall x, d | x in series && first <= d <= until && p(x.id, d).Some? :: KnownSince(s, from, x, d)
  }

  lemma LoggedWhenKnown(s: Story, from: nat, series: Series, d: Day)
    requires WellTold(s) && from <= |s.acts|
    ensures Current(Present(s).log, series, d).Some? <==> KnownSince(s, from, series, d)
  {
    var log, imports := s.past[from].log, CommittedImports(s.past[from], s.acts[from..]);
    StretchIsRun(s, from, |s.acts|);
    assert s.acts[from..|s.acts|] == s.acts[from..];
    RunRecordsImports(s.past[from], s.acts[from..]);
    RecordAllKeeps(log, imports);
    CurrentIsLogged(Present(s).log, series, d);
    if KnownSince(s, from, series, d) {
      var v :| Observation(series, d, v) in log + imports;
    }
  }

  lemma AllLoggedWhenKnown(p: Provider, s: Story, from: nat, series: seq<Series>, first: Day, until: Day)
    requires WellTold(s) && from <= |s.acts|
    ensures AllLogged(p, Present(s).log, series, first, until) <==> AllKnown(p, s, from, series, first, until)
  {
    forall x, d | x in series && first <= d <= until && p(x.id, d).Some?
      ensures Current(Present(s).log, x, d).Some? <==> KnownSince(s, from, x, d)
    {
      LoggedWhenKnown(s, from, x, d);
    }
  }

  /**
  RevalidateRange: on success every planned month was completed by a fetch
  committed during the call, and every row is the provider's. The answer is
  exact through today if and only if every requested day the provider has was
  logged before the call or imported by a completion during it. The planned
  months are covered through today exactly when each was before the call or
  some completion during it reached that far, and then the answer is exact;
  a completion by an instance whose day is an earlier one may not reach so far.
   */
  method RevalidateRange(
    store: Store, p: Provider, config: Config, requested: seq<Series>, from: Date, to: Date, today: Date, patience: nat)
    returns (answer: Result<seq<Observation>>, series: seq<Series>)
    requires Live(p, store) && Valid(from) && Valid(to)
    modifies store
    ensures Live(p, store) && Onward(old(store.story), store.story)
    ensures answer == Err(InvalidSeries) <==> !Acceptable(requested)
    ensures answer == Err(InvalidDateRange) <==> Acceptable(requested) && Ordinal(from) > Ordinal(to)
    ensures answer.Ok? ==> NormalForm(requested, series) && Ordinal(from) <= Ordinal(to)
    ensures answer.Ok? ==>
              DoneOrRemaining(store.story, |old(store.story).acts|, PlanFor(series, from, to, today), [])
    ensures answer.Ok? ==> IsSound(p, series, from, to, answer.value)
    ensures answer.Ok? ==>
              (AllCovered(store.View(), PlanFor(series, from, to, today)) <==>
               EachReached(store.story, |old(store.story).acts|, PlanFor(series, from, to, today)))
    ensures answer.Ok? ==>
              (IsExact(p, series, from, to, today, answer.value) <==>
               AllKnown(p, store.story, |old(store.story).acts|, series, Ordinal(from),
                        Min(Ordinal(to), Ordinal(today))))
    ensures answer.Ok? && EachReached(store.story, |old(store.story).acts|, PlanFor(series, from, to, today)) ==>
              IsExact(p, series, from, to, today, answer.value)
  {
    LaterReflexive(store.View());
    ghost var start := store.story;
    series := [];
    var normal := NormalizeSeries(requested);
    if normal.None? {
      return Err(InvalidSeries), series;
    }
    series := normal.value;
    if Ordinal(from) > Ordinal(to) {
      return Err(InvalidDateRange), series;
    }
    var units := RangeUnits(MonthStart, series, from.month, to.month, Today(Ordinal(today), today.month));
    PlannedMonths(series, from, to, today);
    var failure := ForceMonths(store, p, config, units, Ordinal(today), patience);
    if failure.Some? {
      return Err(Unresolved(failure.value)), series;
    }
    CoveredWhenReached(store.story, |start.acts|, units);
    AllLoggedWhenKnown(
      p, store.story, |start.acts|, series, Ordinal(from), Min(Ordinal(to), Ordinal(today)));
    var ok, found := ReadRange(store, p, series, from, to, today);
    if !ok {
      return Err(Unresolved(StoreFailed)), series;
    }
    return Ok(found), series;
  }

  /** Refreshes month units by force, and lets others run before the final read. */
  method ForceMonths(store: Store, p: Provider, config: Config, units: seq<Unit>, today: Day, patience: nat)
    returns (failure: Option<Failure>)
    requires Live(p, store) && Workable(units)
    modifies store
    ensures Live(p, store) && Onward(old(store.story), store.story)
    ensures failure.None? ==> DoneOrRemaining(store.story, |old(store.story).acts|, units, [])
  {
    ghost var start := store.story;
    failure := ResolveForced(store, p, config, units, today, patience);
    ghost var before := store.story;
    OthersRun(store, p, None);
    OnwardTransitive(start, before, store.story);
    if failure.None? {
      DoneStays(before, store.story, |start.acts|, units, []);
    }
  }

  lemma PlannedMonths(series: seq<Series>, from: Date, to: Date, today: Date)
    requires ProperSeries(series)
    ensures Workable(PlanFor(series, from, to, today))
    ensures forall u | u in PlanFor(series, from, to, today) :: u.MonthUnit?
  {
    var units, day := PlanFor(series, from, to, today), Today(Ordinal(today), today.month);
    GregorianIncreases();
    PlanIsWorkable(MonthStart, series, from.month, to.month, day);
    forall i | 0 <= i < |units| ensures units[i].MonthUnit? {
      var k := PlanShape(MonthStart, series, from.month, to.month, day, i);
    }
  }

  // ---- latest --------------------------------------------------------------

  datatype Rate = Rate(observation: Observation, stale: bool)

  /** The newest observation of the series in `c`, under its current value. */
  ghost predicate Newest(c: Cache, s: Series, o: Observation) {
    && o.series == s && o in c.log && Current(c.log, s, o.date) == Some(o.value)
    && forall x | x in c.log && x.series == s :: x.date <= o.date
  }

  /** At some moment of the story from `from` on, the observation was the newest of its series. */
  ghost predicate NewestDuring(s: Story, from: nat, series: Series, o: Observation) {
    exists j :: from <= j < |s.past| && Newest(s.past[j], series, o)
  }

  lemma NewestDuringStays(s: Story, t: Story, from: nat, earlier: nat, series: Series, o: Observation)
    requires NewestDuring(s, from, series, o) && s.past <= t.past && earlier <= from
    ensures NewestDuring(t, earlier, series, o)
  {
    var j :| from <= j < |s.past| && Newest(s.past[j], series, o);
    assert t.past[j] == s.past[j];
  }

  ghost predicate AllNewest(s: Story, from: nat, series: seq<Series>, found: seq<Observation>) {
    |found| == |series| && forall i | 0 <= i < |series| :: NewestDuring(s, from, series[i], found[i])
  }

  /** At some moment of the story from `from` on, the series had no observation. */
  ghost predicate UnobservedDuring(s: Story, from: nat, series: Series) {
    exists j :: from <= j < |s.past| && !Observed(s.past[j].log, series)
  }

  lemma UnobservedStays(s: Story, t: Story, from: nat, series: Series)
    requires UnobservedDuring(s, from, series) && s.past <= t.past
    ensures UnobservedDuring(t, from, series)
  {
    var j :| from <= j < |s.past| && !Observed(s.past[j].log, series);
    assert t.past[j] == s.past[j];
  }

  /** Every row found is the newest of its series at some moment, and a series without a row had none at some moment. */
  ghost predicate FoundOrNone(s: Story, from: nat, series: seq<Series>, found: seq<Observation>) {
    && (forall o | o in found :: o.series in series && NewestDuring(s, from, o.series, o))
    && (forall x | x in series :: (exists o :: o in found && o.series == x) || UnobservedDuring(s, from, x))
  }

  lemma FoundOrNoneStays(s: Story, t: Story, from: nat, series: seq<Series>, found: seq<Observation>)
    requires FoundOrNone(s, from, series, found) && s.past <= t.past
    ensures FoundOrNone(t, from, series, found)
  {
    forall o | o in found ensures NewestDuring(t, from, o.series, o) {
      NewestDuringStays(s, t, from, from, o.series, o);
    }
    forall x | x in series && !(exists o :: o in found && o.series == x) ensures UnobservedDuring(t, from, x) {
      UnobservedStays(s, t, from, x);
    }
  }

  /** LatestObservations: one statement per series; a series without observations is skipped. */
  method LatestObservations(store: Store, p: Provider, series: seq<Series>) returns (ok: bool, found: seq<Observation>)
    requires Live(p, store)
    modifies store
    ensures Live(p, store) && Onward(old(store.story), store.story)
    ensures ok && (forall s | s in series :: Observed(old(store.log), s)) ==> |found| == |series|
    ensures |found| == |series| ==> AllNewest(store.story, |old(store.story).acts|, series, found)
    ensures ok ==> FoundOrNone(store.story, |old(store.story).acts|, series, found)
    ensures store.quiet ==> ok && store.story == old(store.story)
  {
    ghost var start := store.story;
    LaterReflexive(store.View());
    ok, found := true, [];
    for i := 0 to |series|
      invariant Live(p, store) && Onward(start, store.story)
      invariant |found| <= i
      invariant |found| == i ==> AllNewest(store.story, |start.acts|, series[..i], found)
      invariant FoundOrNone(store.story, |start.acts|, series[..i], found)
      invariant (forall s | s in series :: Observed(Present(start).log, s)) ==> |found| == i
      invariant store.quiet ==> store.story == start
    {
      var fails: bool := *;
      if fails && !store.quiet {
        return false, [];
      }
      found := ReadNewest(store, p, series, i, found, start);
    }
    assert series[..|series|] == series;
  }

  method ReadNewest(
    store: Store, p: Provider, series: seq<Series>, i: nat, found: seq<Observation>, ghost start: Story)
    returns (more: seq<Observation>)
    requires Live(p, store) && WellTold(start) && Onward(start, store.story) && i < |series| && |found| <= i
    requires |found| == i ==> AllNewest(store.story, |start.acts|, series[..i], found)
    requires FoundOrNone(store.story, |start.acts|, series[..i], found)
    modifies store
    ensures Live(p, store) && Onward(start, store.story)
    ensures |found| <= |more| <= |found| + 1
    ensures Observed(Present(start).log, series[i]) ==> |more| == |found| + 1
    ensures |more| == i + 1 ==> AllNewest(store.story, |start.acts|, series[..i + 1], more)
    ensures FoundOrNone(store.story, |start.acts|, series[..i + 1], more)
    ensures store.quiet ==> store.story == old(store.story)
  {
    ghost var before := store.story;
    OthersRun(store, p, None);
    OnwardTransitive(start, before, store.story);
    FoundOrNoneStays(before, store.story, |start.acts|, series[..i], found);
    var newest := store.NewestObservation(series[i]);
    more := found;
    assert store.story.past[|store.story.past| - 1] == store.View();
    if newest.Some? {
      more := found + [newest.value];
      assert Newest(store.View(), series[i], newest.value);
      assert NewestDuring(store.story, |start.acts|, series[i], newest.value);
      if |more| == i + 1 {
        OneMoreNewest(before, store.story, |start.acts|, series, i, found, newest.value);
      }
      OneMoreFound(store.story, |start.acts|, series, i, found, newest.value);
    } else {
      if Observed(Present(start).log, series[i]) {
        ObservedSurvives(Present(start).log, store.log, series[i]);
      }
      assert UnobservedDuring(store.story, |start.acts|, series[i]);
      OneMoreSkipped(store.story, |start.acts|, series, i, found);
    }
  }

  lemma OneMoreNewest(
    before: Story, s: Story, from: nat, series: seq<Series>, i: nat, found: seq<Observation>, o: Observation)
    requires i < |series| && AllNewest(before, from, series[..i], found) && before.past <= s.past
    requires NewestDuring(s, from, series[i], o)
    ensures AllNewest(s, from, series[..i + 1], found + [o])
  {
    forall j | 0 <= j <= i ensures NewestDuring(s, from, series[..i + 1][j], (found + [o])[j]) {
      if j < i {
        assert series[..i][j] == series[j];
        NewestDuringStays(before, s, from, from, series[j], found[j]);
      }
    }
  }

  lemma OneMoreFound(s: Story, from: nat, series: seq<Series>, i: nat, found: seq<Observation>, o: Observation)
    requires i < |series| && FoundOrNone(s, from, series[..i], found)
    requires o.series == series[i] && NewestDuring(s, from, series[i], o)
    ensures FoundOrNone(s, from, series[..i + 1], found + [o])
  {
    assert series[..i + 1] == series[..i] + [series[i]];
    assert forall x | x in found :: x in found + [o];
    assert o in found + [o];
  }

  lemma OneMoreSkipped(s: Story, from: nat, series: seq<Series>, i: nat, found: seq<Observation>)
    requires i < |series| && FoundOrNone(s, from, series[..i], found) && UnobservedDuring(s, from, series[i])
    ensures FoundOrNone(s, from, series[..i + 1], found)
  {
    assert series[..i + 1] == series[..i] + [series[i]];
  }

  function LatestUnits(series: seq<Series>): seq<Unit> {
    seq(|series|, i requires 0 <= i < |series| => LatestUnit(series[i]))
  }

  /**
  What a returned rate is worth. It was the newest of its series at a moment
  `j` of the call; at a moment `k` its unit was ready exactly if it is not
  marked stale, and then the provider was fetched within the freshness period.
  When the call resolved its units, the rate was read at or after `k`, else
  at or before it.
   */
  ghost predicate RateFor(p: Provider, s: Story, from: nat, resolved: bool, series: Series, r: Rate)
    requires from < |s.past|
  {
    && p(series.id, r.observation.date) == Some(r.observation.value) && r.observation in Present(s).log
    && (!r.stale ==> FreshFetch(Present(s), LatestKey(series), s.past[from].now))
    && exists j, k :: ReadAt(s, from, series, r, j, k) && (if resolved then k <= j && !r.stale else j <= k)
  }

  ghost predicate ReadAt(s: Story, from: nat, series: Series, r: Rate, j: nat, k: nat) {
    && from <= j < |s.past| && from <= k < |s.past|
    && Newest(s.past[j], series, r.observation)
    && (r.stale <==> !ReadyAt(s.past[k], LatestUnit(series)))
  }

  /** One rate per series, in order. */
  ghost predicate RatesFor(
    p: Provider, s: Story, from: nat, resolved: bool, series: seq<Series>, rates: seq<Rate>)
    requires from < |s.past|
  {
    |rates| == |series| && forall i | 0 <= i < |series| :: RateFor(p, s, from, resolved, series[i], rates[i])
  }

  /**
  Latest: a successful answer holds exactly one observation per distinct
  requested series; one not marked stale had its unit ready during the call,
  hence a committed provider fetch no older than the freshness period.
   */
  method Latest(store: Store, p: Provider, config: Config, requested: seq<Series>, today: Day, patience: nat)
    returns (answer: Result<seq<Rate>>, series: seq<Series>, ghost resolved: bool)
    requires Live(p, store)
    modifies store
    ensures Live(p, store) && Onward(old(store.story), store.story)
    ensures answer == Err(InvalidSeries) <==> !Acceptable(requested)
    ensures answer.Ok? ==>
              && NormalForm(requested, series)
              && RatesFor(p, store.story, |old(store.story).acts|, resolved, series, answer.value)
    ensures store.quiet && patience > 0 && Acceptable(requested)
            && (forall s | s in requested :: ReadyAt(old(store.View()), LatestUnit(s))) ==>
              answer.Ok? && resolved && store.story == old(store.story)
    ensures patience > 1 && Acceptable(requested)
            && old(Attainable(store, p, config, today, LatestUnits(series))) ==>
              answer.Ok? && resolved
  {
    ghost var start := store.story;
    LaterReflexive(store.View());
    series, resolved := [], false;
    var normal := NormalizeSeries(requested);
    if normal.None? {
      return Err(InvalidSeries), series, resolved;
    }
    series := normal.value;
    ghost var attainable := patience > 1 && Attainable(store, p, config, today, LatestUnits(series));
    for round := 0 to patience
      invariant Live(p, store) && Onward(start, store.story)
      invariant store.quiet && (forall s | s in series :: ReadyAt(Present(start), LatestUnit(s))) ==>
                  round == 0 && store.story == start
      invariant attainable ==> round == 0 && Attainable(store, p, config, today, LatestUnits(series))
    {
      ghost var before := store.story;
      var done;
      done, answer, resolved := LatestRound(store, p, config, series, today, patience);
      OnwardTransitive(start, before, store.story);
      if done {
        if answer.Ok? {
          EarlierRates(p, start, before, store.story, resolved, series, answer.value);
        }
        return;
      }
    }
    return Err(Unresolved(ContextDone)), series, resolved;
  }

  lemma EarlierRates(
    p: Provider, start: Story, before: Story, s: Story, resolved: bool, series: seq<Series>, rates: seq<Rate>)
    requires WellTold(start) && WellTold(before) && WellTold(s) && Onward(start, before) && Onward(before, s)
    requires RatesFor(p, s, |before.acts|, resolved, series, rates)
    ensures RatesFor(p, s, |start.acts|, resolved, series, rates)
  {
    assert s.past[|start.acts|] == Present(start) && s.past[|before.acts|] == Present(before);
    forall i | 0 <= i < |series| ensures RateFor(p, s, |start.acts|, resolved, series[i], rates[i]) {
      EarlierRate(p, s, |before.acts|, |start.acts|, resolved, series[i], rates[i]);
    }
  }

  lemma EarlierRate(p: Provider, s: Story, from: nat, earlier: nat, resolved: bool, series: Series, r: Rate)
    requires earlier <= from < |s.past| && s.past[earlier].now <= s.past[from].now
    requires RateFor(p, s, from, resolved, series, r)
    ensures RateFor(p, s, earlier, resolved, series, r)
  {
    if !r.stale {
      EarlierFresh(Present(s), LatestKey(series), s.past[from].now, s.past[earlier].now);
    }
    var j, k :| ReadAt(s, from, series, r, j, k) && (if resolved then k <= j && !r.stale else j <= k);
    assert ReadAt(s, earlier, series, r, j, k);
  }

  lemma EarlierFresh(c: Cache, k: Key, at: Time, earlier: Time)
    requires FreshFetch(c, k, at) && earlier <= at
    ensures FreshFetch(c, k, earlier)
  {
    var t :| (k, t) in c.fetched && t <= c.now && at < t + c.freshFor;
    assert (k, t) in c.fetched && t <= c.now && earlier < t + c.freshFor;
  }

  /** One round: answer when resolved, or fall back on what is stored, marking what is not ready. */
  method LatestRound(store: Store, p: Provider, config: Config, series: seq<Series>, today: Day, patience: nat)
    returns (done: bool, answer: Result<seq<Rate>>, ghost resolved: bool)
    requires Live(p, store) && ProperSeries(series)
    modifies store
    ensures Live(p, store) && Onward(old(store.story), store.story)
    ensures answer != Err(InvalidSeries)
    ensures done && answer.Ok? ==>
              RatesFor(p, store.story, |old(store.story).acts|, resolved, series, answer.value)
    ensures store.quiet && patience > 0 && (forall s | s in series :: ReadyAt(old(store.View()), LatestUnit(s))) ==>
              done && answer.Ok? && resolved && store.story == old(store.story)
    ensures patience > 1 && old(Attainable(store, p, config, today, LatestUnits(series))) ==>
              done && answer.Ok? && resolved
  {
    ghost var start := store.story;
    var units := LatestUnits(series);
    LatestUnitsWorkable(series);
    var failure := Resolve(store, p, config, units, today, patience);
    resolved := failure.None?;
    ghost var mid := store.story;
    if resolved {
      ResolvedIsObserved(mid, |start.acts|, series);
    }
    var loaded, found := LatestObservations(store, p, series);
    ghost var read := store.story;
    OnwardTransitive(start, mid, read);
    if failure.None? {
      if !loaded {
        return true, Err(Unresolved(StoreFailed)), resolved;
      }
      UnmarkedRates(p, start, mid, read, series, found);
      return true, Ok(Unmarked(found)), resolved;
    }
    if loaded && |found| == |series| {
      var ok, states := States(store, p, units);
      OnwardTransitive(start, read, store.story);
      if ok {
        MarkedRates(p, start, mid, read, store.story, series, found, states);
        var rates := Mark(series, found, states);
        return true, Ok(rates), resolved;
      }
    }
    return failure != Some(ColdFetchInProgress), Err(Unresolved(failure.value)), resolved;
  }

  function Unmarked(found: seq<Observation>): seq<Rate> {
    seq(|found|, i requires 0 <= i < |found| => Rate(found[i], false))
  }

  lemma LatestUnitsWorkable(series: seq<Series>)
    requires ProperSeries(series)
    ensures Workable(LatestUnits(series)) && forall s | s in series :: LatestUnit(s) in LatestUnits(series)
  {
    var units := LatestUnits(series);
    forall s | s in series ensures LatestUnit(s) in units {
      var i :| 0 <= i < |series| && series[i] == s;
      assert units[i] == LatestUnit(s);
    }
    forall i, j | 0 <= i < j < |units| ensures units[i].series.id != units[j].series.id {
      assert units[i].series == series[i] && units[j].series == series[j];
    }
    forall u | u in units ensures SeriesIdOk(u.series.id) {
      var i :| 0 <= i < |units| && units[i] == u;
      assert series[i] in series;
    }
  }

  lemma UnitOf(series: seq<Series>, s: Series)
    requires s in series
    ensures LatestUnit(s) in LatestUnits(series)
  {
    var i :| 0 <= i < |series| && series[i] == s;
    assert LatestUnits(series)[i] == LatestUnit(s);
  }

  lemma ResolvedIsObserved(s: Story, from: nat, series: seq<Series>)
    requires from < |s.past| && Resolved(s, from, LatestUnits(series))
    ensures forall x | x in series :: Observed(Present(s).log, x)
  {
    forall x | x in series ensures Observed(Present(s).log, x) {
      UnitOf(series, x);
    }
  }

  /** An observation read at some moment is the provider's, and stays stored. */
  lemma NewestIsProvided(p: Provider, s: Story, from: nat, series: Series, o: Observation)
    requires WellTold(s) && Inv(p, Present(s)) && NewestDuring(s, from, series, o)
    ensures o.series == series && p(series.id, o.date) == Some(o.value) && o in Present(s).log
  {
    var j :| from <= j < |s.past| && Newest(s.past[j], series, o);
    LogGrowsAlong(s, j, |s.past| - 1);
  }

  lemma UnmarkedRate(p: Provider, start: Story, mid: Story, read: Story, series: Series, o: Observation)
    requires WellTold(start) && WellTold(mid) && WellTold(read) && Onward(start, mid) && Onward(mid, read)
    requires Inv(p, Present(read)) && Resolved(mid, |start.acts|, [LatestUnit(series)])
    requires NewestDuring(read, |mid.acts|, series, o)
    ensures RateFor(p, read, |start.acts|, true, series, Rate(o, false))
  {
    var u := LatestUnit(series);
    assert u in [u];
    NewestIsProvided(p, read, |mid.acts|, series, o);
    FreshFetchStays(Present(mid), Present(read), LatestKey(series), mid.past[|start.acts|].now);
    assert read.past[|start.acts|] == mid.past[|start.acts|];
    var j, k := ReadyThenRead(mid, read, |start.acts|, series, o);
  }

  /** The moments at which a unit was ready and, later, its observation was read. */
  lemma ReadyThenRead(mid: Story, read: Story, from: nat, series: Series, o: Observation) returns (j: nat, k: nat)
    requires |mid.past| == |mid.acts| + 1 && mid.past <= read.past && from <= |mid.acts|
    requires ReadyDuring(mid, from, LatestUnit(series)) && NewestDuring(read, |mid.acts|, series, o)
    ensures ReadAt(read, from, series, Rate(o, false), j, k) && k <= j
  {
    k :| from <= k < |mid.past| && ReadyAt(mid.past[k], LatestUnit(series));
    j :| |mid.acts| <= j < |read.past| && Newest(read.past[j], series, o);
    assert read.past[k] == mid.past[k];
  }

  lemma UnmarkedRates(p: Provider, start: Story, mid: Story, read: Story, series: seq<Series>, found: seq<Observation>)
    requires WellTold(start) && WellTold(mid) && WellTold(read) && Onward(start, mid) && Onward(mid, read)
    requires Inv(p, Present(read)) && Resolved(mid, |start.acts|, LatestUnits(series))
    requires AllNewest(read, |mid.acts|, series, found)
    ensures RatesFor(p, read, |start.acts|, true, series, Unmarked(found))
  {
    forall i | 0 <= i < |series| ensures RateFor(p, read, |start.acts|, true, series[i], Unmarked(found)[i]) {
      UnitOf(series, series[i]);
      UnmarkedRate(p, start, mid, read, series[i], found[i]);
    }
  }

  lemma MarkedRate(
    p: Provider, start: Story, mid: Story, read: Story, s: Story, series: Series, o: Observation, st: WorkState)
    requires WellTold(start) && WellTold(mid) && WellTold(read) && WellTold(s)
    requires Onward(start, mid) && Onward(mid, read) && Onward(read, s) && Inv(p, Present(s))
    requires NewestDuring(read, |mid.acts|, series, o) && ReadDuring(s, |read.acts|, LatestUnit(series), st)
    requires ReadBetween(Present(read), Present(s), LatestUnit(series), st)
    ensures RateFor(p, s, |start.acts|, false, series, Rate(o, !st.ready))
  {
    NewestDuringStays(read, s, |mid.acts|, |mid.acts|, series, o);
    NewestIsProvided(p, s, |mid.acts|, series, o);
    if st.ready {
      EarlierFresh(Present(s), LatestKey(series), Present(read).now, Present(start).now);
    }
    assert s.past[|start.acts|] == Present(start);
    var j, k := ReadThenMarked(read, s, |start.acts|, |mid.acts|, series, o, st);
  }

  /** The moments at which an observation and, later, its unit's state were read. */
  lemma ReadThenMarked(
    read: Story, s: Story, earlier: nat, from: nat, series: Series, o: Observation, st: WorkState)
    returns (j: nat, k: nat)
    requires |read.past| == |read.acts| + 1 && read.past <= s.past && earlier <= from
    requires from <= |read.acts|
    requires NewestDuring(read, from, series, o) && ReadDuring(s, |read.acts|, LatestUnit(series), st)
    ensures ReadAt(s, earlier, series, Rate(o, !st.ready), j, k) && j <= k
  {
    j :| from <= j < |read.past| && Newest(read.past[j], series, o);
    k :| |read.acts| <= k < |s.past| && StateOf(s.past[k].rows, LatestUnit(series), s.past[k].now) == st;
    assert s.past[j] == read.past[j];
  }

  lemma MarkedRates(
    p: Provider, start: Story, mid: Story, read: Story, s: Story, series: seq<Series>, found: seq<Observation>,
    states: map<Key, WorkState>)
    requires WellTold(start) && WellTold(mid) && WellTold(read) && WellTold(s)
    requires Onward(start, mid) && Onward(mid, read) && Onward(read, s) && Inv(p, Present(s))
    requires AllNewest(read, |mid.acts|, series, found)
    requires AllReadBetween(Present(read), Present(s), LatestUnits(series), states)
    requires AllReadDuring(s, |read.acts|, LatestUnits(series), states)
    ensures forall i | 0 <= i < |series| ::
              && found[i].series == series[i] && LatestKey(series[i]) in states
              && RateFor(p, s, |start.acts|, false, series[i], Rate(found[i], !states[LatestKey(series[i])].ready))
  {
    forall i | 0 <= i < |series|
      ensures found[i].series == series[i] && LatestKey(series[i]) in states
      ensures RateFor(p, s, |start.acts|, false, series[i], Rate(found[i], !states[LatestKey(series[i])].ready))
    {
      UnitOf(series, series[i]);
      MarkedRate(p, start, mid, read, s, series[i], found[i], states[LatestKey(series[i])]);
    }
  }

  /** Marks each observation whose unit the states read did not find ready. */
  method Mark(series: seq<Series>, found: seq<Observation>, states: map<Key, WorkState>) returns (rates: seq<Rate>)
    requires |found| == |series|
    requires forall i | 0 <= i < |series| :: found[i].series == series[i] && LatestKey(series[i]) in states
    ensures |rates| == |series|
    ensures forall i | 0 <= i < |series| :: rates[i] == Rate(found[i], !states[LatestKey(series[i])].ready)
  {
    rates := [];
    for i := 0 to |found|
      invariant |rates| == i
      invariant forall j | 0 <= j < i :: rates[j] == Rate(found[j], !states[LatestKey(series[j])].ready)
    {
      rates := rates + [Rate(found[i], !states[LatestKey(found[i].series)].ready)];
    }
  }

  // ---- is a rate that is not stale the newest? -----------------------------

  /** The rate is dated no earlier than anything stored for its series in `c`. */
  ghost predicate UpToDate(c: Cache, series: Series, r: Rate) {
    forall x | x in c.log && x.series == series :: x.date <= r.observation.date
  }

  /** A rate of a resolved call is up to date in a state of the call in which its unit was ready. */
  lemma ResolvedRateIsUpToDate(p: Provider, s: Story, from: nat, series: Series, r: Rate)
    requires WellTold(s) && from < |s.past| && RateFor(p, s, from, true, series, r)
    ensures exists k :: from <= k < |s.past| && ReadyAt(s.past[k], LatestUnit(series)) && UpToDate(s.past[k], series, r)
  {
    var j: nat, k: nat :| ReadAt(s, from, series, r, j, k) && k <= j && !r.stale;
    LogGrowsAlong(s, k, j);
    assert UpToDate(s.past[k], series, r);
  }

  /**
  A rate of a call that fell back on what is stored was read before its unit's
  state was. It is up to date in the state in which the unit was ready exactly
  when no fetch committed between the two reads imported a later day.
   */
  lemma FallbackRateIsUpToDateExactly(s: Story, from: nat, series: Series, r: Rate, j: nat, k: nat)
    requires WellTold(s) && ReadAt(s, from, series, r, j, k) && j <= k
    ensures UpToDate(s.past[k], series, r) <==>
            forall x | x in CommittedImports(s.past[j], s.acts[j..k]) && x.series == series ::
              x.date <= r.observation.date
  {
    StretchIsRun(s, j, k);
    RunRecordsImports(s.past[j], s.acts[j..k]);
    var imports := CommittedImports(s.past[j], s.acts[j..k]);
    RecordAllKeeps(s.past[j].log, imports);
    if UpToDate(s.past[k], series, r) {
      forall x | x in imports && x.series == series ensures x.date <= r.observation.date {
        var v :| Observation(x.series, x.date, v) in s.past[k].log;
      }
    }
  }
}
