/** Two legal runs that show why a fresh mark and a forced refresh promise no more than they do. */
module RateWitnesses {
  import opened Base
  import opened RateTypes
  import opened RateRows
  import opened RateLog
  import opened RateCache
  import opened RateTheorems
  import opened RateStory
  import opened Batching
  import opened RateProgress
  import opened RateQueries
  import opened Decimals
  import opened LedgerAttempts
  import opened OfferIntake

  const SERIES := Series("SF43718", "USD", "MXN")

  // A provider that publishes the number of the day, every day.
  function Daily(id: string, d: Day): Option<Decimal> {
    Some(Decimal(if d > 0 then d else 1, 0))
  }

  function ObservationOn(d: Day): ProviderObservation {
    ProviderObservation(SERIES.id, d, Daily(SERIES.id, d).value)
  }

  function Cold(): Cache {
    Cache(map[], [], 0, 1, {}, {}, {})
  }

  /** A claim of one unit followed by its completion with the observation of one day. */
  ghost function AfterFetch(c: Cache, u: Unit, nonce: Uuid, d: Day): Cache {
    Next(Next(c, Claim([u], nonce, 1, false)), Complete(nonce, [u], RequestForBatch([u]), [ObservationOn(d)]))
  }

  /** The unit can be claimed by a new nonce, and the day belongs to its request. */
  ghost predicate Fetchable(c: Cache, u: Unit, nonce: Uuid, d: Day) {
    && u.series == SERIES && WellPlanned(u) && nonce !in c.used && d > 0
    && (u.MonthUnit? ==> u.from == d == u.fetchTo)
    && (KeyOf(u) in c.rows ==> Claimable(c.rows[KeyOf(u)], u, c.now, false))
  }

  lemma ClaimOfOne(c: Cache, u: Unit, nonce: Uuid, d: Day)
    requires Fetchable(c, u, nonce, d)
    ensures Owned(Next(c, Claim([u], nonce, 1, false)).rows, KeyOf(u), nonce)
  {
    assert [u][..0] == [];
    assert ClaimAll(c.rows, [], nonce, c.now, 1, false) == (c.rows, []);
  }

  lemma CompletionOfOne(c: Cache, u: Unit, nonce: Uuid, d: Day)
    requires u.series == SERIES && d > 0 && (u.MonthUnit? ==> u.from == d == u.fetchTo)
    requires Owned(c.rows, KeyOf(u), nonce)
    ensures CanComplete(c, nonce, [u], RequestForBatch([u]), [ObservationOn(d)])
    ensures Imports([u], [ObservationOn(d)]) == [Observation(SERIES, d, Daily(SERIES.id, d).value)]
  {
    assert SeriesFor([u], SERIES.id) == Some(SERIES);
  }

  /** Both steps are legal, the unit is completed, and the day is recorded. */
  lemma FetchIsLegal(c: Cache, u: Unit, nonce: Uuid, d: Day)
    requires Fetchable(c, u, nonce, d)
    ensures Legal(Daily, c, Claim([u], nonce, 1, false))
    ensures var b := Next(c, Claim([u], nonce, 1, false));
            var e := Complete(nonce, [u], RequestForBatch([u]), [ObservationOn(d)]);
            && Legal(Daily, b, e) && Completes(b, e, KeyOf(u))
            && Next(b, e).log == Record(c.log, Observation(SERIES, d, Daily(SERIES.id, d).value))
            && (KeyOf(u), c.now) in Next(b, e).fetched
            && Next(b, e).now == c.now && Next(b, e).freshFor == c.freshFor && Next(b, e).used == c.used + {nonce}
  {
    var b := Next(c, Claim([u], nonce, 1, false));
    ClaimOfOne(c, u, nonce, d);
    CompletionOfOne(b, u, nonce, d);
    assert ObservationOn(d) in [ObservationOn(d)];
    assert u in [u] && KeyOf(u) in Keys([u]);
    var one := [Observation(SERIES, d, Daily(SERIES.id, d).value)];
    assert one[..0] == [] && RecordAll(c.log, one[..0]) == c.log;
    assert RecordAll(c.log, one) == Record(c.log, one[0]);
  }

  lemma FetchedRow(c: Cache, u: Unit, nonce: Uuid, d: Day)
    requires Fetchable(c, u, nonce, d) && u.LatestUnit?
    ensures KeyOf(u) in AfterFetch(c, u, nonce, d).rows
    ensures var row := AfterFetch(c, u, nonce, d).rows[KeyOf(u)];
            && row.kind.FetchLatest? && row.series == (if KeyOf(u) in c.rows then c.rows[KeyOf(u)].series else u.series)
            && row.completed == Some(c.now) && row.lease.None? && row.nextAttempt == c.now
            && (c.freshFor > 0 ==> row.freshUntil == Some(c.now + c.freshFor))
  {
    FetchIsLegal(c, u, nonce, d);
    assert [u][..0] == [];
    assert ClaimAll(c.rows, [], nonce, c.now, 1, false) == (c.rows, []);
    assert UnitAt([u], KeyOf(u)) == Some(u);
  }

  lemma RunThen(c: Cache, es: seq<Event>, e: Event)
    ensures Run(c, es + [e]) == Next(Run(c, es), e)
    ensures LegalRun(Daily, c, es) && Legal(Daily, Run(c, es), e) ==> LegalRun(Daily, c, es + [e])
  {
    assert (es + [e])[..|es + [e]| - 1] == es;
  }

  function RateOn(d: Day): Observation {
    Observation(SERIES, d, Daily(SERIES.id, d).value)
  }

  /** The first day has been fetched, and its freshness has run out. */
  lemma FirstFetch() returns (es: seq<Event>)
    ensures LegalRun(Daily, Cold(), es)
    ensures var a := Run(Cold(), es); a.log == [RateOn(1)] && a.freshFor == 1 && Fetchable(a, LatestUnit(SERIES), 2, 2)
  {
    var u := LatestUnit(SERIES);
    var first, second := Claim([u], 1, 1, false), Complete(1, [u], RequestForBatch([u]), [ObservationOn(1)]);
    FetchIsLegal(Cold(), u, 1, 1);
    FetchedRow(Cold(), u, 1, 1);
    RunThen(Cold(), [], first);
    RunThen(Cold(), [] + [first], second);
    RunThen(Cold(), [] + [first] + [second], Tick(10));
    es := [] + [first] + [second] + [Tick(10)];
  }

  /** The second day is fetched as well: the story of that. */
  lemma SecondFetch(a: Cache) returns (s: Story)
    requires a.log == [RateOn(1)] && a.freshFor == 1 && Fetchable(a, LatestUnit(SERIES), 2, 2)
    ensures WellTold(s) && s.past[0] == a && |s.acts| == 2 && LegalRun(Daily, a, s.acts)
    ensures RateOn(1) in Present(s).log && RateOn(2) in Present(s).log
    ensures ReadyAt(s.past[2], LatestUnit(SERIES)) && FreshFetch(Present(s), LatestKey(SERIES), a.now)
  {
    var u := LatestUnit(SERIES);
    var first, second := Claim([u], 2, 1, false), Complete(2, [u], RequestForBatch([u]), [ObservationOn(2)]);
    FetchIsLegal(a, u, 2, 2);
    FetchedRow(a, u, 2, 2);
    RunThen(a, [], first);
    RunThen(a, [] + [first], second);
    var b := Next(a, first);
    var c := Next(b, second);
    s := Story([a, b, c], [] + [first] + [second]);
    assert Current(a.log, SERIES, 2) == None by {
      assert a.log[..0] == [];
    }
    assert c.log == a.log + [RateOn(2)];
    assert (LatestKey(SERIES), a.now) in c.fetched;
  }

  /**
  Between the read of a rate and the read of its unit's state another instance
  may fetch a newer day. The story of such a call admits the older rate as an
  answer that is not stale, and it is not up to date when its unit is ready.
   */
  lemma FreshMarkCanLag() returns (es: seq<Event>, s: Story, r: Rate)
    ensures Empty(Cold()) && LegalRun(Daily, Cold(), es)
    ensures WellTold(s) && s.past[0] == Run(Cold(), es) && LegalRun(Daily, s.past[0], s.acts)
    ensures RateFor(Daily, s, 0, false, SERIES, r) && !r.stale
    ensures ReadAt(s, 0, SERIES, r, 0, |s.acts|) && !UpToDate(s.past[|s.acts|], SERIES, r)
    ensures r.observation == RateOn(1)
  {
    es := FirstFetch();
    var a := Run(Cold(), es);
    s := SecondFetch(a);
    r := Rate(RateOn(1), false);
    assert Newest(a, SERIES, r.observation) by {
      assert a.log[..0] == [];
    }
    assert ReadAt(s, 0, SERIES, r, 0, 2);
    var newer := RateOn(2);
    assert newer.series == SERIES && newer.date > r.observation.date && newer in s.past[2].log;
  }

  /** And a quote can be drafted from it, on the day of the newer rate. */
  lemma LaggingQuoteCanBeDrafted() returns (s: Story, r: Rate, t: QuoteDraft)
    ensures WellTold(s) && RateFor(Daily, s, 0, false, SERIES, r) && !UpToDate(Present(s), SERIES, r)
    ensures DraftFrom([r], IntakeConfig(300_000_000, 7 * DAY), NoRevision, "M241205", Decimal(100, 0), 1_000_000, 2, 0)
            == Draft(t)
    ensures QuotedFrom(Daily, s, 0, false, t)
  {
    var es;
    es, s, r := FreshMarkCanLag();
    var config := IntakeConfig(300_000_000, 7 * DAY);
    assert Convert(Decimal(100, 0), Decimal(1, 0)) == 1_000_000;
    DraftExactlyWhen([r], config, NoRevision, "M241205", Decimal(100, 0), 1_000_000, 2, 0);
    t := DraftFrom([r], config, NoRevision, "M241205", Decimal(100, 0), 1_000_000, 2, 0).draft;
  }

  function NoRevision(o: Observation): Uuid {
    0
  }

  /**
  A forced refresh counts any newer completion: one that another instance,
  still living the day before, fetched only through its own today leaves the
  present day out although the provider holds it.
   */
  lemma ShortFetchMissesToday() returns (es: seq<Event>, asked: Unit)
    ensures Empty(Cold()) && LegalRun(Daily, Cold(), es)
    ensures |es| == 2 && Completes(Run(Cold(), es[..1]), es[1], KeyOf(asked)) && asked.MonthUnit? && WellPlanned(asked)
    ensures var n := Run(Cold(), es);
            !CoversThrough(n.rows, KeyOf(asked), asked.fetchTo)
            && Current(n.log, SERIES, asked.fetchTo) != Daily(SERIES.id, asked.fetchTo)
  {
    var short := MonthUnit(SERIES, 1, 31, 1, false);
    asked := MonthUnit(SERIES, 1, 31, 2, false);
    var first := Claim([short], 1, 1, false);
    var second := Complete(1, [short], RequestForBatch([short]), [ObservationOn(1)]);
    FetchIsLegal(Cold(), short, 1, 1);
    RunThen(Cold(), [], first);
    RunThen(Cold(), [] + [first], second);
    es := [] + [first] + [second];
    assert es[..1] == [] + [first];
    var n := Run(Cold(), es);
    assert n.log == [Observation(SERIES, 1, Daily(SERIES.id, 1).value)];
    ShortRow(short);
  }

  lemma ShortRow(short: Unit)
    requires short == MonthUnit(SERIES, 1, 31, 1, false)
    ensures var n := AfterFetch(Cold(), short, 1, 1); KeyOf(short) in n.rows && n.rows[KeyOf(short)].covered == Some(1)
  {
    FetchIsLegal(Cold(), short, 1, 1);
    assert [short][..0] == [];
    assert ClaimAll(Cold().rows, [], 1, 0, 1, false) == (Cold().rows, []);
    assert UnitAt([short], KeyOf(short)) == Some(short);
  }
}
