/**
Offer intake: pricing a USD submission in MXN from a fresh central-bank rate,
and gating submissions before they reach the ledger.
 */
module OfferIntake {
  import opened Base
  import opened Decimals
  import opened RateTypes
  import opened RateCache
  import opened RateTheorems
  import opened RateStory
  import opened RateStore
  import opened RateService
  import opened RateProgress
  import opened RateQueries
  import opened LedgerTables
  import opened LedgerAttempts
  import opened LedgerTx
  import LedgerRuns
  import LedgerHistory
  import LedgerTheorems
  import LedgerAnswers

  const DAY := 86_400_000_000

  const FIX: Series := Series(FIX_SERIES, "USD", "MXN")

  datatype Validation = Unusable | Outdated | Future | OverAge | Accepted

  /** observationValidationOutcome. */
  function Validate(r: Rate, today: Day, maximumAge: int): Validation {
    var o := r.observation;
    if o.series != FIX || o.value.coefficient <= 0 || o.date == 0 then Unusable
    else if r.stale then Outdated
    else if o.date > today then Future
    else if (today - o.date) * DAY > maximumAge then OverAge
    else Accepted
  }

  datatype IntakeConfig = IntakeConfig(quoteTTL: int, maximumAge: int)

  // The caller of a quote, without the draft that only the service can write.
  datatype Caller = Caller(principal: Uuid, client: string, nonce: Uuid, digest: nat)

  function QuoteMutation(caller: Caller, draft: QuoteDraft): Mutation {
    Mutation(caller.principal, caller.client, caller.nonce, caller.digest, Quote(draft))
  }

  function QuoteScope(caller: Caller): Scope {
    Scope(caller.principal, caller.client, QuoteOperation, caller.nonce)
  }

  // ---- replaying before any rate is needed ---------------------------------

  /** ReplayConversionQuote: answers from a recorded success only. */
  ghost function ReplayConversionQuote(d: Db, caller: Caller): Option<Reply> {
    if !Permitted(d.access, caller.principal, MayQuote) then Some(Refusal(PermissionDenied))
    else if !Claimed(d.market, QuoteScope(caller)) then None
    else
      var c := ClaimAt(d.market, QuoteScope(caller));
      if c !in d.market.results || !d.market.results[c].Succeeded? then None
      else if d.market.claims[c].digest != caller.digest then Some(Refusal(IdempotencyConflict))
      else Some(ReadQuote(d, d.market.results[c].resource))
  }

  /** Claim `c` of this caller's scope recorded a success. */
  predicate SucceededAs(m: Market, c: Uuid, scope: Scope) {
    c in m.claims && c in m.results && m.claims[c].scope == scope && m.results[c].Succeeded?
  }

  /**
  The early replay answers exactly as the store's own replay would, whatever
  the draft, and keeps silent exactly when no claim of the scope has a recorded
  success.
   */
  lemma EarlyReplayAgrees(d: Db, caller: Caller, draft: QuoteDraft)
    requires Permitted(d.access, caller.principal, MayQuote) && Unique(d.market)
    ensures var early := ReplayConversionQuote(d, caller);
            && (early.Some? ==> early.value == Replay(d, QuoteMutation(caller, draft)))
            && (early.None? <==> !exists c :: SucceededAs(d.market, c, QuoteScope(caller)))
  {
    assert ScopeOf(QuoteMutation(caller, draft)) == QuoteScope(caller);
    var early := ReplayConversionQuote(d, caller);
    if early.Some? {
      assert SucceededAs(d.market, ClaimAt(d.market, QuoteScope(caller)), QuoteScope(caller));
    }
    forall c | SucceededAs(d.market, c, QuoteScope(caller)) ensures early.Some? {
      assert c == ClaimAt(d.market, QuoteScope(caller));
    }
  }

  /** What the early replay answers is what the ledger answers in every later state. */
  lemma EarlyReplayStands(o: Market, early: Db, later: Db, caller: Caller, draft: QuoteDraft)
    requires LedgerRuns.Ledger(o, early) && Unique(later.market) && Grows(early, later)
    requires Permitted(early.access, caller.principal, MayQuote) && ReplayConversionQuote(early, caller).Some?
    ensures ReplayConversionQuote(early, caller) == Some(Replay(later, QuoteMutation(caller, draft)))
  {
    EarlyReplayAgrees(early, caller, draft);
    LedgerHistory.ReplayStable(o, early, later, QuoteMutation(caller, draft));
  }

  // ---- drafting ------------------------------------------------------------

  /**
  A draft priced from a FIX rate that the provider holds and the log records,
  and that is dated neither in the future nor over age; the FIX unit was
  fetched within the freshness period.
   */
  ghost predicate SoundDraft(
    p: Provider, began: Time, end: Cache, config: IntakeConfig, revisionOf: Observation -> Uuid, price: Decimal,
    today: Day, clock: Time, t: QuoteDraft)
  {
    && FreshFetch(end, LatestKey(FIX), began)
    && t.observedOn <= today && (today - t.observedOn) * DAY <= config.maximumAge
    && ParsePrice(price) == Some(t.submitted)
    && t.expiresAt == clock + config.quoteTTL
    && p(FIX.id, t.observedOn).Some?
    && var o := Observation(FIX, t.observedOn, p(FIX.id, t.observedOn).value);
    && o in end.log && t.rate == revisionOf(o)
    && o.value.coefficient > 0 && QuotedPrice(price, o.value) == Some(t.canonical)
  }

  /** The rate a draft was priced from. */
  function PricedFrom(p: Provider, t: QuoteDraft): Rate
    requires p(FIX.id, t.observedOn).Some?
  {
    Rate(Observation(FIX, t.observedOn, p(FIX.id, t.observedOn).value), false)
  }

  /**
  The rate a draft was priced from is one that `Latest` answered as not stale:
  it was the newest at a moment of the call and its unit was ready at a moment
  of the call, the latter first exactly if the call resolved its unit.
   */
  ghost predicate QuotedFrom(p: Provider, s: Story, from: nat, resolved: bool, t: QuoteDraft)
    requires from < |s.past|
  {
    p(FIX.id, t.observedOn).Some? && RateFor(p, s, from, resolved, FIX, PricedFrom(p, t))
  }

  /** A quote of a resolved call is priced from a rate up to date in a state of the call in which FIX was ready. */
  lemma ResolvedQuoteIsUpToDate(p: Provider, s: Story, from: nat, t: QuoteDraft) returns (k: nat)
    requires WellTold(s) && from < |s.past| && QuotedFrom(p, s, from, true, t)
    ensures from <= k < |s.past| && ReadyAt(s.past[k], LatestUnit(FIX))
    ensures forall x | x in s.past[k].log && x.series == FIX :: x.date <= t.observedOn
  {
    ResolvedRateIsUpToDate(p, s, from, FIX, PricedFrom(p, t));
    k :| from <= k < |s.past| && ReadyAt(s.past[k], LatestUnit(FIX)) && UpToDate(s.past[k], FIX, PricedFrom(p, t));
  }

  /**
  A quote of a call that fell back on what is stored is priced from the rate
  that was the newest at `j`; it is up to date at `k`, when FIX was ready,
  exactly when no fetch committed between the two imported a later day.
   */
  lemma FallbackQuoteIsUpToDateExactly(p: Provider, s: Story, from: nat, t: QuoteDraft) returns (j: nat, k: nat)
    requires WellTold(s) && from < |s.past| && QuotedFrom(p, s, from, false, t)
    ensures from <= j <= k < |s.past| && Newest(s.past[j], FIX, PricedFrom(p, t).observation)
    ensures ReadyAt(s.past[k], LatestUnit(FIX))
    ensures (forall x | x in s.past[k].log && x.series == FIX :: x.date <= t.observedOn) <==>
            (forall x | x in CommittedImports(s.past[j], s.acts[j..k]) && x.series == FIX :: x.date <= t.observedOn)
  {
    var r := PricedFrom(p, t);
    j, k :| ReadAt(s, from, FIX, r, j, k) && j <= k;
    FallbackRateIsUpToDateExactly(s, from, FIX, r, j, k);
    assert UpToDate(s.past[k], FIX, r) <==> forall x | x in s.past[k].log && x.series == FIX :: x.date <= t.observedOn;
  }

  /** The ledger's rate table holds every logged observation under its revision: the two are one table. */
  ghost predicate Linked(log: seq<Observation>, catalog: Catalog, revisionOf: Observation -> Uuid) {
    forall o | o in log ::
      && revisionOf(o) in catalog.rates
      && catalog.rates[revisionOf(o)] == RateRow(o.series.id, o.series.base, o.series.quote, o.date, o.value)
  }

  datatype Drafting = Draft(draft: QuoteDraft) | NoDraft(error: Error)

  /** The draft, or its refusal, that the rates lead to. */
  function DraftFrom(
    rates: seq<Rate>, config: IntakeConfig, revisionOf: Observation -> Uuid, series: string, price: Decimal,
    submitted: Amount, today: Day, clock: Time): Drafting
  {
    if |rates| != 1 || Validate(rates[0], today, config.maximumAge) != Accepted then NoDraft(ExchangeRateUnavailable)
    else
      var o := rates[0].observation;
      match QuotedPrice(price, o.value)
      case None => NoDraft(InvalidPrice)
      case Some(canonical) =>
        Draft(QuoteDraft(series, submitted, canonical, revisionOf(o), o.date, clock + config.quoteTTL))
  }

  /**
  A quote is drafted exactly from one usable FIX rate that is fresh, dated
  neither in the future nor over age, and prices in bounds.
   */
  lemma DraftExactlyWhen(
    rates: seq<Rate>, config: IntakeConfig, revisionOf: Observation -> Uuid, series: string, price: Decimal,
    submitted: Amount, today: Day, clock: Time)
    ensures DraftFrom(rates, config, revisionOf, series, price, submitted, today, clock).Draft? <==>
              && |rates| == 1 && !rates[0].stale
              && var o := rates[0].observation;
              && o.series == FIX && o.value.coefficient > 0 && o.date != 0
              && o.date <= today && (today - o.date) * DAY <= config.maximumAge
              && 0 < Convert(price, o.value) <= MAX_AMOUNT
  {
    if |rates| == 1 {
      QuotedPriceExact(price, rates[0].observation.value);
    }
  }

  /** QuoteSaleOffer from the price check to the draft; no rates means that none could be had. */
  method DraftQuote(
    store: Store, p: Provider, rates: Config, config: IntakeConfig, revisionOf: Observation -> Uuid,
    series: string, price: Decimal, currency: Currency, today: Day, clock: Time, patience: nat)
    returns (r: Drafting, found: seq<Rate>, ghost resolved: bool)
    requires Live(p, store)
    modifies store
    ensures Live(p, store) && Onward(old(store.story), store.story)
    ensures r.Draft? ==> r.draft.series == series && currency == USD
    ensures r.Draft? ==>
              SoundDraft(p, old(store.now), store.View(), config, revisionOf, price, today, clock, r.draft)
    ensures r.Draft? ==> QuotedFrom(p, store.story, |old(store.story).acts|, resolved, r.draft)
    ensures ParsePrice(price).None? ==> r == NoDraft(InvalidPrice)
    ensures ParsePrice(price).Some? && currency != USD ==> r == NoDraft(UnsupportedSubmissionCurrency)
    ensures ParsePrice(price).Some? && currency == USD ==>
              r == DraftFrom(found, config, revisionOf, series, price, ParsePrice(price).value, today, clock)
    ensures ParsePrice(price).Some? && currency == USD && store.quiet && patience > 0
            && ReadyAt(old(store.View()), LatestUnit(FIX)) ==>
              store.story == old(store.story) && Stored(store.View(), found)
  {
    LaterReflexive(store.View());
    found, resolved := [], false;
    var submitted := ParsePrice(price);
    if submitted.None? {
      return NoDraft(InvalidPrice), found, resolved;
    }
    if currency != USD {
      return NoDraft(UnsupportedSubmissionCurrency), found, resolved;
    }
    found, resolved := LatestFix(store, p, rates, today, patience);
    if |found| != 1 {
      return NoDraft(ExchangeRateUnavailable), found, resolved;
    }
    var rate := found[0];
    if Validate(rate, today, config.maximumAge) != Accepted {
      return NoDraft(ExchangeRateUnavailable), found, resolved;
    }
    var canonical := QuotedPrice(price, rate.observation.value);
    if canonical.None? {
      return NoDraft(InvalidPrice), found, resolved;
    }
    var draft := QuoteDraft(
      series, submitted.value, canonical.value, revisionOf(rate.observation), rate.observation.date,
      clock + config.quoteTTL);
    assert PricedFrom(p, draft) == rate;
    return Draft(draft), found, resolved;
  }

  /** The latest rates of FIX, none when they cannot be had; a ready one is answered from the store. */
  method LatestFix(store: Store, p: Provider, rates: Config, today: Day, patience: nat)
    returns (found: seq<Rate>, ghost resolved: bool)
    requires Live(p, store)
    modifies store
    ensures Live(p, store) && Onward(old(store.story), store.story)
    ensures |found| == 1 ==> RateFor(p, store.story, |old(store.story).acts|, resolved, FIX, found[0])
    ensures store.quiet && patience > 0 && ReadyAt(old(store.View()), LatestUnit(FIX)) ==>
              store.story == old(store.story) && Stored(store.View(), found)
  {
    ghost var start := store.story;
    var answer, normalized;
    answer, normalized, resolved := Latest(store, p, rates, [FIX], today, patience);
    if answer.Err? {
      return [], resolved;
    }
    OnlyFix(normalized);
    found := answer.value;
    assert |found| == 1 && RateFor(p, store.story, |start.acts|, resolved, normalized[0], found[0]);
    if store.story == start {
      FoundIsStored(p, start, resolved, found[0]);
    }
  }

  /** The rates are the one that is stored last, not marked stale. */
  ghost predicate Stored(c: Cache, found: seq<Rate>) {
    |found| == 1 && !found[0].stale && Newest(c, FIX, found[0].observation)
  }

  lemma FoundIsStored(p: Provider, s: Story, resolved: bool, r: Rate)
    requires WellTold(s) && RateFor(p, s, |s.acts|, resolved, FIX, r)
    ensures Newest(Present(s), FIX, r.observation) && (resolved ==> !r.stale)
  {
    var j: nat, k: nat :| ReadAt(s, |s.acts|, FIX, r, j, k) && (if resolved then k <= j && !r.stale else j <= k);
    assert s.past[j] == Present(s);
  }

  lemma OnlyFix(series: seq<Series>)
    requires NormalForm([FIX], series)
    ensures series == [FIX]
  {
    assert FIX in [FIX];
    assert FIX in series;
    forall i | 0 <= i < |series| ensures series[i] == FIX {
      assert series[i] in series;
      assert series[i] in [FIX];
    }
    assert |series| >= 2 ==> series[0].id != series[1].id;
  }

  /** The quote pins a FIX rate, and its MXN amount is the half-even rounding of submitted amount times that rate. */
  ghost predicate Priced(catalog: Catalog, q: QuoteRow) {
    && q.rate in catalog.rates
    && RateMatches(catalog, q.rate, catalog.rates[q.rate].observedOn)
    && var v := catalog.rates[q.rate].value;
    && HalfEven(q.submitted * v.coefficient, Pow10(v.scale), q.canonical)
    && 0 < q.canonical <= MAX_AMOUNT
  }

  /**
  A quote row staged from a sound draft belongs to the permitted caller, and is
  priced from the very rate row it pins, as any reader will find it there.
   */
  lemma StagedQuoteIsPriced(
    p: Provider, start: Time, end: Cache, config: IntakeConfig, revisionOf: Observation -> Uuid, price: Decimal,
    today: Day, clock: Time, caller: Caller, draft: QuoteDraft, d: Db, ids: Ids, began: Time, now: Time)
    requires SoundDraft(p, start, end, config, revisionOf, price, today, clock, draft)
    requires Linked(end.log, d.catalog, revisionOf)
    ensures var a := AttemptOn(d, QuoteMutation(caller, draft), ids, began, now);
            && a != Faulted(ExchangeRateUnavailable)
            && (a.Staged? && a.writes.fact.NewQuote? ==>
                  var q := a.writes.fact.quote;
                  && q.principal == caller.principal && Permitted(d.access, caller.principal, MayQuote)
                  && q.bond in d.catalog.bonds && d.catalog.bonds[q.bond] == draft.series
                  && q.submitted == draft.submitted && q.rate == draft.rate && Priced(d.catalog, q)
                  && d.catalog.rates[q.rate].observedOn == draft.observedOn
                  && began == q.createdAt < q.expiresAt == clock + config.quoteTTL)
  {
    var o := Observation(FIX, draft.observedOn, p(FIX.id, draft.observedOn).value);
    assert d.catalog.rates[draft.rate] == RateRow(FIX_SERIES, "USD", "MXN", o.date, o.value);
    ConversionIsHalfEven(price, o.value, draft.submitted);
    QuotedPriceExact(price, o.value);
  }

  /** Once committed, such a quote is priced from the row it pins in every later state of the ledger. */
  lemma CommittedQuoteIsPriced(
    p: Provider, start: Time, end: Cache, config: IntakeConfig, revisionOf: Observation -> Uuid, price: Decimal,
    today: Day, clock: Time, caller: Caller, draft: QuoteDraft,
    s: LedgerRuns.Sys, es: seq<LedgerRuns.Event>, fs: seq<LedgerRuns.Event>, k: LedgerRuns.Commit)
    requires SoundDraft(p, start, end, config, revisionOf, price, today, clock, draft)
    requires LedgerRuns.Init(s) && k in LedgerRuns.Run(s, es).done && k.writes.fact.NewQuote?
    requires k.mutation == QuoteMutation(caller, draft) && Linked(end.log, k.snapshot.catalog, revisionOf)
    ensures var d := LedgerRuns.Run(s, es + fs).db;
            && k.writes.fact.id in d.market.quotes && d.market.quotes[k.writes.fact.id] == k.writes.fact.quote
            && Priced(d.catalog, d.market.quotes[k.writes.fact.id])
  {
    LedgerTheorems.RunExtends(s, es, fs);
    LedgerHistory.RunKeepsAll(s, es + fs);
    var d := LedgerRuns.Run(s, es + fs).db;
    assert LedgerHistory.CommitOk(d, k);
    StagedQuoteIsPriced(
      p, start, end, config, revisionOf, price, today, clock, caller, draft, k.snapshot, k.ids, k.began, k.ran);
    PricedStays(k.snapshot.catalog, d.catalog, k.writes.fact.quote);
  }

  lemma PricedStays(c: Catalog, d: Catalog, q: QuoteRow)
    requires Priced(c, q) && CatalogGrows(c, d)
    ensures Priced(d, q)
  {
    assert d.rates[q.rate] == c.rates[q.rate];
  }

  datatype QuoteOutcome = Replayed(reply: Reply) | Failed(error: Error) | Attempted(draft: QuoteDraft, attempt: Attempt)

  /** QuoteSaleOffer: early replay, then draft, then the ledger transaction. */
  method QuoteSaleOffer(
    store: Store, p: Provider, rates: Config, config: IntakeConfig, revisionOf: Observation -> Uuid,
    tx: Tx, ghost early: Db, replayed: Option<Reply>, caller: Caller, series: string, price: Decimal,
    currency: Currency, today: Day, clock: Time, patience: nat, ids: Ids, now: Time)
    returns (r: QuoteOutcome, ghost resolved: bool)
    requires Live(p, store) && tx.Empty() && UniqueSeries(tx.snapshot.catalog)
    requires replayed == ReplayConversionQuote(early, caller)
    modifies store, tx
    ensures Live(p, store) && Onward(old(store.story), store.story)
    ensures r.Attempted? ==> replayed.None? && currency == USD && ParsePrice(price).Some?
    ensures r.Attempted? ==>
              SoundDraft(p, old(store.now), store.View(), config, revisionOf, price, today, clock, r.draft)
    ensures r.Attempted? ==> QuotedFrom(p, store.story, |old(store.story).acts|, resolved, r.draft)
    ensures r.Attempted? && r.attempt.Staged? && r.attempt.writes.fact.NewQuote? ==>
              Linked(store.log, tx.snapshot.catalog, revisionOf) ==>
                Priced(tx.snapshot.catalog, r.attempt.writes.fact.quote)
    ensures r.Attempted? ==> r.attempt == AttemptOn(tx.snapshot, QuoteMutation(caller, r.draft), ids, tx.began, now)
    ensures if r.Attempted? && r.attempt.Staged? then tx.Holds(r.attempt.writes) else tx.Empty()
    ensures ParsePrice(price).Some? && currency == USD
            && !LedgerAnswers.Entitled(early.access, caller.principal, MayQuote) ==>
              r == Replayed(Refusal(PermissionDenied)) && tx.Empty() && store.story == old(store.story)
    ensures r.Replayed? ==> replayed == Some(r.reply)
    ensures r.Replayed? && Permitted(early.access, caller.principal, MayQuote) ==>
              forall o, draft |
                LedgerRuns.Ledger(o, early) && Unique(tx.snapshot.market) && Grows(early, tx.snapshot) ::
                r.reply == Replay(tx.snapshot, QuoteMutation(caller, draft))
  {
    LaterReflexive(store.View());
    LedgerAnswers.PermittedExactly(early.access, caller.principal, MayQuote);
    ghost var start := store.now;
    resolved := false;
    if ParsePrice(price).None? {
      return Failed(InvalidPrice), resolved;
    }
    if currency != USD {
      return Failed(UnsupportedSubmissionCurrency), resolved;
    }
    if replayed.Some? {
      if Permitted(early.access, caller.principal, MayQuote) {
        forall o, draft | LedgerRuns.Ledger(o, early) && Unique(tx.snapshot.market) && Grows(early, tx.snapshot)
          ensures replayed.value == Replay(tx.snapshot, QuoteMutation(caller, draft))
        {
          EarlyReplayStands(o, early, tx.snapshot, caller, draft);
        }
      }
      return Replayed(replayed.value), resolved;
    }
    var drafting, found;
    drafting, found, resolved :=
      DraftQuote(store, p, rates, config, revisionOf, series, price, currency, today, clock, patience);
    if drafting.NoDraft? {
      return Failed(drafting.error), resolved;
    }
    var attempt := tx.CreateConversionQuote(QuoteMutation(caller, drafting.draft), ids, now);
    if Linked(store.log, tx.snapshot.catalog, revisionOf) {
      StagedQuoteIsPriced(
        p, start, store.View(), config, revisionOf, price, today, clock, caller, drafting.draft, tx.snapshot, ids,
        tx.began, now);
    }
    return Attempted(drafting.draft, attempt), resolved;
  }

  // ---- submissions ---------------------------------------------------------

  datatype Gate = Pass(submission: Submission) | Stop(error: GateError)

  datatype GateError = GateInvalidPrice | QuoteNotAllowed | QuoteRequired | UnsupportedCurrency

  /** CreateSaleOffer's checks. */
  function GateSubmission(series: string, price: Decimal, currency: Currency, quote: Option<Uuid>): Gate {
    if ParsePrice(price).None? then Stop(GateInvalidPrice)
    else
      match currency
      case MXN =>
        if quote.Some? then Stop(QuoteNotAllowed)
        else Pass(Submission(series, ParsePrice(price).value, MXN, None))
      case USD =>
        if quote.None? then Stop(QuoteRequired)
        else Pass(Submission(series, ParsePrice(price).value, USD, quote))
      case OtherCurrency(_) => Stop(UnsupportedCurrency)
  }

  /** The decimal denotes this amount, in ten-thousandths, within the bound of prices. */
  predicate Denotes(price: Decimal, u: Amount) {
    0 < u <= MAX_AMOUNT && u * Pow10(price.scale) == price.coefficient * SCALE_UNIT
  }

  lemma DenotesOnce(price: Decimal)
    ensures ParsePrice(price).Some? <==> exists u :: Denotes(price, u)
    ensures forall u :: Denotes(price, u) <==> ParsePrice(price) == Some(u)
  {
    forall u ensures Denotes(price, u) <==> ParsePrice(price) == Some(u) {
      ParsePriceExact(price, u);
    }
    if ParsePrice(price).Some? {
      assert Denotes(price, ParsePrice(price).value);
    }
  }

  /**
  Exactly which submissions pass, and as what: those whose price denotes an amount
  and that are MXN without a quote or USD with one, with that very amount,
  series, currency and quote. Each refusal has its own exact condition, the
  price being looked at first.
   */
  lemma GateExactly(series: string, price: Decimal, currency: Currency, quote: Option<Uuid>)
    ensures var g := GateSubmission(series, price, currency, quote);
            && (forall x :: g == Pass(x) <==>
                  && Denotes(price, x.price) && x.series == series && x.currency == currency && x.quote == quote
                  && ((currency == MXN && quote.None?) || (currency == USD && quote.Some?)))
            && (g == Stop(GateInvalidPrice) <==> !exists u :: Denotes(price, u))
            && (g == Stop(QuoteNotAllowed) <==> (exists u :: Denotes(price, u)) && currency == MXN && quote.Some?)
            && (g == Stop(QuoteRequired) <==> (exists u :: Denotes(price, u)) && currency == USD && quote.None?)
            && (g == Stop(UnsupportedCurrency) <==>
                (exists u :: Denotes(price, u)) && currency != MXN && currency != USD)
  {
    DenotesOnce(price);
    var g := GateSubmission(series, price, currency, quote);
    forall x ensures g == Pass(x) <==>
                       && Denotes(price, x.price) && x.series == series && x.currency == currency && x.quote == quote
                       && ((currency == MXN && quote.None?) || (currency == USD && quote.Some?))
    {
      assert x == Submission(x.series, x.price, x.currency, x.quote);
    }
  }

  /**
  End to end: an offer committed from a submission that passed is, in every
  continuation, of the bond series submitted, and published at the amount the
  price denotes if that was in MXN, at the price of the quote named otherwise.
   */
  lemma PassedSubmissionIsPublished(
    series: string, price: Decimal, currency: Currency, quote: Option<Uuid>, u: Amount,
    s: LedgerRuns.Sys, es: seq<LedgerRuns.Event>, fs: seq<LedgerRuns.Event>, k: LedgerRuns.Commit)
    requires LedgerRuns.Init(s) && k in LedgerRuns.Run(s, es).done && k.writes.fact.NewOffer?
    requires GateSubmission(series, price, currency, quote).Pass? && Denotes(price, u)
    requires k.mutation.request == Submit(GateSubmission(series, price, currency, quote).submission)
    ensures var d, o := LedgerRuns.Run(s, es + fs).db, k.writes.fact.id;
            && o in d.market.offers && o in d.market.terms
            && d.market.offers[o].seller == k.mutation.principal
            && d.market.offers[o].bond in d.catalog.bonds && d.catalog.bonds[d.market.offers[o].bond] == series
            && (currency == MXN ==> d.market.terms[o] == u)
            && (currency == USD ==>
                  && quote.Some? && quote.value in d.market.quotes && d.market.quotes[quote.value].submitted == u
                  && d.market.terms[o] == d.market.quotes[quote.value].canonical)
            && k.reply == OfferReply(OfferView(o, k.mutation.principal, series, d.market.terms[o]))
  {
    GateExactly(series, price, currency, quote);
    DenotesOnce(price);
    LedgerAnswers.RepliesShowTheTables(s, es, fs, k);
    PublishedTerms(s, es + fs, k.writes.fact.id);
    PublishedAnew(s, es, fs, k);
  }

  /** The terms of an offer of the run, from its submission. */
  lemma PublishedTerms(s: LedgerRuns.Sys, es: seq<LedgerRuns.Event>, o: Uuid)
    requires LedgerRuns.Init(s)
    ensures var m := LedgerRuns.Run(s, es).db.market;
            o in m.offers && o !in s.origin.offers ==>
              && o in m.terms && o in m.submissions
              && var sub := m.submissions[o];
              && (sub.currency == MXN ==> m.terms[o] == sub.price)
              && (sub.currency == USD ==>
                    && sub.quote.Some? && sub.quote.value in m.quotes
                    && m.quotes[sub.quote.value].submitted == sub.price
                    && m.terms[o] == m.quotes[sub.quote.value].canonical)
  {
    LedgerTheorems.QuotesAreSingleUse(s, es);
  }

  lemma PublishedAnew(
    s: LedgerRuns.Sys, es: seq<LedgerRuns.Event>, fs: seq<LedgerRuns.Event>, k: LedgerRuns.Commit)
    requires LedgerRuns.Init(s) && k in LedgerRuns.Run(s, es).done && k.writes.fact.NewOffer?
    ensures k.writes.fact.id !in s.origin.offers && k.writes.fact.id in LedgerRuns.Run(s, es + fs).db.market.offers
  {
    LedgerTheorems.RunExtends(s, es, fs);
    LedgerAnswers.NewOffersAreNew(s, es + fs, k);
  }

  lemma QuotesArePositive(s: LedgerRuns.Sys, es: seq<LedgerRuns.Event>)
    requires LedgerRuns.Init(s)
    ensures var m := LedgerRuns.Run(s, es).db.market; forall q | q in m.quotes :: m.quotes[q].canonical > 0
  {
    LedgerHistory.RunKeepsAll(s, es);
    var r := LedgerRuns.Run(s, es);
    assert forall q | q in r.db.market.quotes :: LedgerRuns.QuoteOk(r.db, q);
  }

  /** A submission that passes never faults in the ledger: in every reachable state it is priced, or durably refused. */
  lemma GatedSubmissionsArePriced(
    series: string, price: Decimal, currency: Currency, quote: Option<Uuid>,
    s: LedgerRuns.Sys, es: seq<LedgerRuns.Event>, mu: Mutation, ids: Ids, began: Time, now: Time)
    requires LedgerRuns.Init(s)
    requires GateSubmission(series, price, currency, quote).Pass?
    requires mu.request == Submit(GateSubmission(series, price, currency, quote).submission)
    ensures !AttemptOn(LedgerRuns.Run(s, es).db, mu, ids, began, now).Faulted?
  {
    QuotesArePositive(s, es);
    ParsePriceExact(price, ParsePrice(price).value);
  }
}
