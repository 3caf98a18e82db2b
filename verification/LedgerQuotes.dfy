/** Reading quotes back: exactly which committed quotes can be read, and a run that commits one that cannot. */
module LedgerQuotes {
  import opened Base
  import opened Decimals
  import opened LedgerTables
  import opened LedgerAttempts
  import opened LedgerRuns
  import opened LedgerHistory
  import opened LedgerTheorems

  /** What reading quote `q`, stored under `id`, answers in the database `d`. */
  ghost predicate ReadsAs(d: Db, id: Uuid, q: QuoteRow, reply: Reply) {
    && q.rate in d.catalog.rates && q.bond in d.catalog.bonds
    && var r := d.catalog.rates[q.rate];
    reply == if FitsPrice(r.value) then
      QuoteReply(
        id, q.principal, d.catalog.bonds[q.bond], q.submitted, q.canonical, r.value, q.rate, r.observedOn, q.expiresAt)
    else Refusal(InvalidPrice)
  }

  /**
  For every committed quote and in every later state: the ledger records a
  success; the committing call and every retry are answered with the quote if
  and only if its rate fits a price, and otherwise with an invalid price.
   */
  lemma QuoteReadableExactly(s: Sys, es: seq<Event>, fs: seq<Event>, k: Commit)
    requires Init(s) && k in Run(s, es).done && k.writes.fact.NewQuote?
    ensures var d := Run(s, es + fs).db;
            && k.writes.claim in d.market.results && d.market.results[k.writes.claim] == Succeeded(k.writes.fact.id)
            && k.reply == Replay(d, k.mutation)
            && ReadsAs(d, k.writes.fact.id, k.writes.fact.quote, k.reply)
  {
    RunExtends(s, es, fs);
    QuoteCommitReadsAfter(s, es + fs, k);
  }

  lemma QuoteCommitReadsAfter(s: Sys, es: seq<Event>, k: Commit)
    requires Init(s) && k in Run(s, es).done && k.writes.fact.NewQuote?
    ensures var d := Run(s, es).db;
            && k.writes.claim in d.market.results && d.market.results[k.writes.claim] == Succeeded(k.writes.fact.id)
            && k.reply == Replay(d, k.mutation)
            && ReadsAs(d, k.writes.fact.id, k.writes.fact.quote, k.reply)
  {
    RunKeepsAll(s, es);
    RecordedOutcome(s, es, k);
    var d := Run(s, es).db;
    assert CommitOk(d, k);
    QuoteCommitShape(k.snapshot, k);
    QuoteCommitReads(d, k);
  }

  /** The replay of a committed quote is the reading of its row. */
  lemma QuoteCommitReads(d: Db, k: Commit)
    requires WellFormed(d) && QuotesOk(d) && CommitOk(d, k) && k.writes.fact.NewQuote?
    requires k.writes.claim in d.market.results && d.market.results[k.writes.claim] == k.writes.outcome
    ensures ReadsAs(d, k.writes.fact.id, k.writes.fact.quote, k.reply)
  {
    QuoteCommitShape(k.snapshot, k);
    ReplayOfClaim(d, k.mutation, k.writes.claim);
    assert QuoteOk(d, k.writes.fact.id);
    RateReadableExactly(d.catalog.rates[k.writes.fact.quote.rate].value);
  }

  lemma QuoteCommitShape(snapshot: Db, k: Commit)
    requires AttemptOn(snapshot, k.mutation, k.ids, k.began, k.ran) == Staged(k.writes) && k.writes.fact.NewQuote?
    ensures OperationOf(k.mutation.request) == QuoteOperation && k.writes.outcome == Succeeded(k.writes.fact.id)
  {
  }

  /** A committed outcome stays recorded. */
  lemma {:induction false} RecordedOutcome(s: Sys, es: seq<Event>, k: Commit)
    requires Init(s) && k in Run(s, es).done
    ensures OutcomeIn(Run(s, es).db.market, k)
  {
    var prior, e := es[..|es| - 1], es[|es| - 1];
    if k in Run(s, prior).done {
      RecordedOutcome(s, prior, k);
    }
    OutcomeStep(Run(s, prior), e, k);
  }

  ghost predicate OutcomeIn(m: Market, k: Commit) {
    k.writes.claim in m.results && m.results[k.writes.claim] == k.writes.outcome
  }

  lemma OutcomeStep(q: Sys, e: Event, k: Commit)
    requires k in Next(q, e).done && (k in q.done ==> OutcomeIn(q.db.market, k))
    ensures OutcomeIn(Next(q, e).db.market, k)
  {
    if e.CommitTxn? && ReadyToCommit(q, e.txn) {
      OutcomeLands(q.db.market, q.open[e.txn].phase.attempt.writes, k);
    } else {
      assert Next(q, e).db.market == q.db.market && Next(q, e).done == q.done;
    }
  }

  lemma OutcomeLands(m: Market, w: Writes, k: Commit)
    requires w.claim !in m.results && (OutcomeIn(m, k) || k.writes == w)
    ensures OutcomeIn(Apply(m, w), k)
  {
  }

  // ---- a run that commits an unreadable quote ------------------------------

  const SELLER: Uuid := 1

  function Granted(): Access {
    Access({SELLER}, map[2 := RoleGrant(SELLER, 3)], {}, map[4 := PermissionGrant(3, MayQuote)], {}, map[], {})
  }

  function OneBond(): Catalog {
    Catalog(map[5 := "M241205"], map[6 := RateRow(FIX_SERIES, "USD", "MXN", 739000, FIVE_DIGIT_RATE)])
  }

  function NoFacts(): Market {
    Market(map[], map[], map[], map[], map[], map[], map[], {})
  }

  function Start(): Sys {
    Sys(NoFacts(), Db(Granted(), OneBond(), NoFacts()), 0, map[], [])
  }

  // One hundred dollars at 17.12345 pesos.
  function Draft(): QuoteDraft {
    QuoteDraft("M241205", 1_000_000, 17_123_450, 6, 739000, 300_000_000)
  }

  function Asking(): Mutation {
    Mutation(SELLER, "client", 7, 8, Quote(Draft()))
  }

  const IDS := Ids(9, 10)

  lemma StartIsInitial()
    ensures Init(Start())
  {
  }

  lemma DraftIsStaged()
    ensures var a := AttemptOn(Start().db, Asking(), IDS, 0, 0);
            && a.Staged? && a.writes.fact.NewQuote? && a.writes.outcome == Succeeded(10)
            && a.writes.claim == 9 && a.writes.fact.id == 10 && a.writes.fact.quote.rate == 6
            && Committable(NoFacts(), a.writes)
  {
    assert RoleHolds(Granted(), 3, MayQuote) by {
      assert 4 in Granted().permissionGrants;
    }
    assert Permitted(Granted(), SELLER, MayQuote) by {
      assert 2 in Granted().roleGrants && Granted().roleGrants[2].principal == SELLER;
    }
    assert BondListed(OneBond(), "M241205") by {
      assert OneBond().bonds[5] == "M241205";
    }
  }

  lemma RunThen(s: Sys, es: seq<Event>, e: Event)
    ensures Run(s, es + [e]) == Next(Run(s, es), e)
  {
    assert (es + [e])[..|es + [e]| - 1] == es;
  }

  /** The quote is priced and committed as a success, and the very call that committed it cannot read it. */
  lemma UnreadableQuoteCommits() returns (es: seq<Event>, k: Commit)
    ensures Init(Start()) && QuotedPrice(Decimal(100, 0), FIVE_DIGIT_RATE) == Some(Draft().canonical)
    ensures k in Run(Start(), es).done && k.mutation == Asking() && k.writes.fact.NewQuote?
    ensures k.writes.outcome == Succeeded(k.writes.fact.id) && k.reply == Refusal(InvalidPrice)
  {
    StartIsInitial();
    DraftIsStaged();
    FiveDigitRateUnreadable();
    es := [Begin(0, Asking())];
    RunThen(Start(), [], Begin(0, Asking()));
    assert [] + es == es;
    RunThen(Start(), es, Execute(0, IDS));
    es := es + [Execute(0, IDS)];
    RunThen(Start(), es, CommitTxn(0));
    var r := Run(Start(), es);
    assert ReadyToCommit(r, 0);
    k := Landed(r, 0);
    es := es + [CommitTxn(0)];
    assert Run(Start(), es).done == [k];
    assert es + [] == es;
    QuoteReadableExactly(Start(), es, [], k);
  }
}
