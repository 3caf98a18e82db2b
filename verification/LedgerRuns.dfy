/**
Runs of the marketplace database: any number of mutations in flight, each with
its own snapshot and private writes, interleaved with grants, revocations,
suspensions, provisioning and the passing of time. A transaction becomes
visible only at commit, and only when no primary or unique key is violated;
otherwise, and at any moment it likes, it aborts and leaves nothing.
 */
module LedgerRuns {
  import opened Base
  import opened LedgerTables
  import opened LedgerAttempts

  datatype Phase = Open | Executed(ids: Ids, ran: Time, attempt: Attempt)

  datatype Txn = Txn(snapshot: Db, mutation: Mutation, began: Time, phase: Phase)

  // What a committed transaction leaves in the history of the run.
  datatype Commit = Commit(
    mutation: Mutation, snapshot: Db, began: Time, ran: Time, ids: Ids, writes: Writes, reply: Reply)

  datatype Sys = Sys(
    origin: Market,          // the facts older than the run, such as legacy offers
    db: Db,
    now: Time,
    open: map<nat, Txn>,
    done: seq<Commit>)

  datatype Event =
    | Begin(txn: nat, mutation: Mutation)
    | Execute(txn: nat, ids: Ids)
    | CommitTxn(txn: nat)
    | AbortTxn(txn: nat)
    | Administer(access: Access)
    | Provision(catalog: Catalog)
    | Tick(to: Time)

  ghost predicate ReadyToCommit(s: Sys, t: nat) {
    && t in s.open
    && s.open[t].phase.Executed?
    && s.open[t].phase.attempt.Staged?
    && Committable(s.db.market, s.open[t].phase.attempt.writes)
  }

  ghost function Landed(s: Sys, t: nat): Commit
    requires ReadyToCommit(s, t)
  {
    var x := s.open[t];
    var w := x.phase.attempt.writes;
    Commit(x.mutation, x.snapshot, x.began, x.phase.ran, x.phase.ids, w, CommitReply(x.snapshot, s.db, w))
  }

  /** An event that is not enabled changes nothing; a commit that PostgreSQL refuses is an abort. */
  ghost function Next(s: Sys, e: Event): Sys {
    match e
    case Begin(t, mu) =>
      if t in s.open then s else s.(open := s.open[t := Txn(s.db, mu, s.now, Open)])
    case Execute(t, ids) =>
      if t !in s.open || !s.open[t].phase.Open? then s
      else
        var x := s.open[t];
        var attempt := AttemptOn(x.snapshot, x.mutation, ids, x.began, s.now);
        s.(open := s.open[t := x.(phase := Executed(ids, s.now, attempt))])
    case CommitTxn(t) =>
      if ReadyToCommit(s, t) then
        s.(db := s.db.(market := Apply(s.db.market, s.open[t].phase.attempt.writes)),
           open := s.open - {t},
           done := s.done + [Landed(s, t)])
      else s.(open := s.open - {t})
    case AbortTxn(t) =>
      s.(open := s.open - {t})
    case Administer(a) =>
      if AccessGrows(s.db.access, a) && GrantsReferPrincipals(a) then s.(db := s.db.(access := a)) else s
    case Provision(c) =>
      if CatalogGrows(s.db.catalog, c) && UniqueSeries(c) then s.(db := s.db.(catalog := c)) else s
    case Tick(to) =>
      if s.now <= to then s.(now := to) else s
  }

  ghost function Run(s: Sys, es: seq<Event>): Sys {
    if es == [] then s else Next(Run(s, es[..|es| - 1]), es[|es| - 1])
  }

  /** Older facts: referential integrity and the self-trade check hold, and the ledger is empty. */
  ghost predicate OriginOk(d: Db) {
    var m := d.market;
    && Unique(m) && UniqueSeries(d.catalog) && GrantsReferPrincipals(d.access)
    && m.claims == map[] && m.results == map[] && m.quotes == map[] && m.events == {}
    && (forall o | o in m.offers :: m.offers[o].bond in d.catalog.bonds)
    && m.terms.Keys <= m.offers.Keys
    && m.submissions.Keys <= m.offers.Keys
    && (forall p | p in m.purchases :: m.purchases[p].offer in m.offers)
  }

  ghost predicate Init(s: Sys) {
    && s.db.market == s.origin && s.open == map[] && s.done == [] && OriginOk(s.db)
  }

  // ---- the invariant ------------------------------------------------------

  /** Claim `c` is the operation `op` of `who`, and it succeeded with `resource`. */
  ghost predicate Recorded(m: Market, c: Uuid, op: Operation, who: Uuid, resource: Uuid) {
    && c in m.claims && c in m.results
    && m.claims[c].scope.operation == op && m.claims[c].scope.principal == who
    && m.results[c] == Succeeded(resource)
  }

  ghost predicate WellFormed(d: Db) {
    var m := d.market;
    && Unique(m) && UniqueSeries(d.catalog) && GrantsReferPrincipals(d.access)
    && m.claims.Keys == m.results.Keys
    && (forall o | o in m.offers :: m.offers[o].bond in d.catalog.bonds)
    && m.terms.Keys <= m.offers.Keys
    && m.submissions.Keys <= m.offers.Keys
    && (forall p | p in m.purchases :: m.purchases[p].offer in m.offers)
  }

  /** A purchase made during the run: priced in MXN, not a self-trade, and backed by one recorded buy. */
  ghost predicate PurchaseOk(d: Db, p: Uuid)
    requires p in d.market.purchases
  {
    var m, row := d.market, d.market.purchases[p];
    && row.offer in m.offers && row.offer in m.terms
    && m.offers[row.offer].seller != row.buyer
    && row.buyer in d.access.principals
    && PurchaseEvent(p) in m.events
    && exists c :: Recorded(m, c, BuyOperation, row.buyer, row.offer)
  }

  /** Where the MXN terms of an offer come from. */
  ghost predicate Provenance(m: Market, o: Uuid)
    requires o in m.offers && o in m.terms && o in m.submissions
  {
    var sub := m.submissions[o];
    && m.offers[o].price == m.terms[o]
    && m.terms[o] > 0
    && match sub.currency
       case MXN => sub.quote.None? && sub.price == m.terms[o]
       case USD =>
         && sub.quote.Some? && sub.quote.value in m.quotes
         && var q := m.quotes[sub.quote.value];
         && q.principal == m.offers[o].seller && q.bond == m.offers[o].bond
         && q.submitted == sub.price && q.canonical == m.terms[o]
         && sub.at < q.expiresAt
       case OtherCurrency(_) => false
  }

  ghost predicate OfferOk(d: Db, o: Uuid)
    requires o in d.market.offers
  {
    var m := d.market;
    && o in m.terms && o in m.submissions
    && Provenance(m, o)
    && OfferEvent(o) in m.events
    && exists c :: Recorded(m, c, CreateOperation, m.offers[o].seller, o)
  }

  ghost predicate QuoteOk(d: Db, q: Uuid)
    requires q in d.market.quotes
  {
    var row := d.market.quotes[q];
    && row.bond in d.catalog.bonds
    && row.rate in d.catalog.rates
    && RateMatches(d.catalog, row.rate, d.catalog.rates[row.rate].observedOn)
    && row.createdAt < row.expiresAt && row.submitted > 0 && row.canonical > 0
    && exists c :: Recorded(d.market, c, QuoteOperation, row.principal, q)
  }

  /** A recorded success names a fact made during the run by the claiming principal. */
  ghost predicate SuccessOk(o: Market, m: Market, c: Uuid)
    requires c in m.claims && c in m.results && m.results[c].Succeeded?
  {
    var who, r := m.claims[c].scope.principal, m.results[c].resource;
    match m.claims[c].scope.operation
    case BuyOperation =>
      exists p :: p in m.purchases && p !in o.purchases && m.purchases[p].offer == r && m.purchases[p].buyer == who
    case CreateOperation => r in m.offers && r !in o.offers && m.offers[r].seller == who
    case QuoteOperation => r in m.quotes && m.quotes[r].principal == who
  }

  /** No two recorded successes of one operation name the same resource. */
  ghost predicate OneSuccessPerResource(m: Market) {
    forall c, d | c in m.claims && c in m.results && d in m.claims && d in m.results ::
      && m.results[c].Succeeded? && m.results[c] == m.results[d]
      && m.claims[c].scope.operation == m.claims[d].scope.operation
      ==> c == d
  }

  ghost predicate EventOk(o: Market, m: Market, e: EventRef) {
    match e
    case OfferEvent(u) => u in m.offers && u !in o.offers
    case PurchaseEvent(p) => p in m.purchases && p !in o.purchases
  }

  ghost predicate PurchasesOk(o: Market, d: Db) {
    forall p | p in d.market.purchases && p !in o.purchases :: PurchaseOk(d, p)
  }

  ghost predicate OffersOk(o: Market, d: Db) {
    forall u | u in d.market.offers && u !in o.offers :: OfferOk(d, u)
  }

  ghost predicate QuotesOk(d: Db) {
    forall q | q in d.market.quotes :: QuoteOk(d, q)
  }

  ghost predicate SuccessesOk(o: Market, m: Market) {
    forall c | c in m.claims && c in m.results && m.results[c].Succeeded? :: SuccessOk(o, m, c)
  }

  ghost predicate EventsOk(o: Market, m: Market) {
    forall e | e in m.events :: EventOk(o, m, e)
  }

  ghost predicate Ledger(o: Market, d: Db) {
    && WellFormed(d)
    && MarketGrows(o, d.market)
    && PurchasesOk(o, d)
    && OffersOk(o, d)
    && QuotesOk(d)
    && SuccessesOk(o, d.market)
    && OneSuccessPerResource(d.market)
    && EventsOk(o, d.market)
  }

  ghost predicate TxnOk(s: Sys, x: Txn) {
    && Grows(x.snapshot, s.db) && UniqueSeries(x.snapshot.catalog)
    && (forall o | o in x.snapshot.market.offers :: x.snapshot.market.offers[o].bond in x.snapshot.catalog.bonds)
    && x.began <= s.now
    && (x.phase.Executed? ==>
          && x.began <= x.phase.ran <= s.now
          && x.phase.attempt == AttemptOn(x.snapshot, x.mutation, x.phase.ids, x.began, x.phase.ran))
  }

  ghost predicate Inv(s: Sys) {
    && Ledger(s.origin, s.db)
    && (forall t | t in s.open :: TxnOk(s, s.open[t]))
  }

  // ---- commits preserve the ledger ----------------------------------------

  lemma RecordedGrows(m: Market, n: Market, c: Uuid, op: Operation, who: Uuid, r: Uuid)
    requires Recorded(m, c, op, who, r) && MarketGrows(m, n)
    ensures Recorded(n, c, op, who, r)
  {
  }

  /** What staged writes promise about the database `d` they land on. */
  ghost predicate Sound(d: Db, w: Writes) {
    var m, scope := d.market, w.row.scope;
    match w.fact
    case NoFact => w.outcome.Rejected?
    case NewPurchase(_, p) =>
      && scope.operation == BuyOperation && w.outcome == Succeeded(p.offer) && scope.principal == p.buyer
      && p.offer in m.offers && p.offer in m.terms && m.offers[p.offer].seller != p.buyer
      && p.buyer in d.access.principals
    case NewOffer(id, o, price, sub) =>
      && scope.operation == CreateOperation && w.outcome == Succeeded(id) && scope.principal == o.seller
      && o.bond in d.catalog.bonds
      && Provenance(Apply(m, w), id)
    case NewQuote(id, q) =>
      && scope.operation == QuoteOperation && w.outcome == Succeeded(id) && scope.principal == q.principal
      && q.bond in d.catalog.bonds && q.rate in d.catalog.rates
      && RateMatches(d.catalog, q.rate, d.catalog.rates[q.rate].observedOn)
      && q.createdAt < q.expiresAt && q.submitted > 0 && q.canonical > 0
  }

  /** Positive reads of the snapshot still hold where the writes land, because tables only grow. */
  lemma StagedIsSound(d: Db, x: Txn, w: Writes)
    requires Grows(x.snapshot, d) && UniqueSeries(d.catalog)
    requires x.phase.Executed? && x.began <= x.phase.ran
    requires AttemptOn(x.snapshot, x.mutation, x.phase.ids, x.began, x.phase.ran) == Staged(w)
    ensures Sound(d, w)
  {
    match x.mutation.request
    case Buy(_) =>
    case Quote(_) =>
    case Submit(_) =>
  }

  lemma OldPurchaseStaysOk(d: Db, n: Db, p: Uuid)
    requires p in d.market.purchases && PurchaseOk(d, p) && Grows(d, n)
    ensures PurchaseOk(n, p)
  {
    var row := d.market.purchases[p];
    var c :| Recorded(d.market, c, BuyOperation, row.buyer, row.offer);
    RecordedGrows(d.market, n.market, c, BuyOperation, row.buyer, row.offer);
  }

  lemma OldOfferStaysOk(d: Db, n: Db, u: Uuid)
    requires u in d.market.offers && OfferOk(d, u) && Grows(d, n)
    ensures OfferOk(n, u)
  {
    var who := d.market.offers[u].seller;
    var c :| Recorded(d.market, c, CreateOperation, who, u);
    RecordedGrows(d.market, n.market, c, CreateOperation, who, u);
  }

  lemma OldQuoteStaysOk(d: Db, n: Db, q: Uuid)
    requires q in d.market.quotes && QuoteOk(d, q) && Grows(d, n)
    ensures QuoteOk(n, q)
  {
    var who := d.market.quotes[q].principal;
    var c :| Recorded(d.market, c, QuoteOperation, who, q);
    RecordedGrows(d.market, n.market, c, QuoteOperation, who, q);
  }

  ghost function After(d: Db, w: Writes): Db {
    d.(market := Apply(d.market, w))
  }

  lemma LandsWellFormed(d: Db, w: Writes)
    requires WellFormed(d) && Sound(d, w) && Committable(d.market, w)
    ensures WellFormed(After(d, w))
  {
    LandsKeys(d.market, w);
    LandsReferences(d, w);
  }

  lemma LandsReferences(d: Db, w: Writes)
    requires WellFormed(d) && Sound(d, w)
    ensures var n := Apply(d.market, w);
            && (forall o | o in n.offers :: n.offers[o].bond in d.catalog.bonds)
            && (forall p | p in n.purchases :: n.purchases[p].offer in n.offers)
  {
    match w.fact
    case NewPurchase(_, _) =>
    case NewOffer(_, _, _, _) =>
    case _ =>
  }

  lemma LandsKeys(m: Market, w: Writes)
    requires m.claims.Keys == m.results.Keys && m.terms.Keys <= m.offers.Keys && m.submissions.Keys <= m.offers.Keys
    ensures var n := Apply(m, w);
            n.claims.Keys == n.results.Keys && n.terms.Keys <= n.offers.Keys && n.submissions.Keys <= n.offers.Keys
  {
    KeysInsert(m.claims, w.claim, w.row);
    KeysInsert(m.results, w.claim, w.outcome);
    if w.fact.NewOffer? {
      KeysInsert(m.terms, w.fact.id, w.fact.price);
      KeysInsert(m.submissions, w.fact.id, w.fact.submission);
      KeysInsert(m.offers, w.fact.id, w.fact.offer);
    }
  }

  lemma KeysInsert<V>(m: map<Uuid, V>, k: Uuid, v: V)
    ensures m[k := v].Keys == m.Keys + {k}
  {
  }

  lemma LandsPurchases(o: Market, d: Db, w: Writes)
    requires PurchasesOk(o, d) && Sound(d, w) && FreshKeys(d.market, w)
    ensures PurchasesOk(o, After(d, w))
  {
    var n := After(d, w);
    ApplyGrows(d.market, w);
    forall p | p in n.market.purchases && p !in o.purchases ensures PurchaseOk(n, p) {
      if p in d.market.purchases {
        OldPurchaseStaysOk(d, n, p);
      } else {
        var row := n.market.purchases[p];
        assert Recorded(n.market, w.claim, BuyOperation, row.buyer, row.offer);
      }
    }
  }

  lemma LandsOffers(o: Market, d: Db, w: Writes)
    requires OffersOk(o, d) && Sound(d, w) && FreshKeys(d.market, w)
    ensures OffersOk(o, After(d, w))
  {
    var n := After(d, w);
    ApplyGrows(d.market, w);
    forall u | u in n.market.offers && u !in o.offers ensures OfferOk(n, u) {
      if u in d.market.offers {
        OldOfferStaysOk(d, n, u);
      } else {
        assert Recorded(n.market, w.claim, CreateOperation, n.market.offers[u].seller, u);
      }
    }
  }

  lemma LandsQuotes(d: Db, w: Writes)
    requires QuotesOk(d) && Sound(d, w) && FreshKeys(d.market, w)
    ensures QuotesOk(After(d, w))
  {
    var n := After(d, w);
    ApplyGrows(d.market, w);
    forall q | q in n.market.quotes ensures QuoteOk(n, q) {
      if q in d.market.quotes {
        OldQuoteStaysOk(d, n, q);
      } else {
        assert Recorded(n.market, w.claim, QuoteOperation, n.market.quotes[q].principal, q);
      }
    }
  }

  lemma LandsSuccesses(o: Market, d: Db, w: Writes)
    requires SuccessesOk(o, d.market) && Sound(d, w) && FreshKeys(d.market, w) && MarketGrows(o, d.market)
    ensures SuccessesOk(o, Apply(d.market, w))
  {
    var n := Apply(d.market, w);
    ApplyGrows(d.market, w);
    forall c | c in n.claims && c in n.results && n.results[c].Succeeded? ensures SuccessOk(o, n, c) {
      if c == w.claim {
        match w.fact
        case NewPurchase(id, p) =>
          assert id in n.purchases && id !in o.purchases && n.purchases[id].offer == p.offer;
        case NewOffer(_, _, _, _) =>
        case NewQuote(_, _) =>
      } else {
        assert SuccessOk(o, d.market, c);
      }
    }
  }

  /** A second success for a resource would need a second row under a unique key. */
  lemma LandsOneSuccess(o: Market, d: Db, w: Writes)
    requires SuccessesOk(o, d.market) && OneSuccessPerResource(d.market)
    requires Sound(d, w) && Committable(d.market, w)
    ensures OneSuccessPerResource(Apply(d.market, w))
  {
    var m, n := d.market, Apply(d.market, w);
    forall c | c in m.claims && c in m.results && m.results[c].Succeeded?
      ensures m.results[c] != w.outcome || m.claims[c].scope.operation != w.row.scope.operation
    {
      assert SuccessOk(o, m, c);
      if w.fact.NewPurchase? && m.claims[c].scope.operation == BuyOperation {
        var p :| p in m.purchases && p !in o.purchases && m.purchases[p].offer == m.results[c].resource;
        assert n.purchases[p] == m.purchases[p] && n.purchases[w.fact.id] == w.fact.purchase;
      }
    }
  }

  lemma LandsEvents(o: Market, d: Db, w: Writes)
    requires EventsOk(o, d.market) && FreshKeys(d.market, w) && MarketGrows(o, d.market)
    ensures EventsOk(o, Apply(d.market, w))
  {
    ApplyGrows(d.market, w);
    var n := Apply(d.market, w);
    forall e | e in n.events ensures EventOk(o, n, e) {
      assert e in d.market.events ==> EventOk(o, d.market, e);
    }
  }

  lemma LandsLedger(o: Market, d: Db, w: Writes)
    requires Ledger(o, d) && Sound(d, w) && Committable(d.market, w)
    ensures Ledger(o, After(d, w))
  {
    LandsWellFormed(d, w);
    LandsPurchases(o, d, w);
    LandsOffers(o, d, w);
    LandsQuotes(d, w);
    LandsSuccesses(o, d, w);
    LandsOneSuccess(o, d, w);
    LandsEvents(o, d, w);
    assert MarketGrows(o, After(d, w).market) by {
      ApplyGrows(d.market, w);
      MarketGrowsTransitive(o, d.market, After(d, w).market);
    }
  }

  lemma MarketGrowsTransitive(a: Market, b: Market, c: Market)
    requires MarketGrows(a, b) && MarketGrows(b, c)
    ensures MarketGrows(a, c)
  {
  }
}
