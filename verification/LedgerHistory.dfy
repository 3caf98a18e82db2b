/**
What holds in every reachable state of the marketplace database, and what a
retry is answered, now and at any later moment.
 */
module LedgerHistory {
  import opened Base
  import opened LedgerTables
  import opened LedgerAttempts
  import opened LedgerRuns

  // ---- the invariant over one step ----------------------------------------

  lemma AccessKeepsLedger(o: Market, d: Db, a: Access)
    requires Ledger(o, d) && AccessGrows(d.access, a) && GrantsReferPrincipals(a)
    ensures Ledger(o, d.(access := a))
  {
    var n := d.(access := a);
    forall p | p in n.market.purchases && p !in o.purchases ensures PurchaseOk(n, p) {
      assert PurchaseOk(d, p);
    }
    forall u | u in n.market.offers && u !in o.offers ensures OfferOk(n, u) {
      assert OfferOk(d, u);
    }
    forall q | q in n.market.quotes ensures QuoteOk(n, q) {
      assert QuoteOk(d, q);
    }
  }

  lemma CatalogKeepsLedger(o: Market, d: Db, c: Catalog)
    requires Ledger(o, d) && CatalogGrows(d.catalog, c) && UniqueSeries(c)
    ensures Ledger(o, d.(catalog := c))
  {
    var n := d.(catalog := c);
    forall p | p in n.market.purchases && p !in o.purchases ensures PurchaseOk(n, p) {
      assert PurchaseOk(d, p);
    }
    forall u | u in n.market.offers && u !in o.offers ensures OfferOk(n, u) {
      assert OfferOk(d, u);
    }
    forall q | q in n.market.quotes ensures QuoteOk(n, q) {
      assert QuoteOk(d, q);
    }
  }

  lemma NextGrows(s: Sys, e: Event)
    ensures Grows(s.db, Next(s, e).db) && s.now <= Next(s, e).now && Next(s, e).origin == s.origin
    ensures s.done <= Next(s, e).done
  {
    GrowsReflexive(s.db);
    if e.CommitTxn? && ReadyToCommit(s, e.txn) {
      ApplyGrows(s.db.market, s.open[e.txn].phase.attempt.writes);
    }
  }

  lemma GrowsReflexive(d: Db)
    ensures AccessGrows(d.access, d.access) && CatalogGrows(d.catalog, d.catalog) && MarketGrows(d.market, d.market)
  {
  }

  lemma OpenTxnStaysOk(s: Sys, n: Sys, x: Txn)
    requires TxnOk(s, x) && Grows(s.db, n.db) && s.now <= n.now
    ensures TxnOk(n, x)
  {
    GrowsTransitive(x.snapshot, s.db, n.db);
  }

  lemma NextKeepsLedger(s: Sys, e: Event)
    requires Inv(s)
    ensures Ledger(s.origin, Next(s, e).db)
  {
    match e
    case CommitTxn(t) =>
      if ReadyToCommit(s, t) {
        var x := s.open[t];
        StagedIsSound(s.db, x, x.phase.attempt.writes);
        LandsLedger(s.origin, s.db, x.phase.attempt.writes);
      }
    case Administer(a) =>
      if AccessGrows(s.db.access, a) && GrantsReferPrincipals(a) {
        AccessKeepsLedger(s.origin, s.db, a);
      }
    case Provision(c) =>
      if CatalogGrows(s.db.catalog, c) && UniqueSeries(c) {
        CatalogKeepsLedger(s.origin, s.db, c);
      }
    case _ =>
  }

  lemma NextKeepsTxns(s: Sys, e: Event, t: nat)
    requires Inv(s) && t in Next(s, e).open
    ensures TxnOk(Next(s, e), Next(s, e).open[t])
  {
    var n := Next(s, e);
    NextGrows(s, e);
    if t in s.open {
      OpenTxnStaysOk(s, n, s.open[t]);
      assert n.open[t] == s.open[t] || (e.Execute? && e.txn == t && s.open[t].phase.Open?);
    } else {
      assert e.Begin? && n.db == s.db && n.open[t] == Txn(s.db, e.mutation, s.now, Open);
      GrowsReflexive(s.db);
    }
  }

  lemma NextKeepsInv(s: Sys, e: Event)
    requires Inv(s)
    ensures Inv(Next(s, e))
  {
    var n := Next(s, e);
    NextGrows(s, e);
    NextKeepsLedger(s, e);
    forall t | t in n.open ensures TxnOk(n, n.open[t]) {
      NextKeepsTxns(s, e, t);
    }
  }

  // ---- answering a retry --------------------------------------------------

  lemma ReadOfferStable(d: Db, e: Db, offer: Uuid)
    requires Grows(d, e) && ReadOffer(d, offer).Some?
    ensures ReadOffer(e, offer) == ReadOffer(d, offer)
  {
  }

  lemma ReadPurchaseStable(d: Db, e: Db, p: Uuid)
    requires Grows(d, e) && Unique(e.market)
    requires p in d.market.purchases && ReadOffer(d, d.market.purchases[p].offer).Some?
    ensures var row := d.market.purchases[p];
            ReadPurchase(e, row.offer) == PurchaseReply(p, ReadOffer(d, row.offer).value, row.buyer, row.at)
  {
    var row := d.market.purchases[p];
    ReadOfferStable(d, e, row.offer);
    assert p in e.market.purchases && e.market.purchases[p] == row;
    assert Purchased(e.market, row.offer);
  }

  lemma ReadQuoteStable(d: Db, e: Db, q: Uuid)
    requires Grows(d, e) && q in d.market.quotes && QuoteOk(d, q)
    ensures ReadQuote(e, q) == ReadQuote(d, q)
  {
  }

  /** What a claimed scope is answered, spelled out for the one claim `c` that holds it. */
  lemma ReplayOfClaim(d: Db, mu: Mutation, c: Uuid)
    requires Unique(d.market) && c in d.market.claims && c in d.market.results
    requires d.market.claims[c].scope == ScopeOf(mu)
    ensures Claimed(d.market, ScopeOf(mu)) && ClaimAt(d.market, ScopeOf(mu)) == c
  {
  }

  lemma BoughtStable(d: Db, e: Db, p: Uuid)
    requires WellFormed(d) && Unique(e.market) && Grows(d, e)
    requires p in d.market.purchases && PurchaseOk(d, p)
    ensures var r := d.market.purchases[p].offer; ReadPurchase(e, r) == ReadPurchase(d, r)
  {
    ReadPurchaseStable(d, d, p);
    ReadPurchaseStable(d, e, p);
  }

  /** The resource of a recorded success reads the same in every later state. */
  lemma ResourceStable(o: Market, d: Db, e: Db, c: Uuid)
    requires WellFormed(d) && PurchasesOk(o, d) && OffersOk(o, d) && QuotesOk(d) && Unique(e.market) && Grows(d, e)
    requires c in d.market.claims && c in d.market.results && d.market.results[c].Succeeded?
    requires SuccessOk(o, d.market, c)
    ensures var op, r := d.market.claims[c].scope.operation, d.market.results[c].resource;
            ReadResource(e, op, r) == ReadResource(d, op, r)
  {
    var r, who := d.market.results[c].resource, d.market.claims[c].scope.principal;
    match d.market.claims[c].scope.operation
    case BuyOperation =>
      var p :| && p in d.market.purchases && p !in o.purchases
               && d.market.purchases[p].offer == r && d.market.purchases[p].buyer == who;
      assert PurchaseOk(d, p);
      BoughtStable(d, e, p);
    case QuoteOperation =>
      assert QuoteOk(d, r);
      ReadQuoteStable(d, e, r);
    case CreateOperation =>
      assert OfferOk(d, r);
      ReadOfferStable(d, e, r);
  }

  /** Once a scope is claimed, its answer is the same in every later state. */
  lemma ReplayStable(o: Market, d: Db, e: Db, mu: Mutation)
    requires Ledger(o, d) && Unique(e.market) && Grows(d, e) && Claimed(d.market, ScopeOf(mu))
    ensures Claimed(e.market, ScopeOf(mu)) && Replay(e, mu) == Replay(d, mu)
  {
    var c := ClaimAt(d.market, ScopeOf(mu));
    assert c in d.market.results && c in e.market.results && e.market.results[c] == d.market.results[c];
    ReplayOfClaim(d, mu, c);
    ReplayOfClaim(e, mu, c);
    if d.market.results[c].Succeeded? {
      ResourceStable(o, d, e, c);
    }
  }

  /** `w` is what `x` staged on its own snapshot, of which `d` is a later state. */
  ghost predicate TxnSound(d: Db, x: Txn, w: Writes) {
    && Grows(x.snapshot, d) && x.phase.Executed? && x.began <= x.phase.ran
    && (forall u | u in x.snapshot.market.offers :: x.snapshot.market.offers[u].bond in x.snapshot.catalog.bonds)
    && AttemptOn(x.snapshot, x.mutation, x.phase.ids, x.began, x.phase.ran) == Staged(w)
  }

  /** The claim row, the outcome and the fact of staged writes belong to the mutation that staged them. */
  lemma StagedShape(x: Txn, w: Writes)
    requires x.phase.Executed?
    requires (forall u | u in x.snapshot.market.offers :: x.snapshot.market.offers[u].bond in x.snapshot.catalog.bonds)
    requires AttemptOn(x.snapshot, x.mutation, x.phase.ids, x.began, x.phase.ran) == Staged(w)
    ensures w.row == ClaimOf(x.mutation)
    ensures match w.fact
            case NoFact => w.outcome.Rejected?
            case NewPurchase(_, p) =>
              && w.row.scope.operation == BuyOperation && w.outcome == Succeeded(p.offer)
              && ReadOffer(x.snapshot, p.offer).Some?
            case NewOffer(id, offer, price, _) =>
              && w.row.scope.operation == CreateOperation && w.outcome == Succeeded(id)
              && offer.bond in x.snapshot.catalog.bonds
            case NewQuote(id, _) => w.row.scope.operation == QuoteOperation && w.outcome == Succeeded(id)
  {
    match x.mutation.request
    case Buy(_) =>
    case Quote(_) =>
    case Submit(_) =>
  }

  /** The answer of the committing call itself is what the ledger replays. */
  lemma CommitAnswersAsReplayed(d: Db, x: Txn, w: Writes)
    requires Unique(Apply(d.market, w)) && TxnSound(d, x, w) && FreshKeys(d.market, w)
    ensures Replay(After(d, w), x.mutation) == CommitReply(x.snapshot, d, w)
  {
    var n := After(d, w);
    assert n.market.claims[w.claim] == w.row && n.market.results[w.claim] == w.outcome;
    StagedShape(x, w);
    ReplayOfClaim(n, x.mutation, w.claim);
    if w.fact.NewPurchase? {
      NewPurchaseReads(d, x.snapshot, w);
    }
  }

  lemma NewPurchaseReads(d: Db, snapshot: Db, w: Writes)
    requires w.fact.NewPurchase? && FreshKeys(d.market, w) && Unique(Apply(d.market, w))
    requires Grows(snapshot, d) && ReadOffer(snapshot, w.fact.purchase.offer).Some?
    ensures var p := w.fact.purchase;
            ReadPurchase(After(d, w), p.offer) ==
            PurchaseReply(w.fact.id, ReadOffer(snapshot, p.offer).value, p.buyer, p.at)
  {
    var n := After(d, w);
    ReadOfferStable(snapshot, n, w.fact.purchase.offer);
    ReadPurchaseStable(n, n, w.fact.id);
  }

  // ---- the history of a run -----------------------------------------------

  ghost function Fold(m: Market, ks: seq<Commit>): Market {
    if ks == [] then m else Apply(Fold(m, ks[..|ks| - 1]), ks[|ks| - 1].writes)
  }

  /** The rows of a fact are in the tables. */
  ghost predicate FactIn(m: Market, f: Fact) {
    match f
    case NoFact => true
    case NewPurchase(id, p) => id in m.purchases && m.purchases[id] == p
    case NewOffer(id, o, price, sub) =>
      && id in m.offers && m.offers[id] == o && id in m.terms && m.terms[id] == price
      && id in m.submissions && m.submissions[id] == sub
    case NewQuote(id, q) => id in m.quotes && m.quotes[id] == q
  }

  ghost predicate CommitOk(d: Db, k: Commit) {
    && Grows(k.snapshot, d)
    && AttemptOn(k.snapshot, k.mutation, k.ids, k.began, k.ran) == Staged(k.writes)
    && k.writes.claim in d.market.claims && d.market.claims[k.writes.claim] == ClaimOf(k.mutation)
    && FactIn(d.market, k.writes.fact)
    && k.reply == Replay(d, k.mutation)
  }

  ghost predicate History(s: Sys) {
    && s.db.market == Fold(s.origin, s.done)
    && (forall k | k in s.done :: CommitOk(s.db, k))
    && (forall p | p in s.db.market.purchases && p !in s.origin.purchases :: SoldDuring(s.done, p))
  }

  ghost predicate SoldDuring(ks: seq<Commit>, p: Uuid) {
    exists k :: k in ks && MadeSale(k, p)
  }

  ghost predicate MadeSale(k: Commit, p: Uuid) {
    k.writes.fact.NewPurchase? && k.writes.fact.id == p
  }

  lemma OldCommitStaysOk(o: Market, d: Db, e: Db, k: Commit)
    requires Ledger(o, d) && Ledger(o, e) && Grows(d, e) && CommitOk(d, k)
    ensures CommitOk(e, k)
  {
    GrowsTransitive(k.snapshot, d, e);
    assert Claimed(d.market, ScopeOf(k.mutation));
    ReplayStable(o, d, e, k.mutation);
  }

  lemma CommitsStayOk(o: Market, d: Db, e: Db, ks: seq<Commit>)
    requires Ledger(o, d) && Ledger(o, e) && Grows(d, e) && forall k | k in ks :: CommitOk(d, k)
    ensures forall k | k in ks :: CommitOk(e, k)
  {
    forall k | k in ks ensures CommitOk(e, k) {
      OldCommitStaysOk(o, d, e, k);
    }
  }

  lemma NewCommitOk(d: Db, x: Txn, w: Writes)
    requires Unique(Apply(d.market, w)) && TxnSound(d, x, w) && FreshKeys(d.market, w)
    ensures CommitOk(After(d, w),
                     Commit(
                       x.mutation, x.snapshot, x.began, x.phase.ran, x.phase.ids, w, CommitReply(x.snapshot, d, w)))
  {
    ApplyGrows(d.market, w);
    GrowsTransitive(x.snapshot, d, After(d, w));
    StagedShape(x, w);
    CommitAnswersAsReplayed(d, x, w);
  }

  lemma EarlierCommitsStayOk(s: Sys, e: Event)
    requires Inv(s) && History(s)
    ensures forall k | k in s.done :: CommitOk(Next(s, e).db, k)
  {
    NextGrows(s, e);
    NextKeepsLedger(s, e);
    CommitsStayOk(s.origin, s.db, Next(s, e).db, s.done);
  }

  lemma NextKeepsHistory(s: Sys, e: Event)
    requires Inv(s) && History(s)
    ensures History(Next(s, e))
  {
    var n := Next(s, e);
    EarlierCommitsStayOk(s, e);
    if e.CommitTxn? && ReadyToCommit(s, e.txn) {
      CommitKeepsHistory(s, e.txn);
    } else {
      QuietStep(s, e);
      HistoryStays(s, n);
    }
  }

  /** Only a commit that lands changes the market or the history. */
  lemma QuietStep(s: Sys, e: Event)
    requires !(e.CommitTxn? && ReadyToCommit(s, e.txn))
    ensures var n := Next(s, e); n.done == s.done && n.db.market == s.db.market && n.origin == s.origin
  {
  }

  lemma HistoryStays(s: Sys, n: Sys)
    requires History(s) && n.done == s.done && n.db.market == s.db.market && n.origin == s.origin
    requires forall k | k in s.done :: CommitOk(n.db, k)
    ensures History(n)
  {
  }

  lemma CommitKeepsHistory(s: Sys, t: nat)
    requires Inv(s) && History(s) && ReadyToCommit(s, t)
    requires forall k | k in s.done :: CommitOk(Next(s, CommitTxn(t)).db, k)
    ensures History(Next(s, CommitTxn(t)))
  {
    var w := s.open[t].phase.attempt.writes;
    assert TxnOk(s, s.open[t]);
    NewCommitOk(s.db, s.open[t], w);
    CommitsMore(Next(s, CommitTxn(t)).db, s.done, Landed(s, t));
    FoldAppends(s.origin, s.done, Landed(s, t));
    SalesStayRecorded(s.origin, s.db.market, s.done, Landed(s, t));
  }

  lemma CommitsMore(d: Db, ks: seq<Commit>, k: Commit)
    requires CommitOk(d, k) && forall j | j in ks :: CommitOk(d, j)
    ensures forall j | j in ks + [k] :: CommitOk(d, j)
  {
  }

  lemma SalesStayRecorded(o: Market, m: Market, ks: seq<Commit>, k: Commit)
    requires forall p | p in m.purchases && p !in o.purchases :: SoldDuring(ks, p)
    ensures forall p | p in Apply(m, k.writes).purchases && p !in o.purchases :: SoldDuring(ks + [k], p)
  {
    forall p | p in Apply(m, k.writes).purchases && p !in o.purchases ensures SoldDuring(ks + [k], p) {
      if p in m.purchases {
        SoldEarlier(ks, k, p);
      } else {
        assert k in ks + [k] && MadeSale(k, p);
      }
    }
  }

  lemma FoldAppends(m: Market, ks: seq<Commit>, k: Commit)
    ensures Fold(m, ks + [k]) == Apply(Fold(m, ks), k.writes)
  {
    assert (ks + [k])[..|ks + [k]| - 1] == ks;
  }

  lemma SoldEarlier(ks: seq<Commit>, k: Commit, p: Uuid)
    requires SoldDuring(ks, p)
    ensures SoldDuring(ks + [k], p)
  {
    var j :| j in ks && MadeSale(j, p);
    assert j in ks + [k];
  }

  lemma {:induction false} RunKeepsAll(s: Sys, es: seq<Event>)
    requires Init(s)
    ensures var r := Run(s, es); Inv(r) && History(r) && r.origin == s.origin
  {
    if es == [] {
    } else {
      var prior := Run(s, es[..|es| - 1]);
      RunKeepsAll(s, es[..|es| - 1]);
      NextKeepsInv(prior, es[|es| - 1]);
      NextKeepsHistory(prior, es[|es| - 1]);
      NextGrows(prior, es[|es| - 1]);
    }
  }
}
