/** The promises of the marketplace ledger, over every run. */
module LedgerTheorems {
  import opened Base
  import opened Ordering
  import opened LedgerTables
  import opened LedgerAttempts
  import opened LedgerRuns
  import opened LedgerHistory

  // ---- every snapshot is a state the database was really in ----------------

  ghost predicate WasDb(s: Sys, es: seq<Event>, d: Db) {
    exists i :: 0 <= i <= |es| && Run(s, es[..i]).db == d
  }

  lemma WasDbLater(s: Sys, es: seq<Event>, e: Event, d: Db)
    requires WasDb(s, es, d)
    ensures WasDb(s, es + [e], d)
  {
    var i :| 0 <= i <= |es| && Run(s, es[..i]).db == d;
    assert (es + [e])[..i] == es[..i];
  }

  ghost predicate SnapshotsReal(s: Sys, es: seq<Event>, r: Sys) {
    && (forall t | t in r.open :: WasDb(s, es, r.open[t].snapshot))
    && (forall k | k in r.done :: WasDb(s, es, k.snapshot))
  }

  lemma SnapshotsStep(s: Sys, ds: seq<Event>, e: Event)
    requires SnapshotsReal(s, ds, Run(s, ds))
    ensures SnapshotsReal(s, ds + [e], Next(Run(s, ds), e))
  {
    var q := Run(s, ds);
    var r, es := Next(q, e), ds + [e];
    assert WasDb(s, ds, q.db) by {
      assert ds[..|ds|] == ds;
    }
    forall t | t in r.open ensures WasDb(s, es, r.open[t].snapshot) {
      WasDbLater(s, ds, e, if t in q.open then q.open[t].snapshot else q.db);
    }
    forall k | k in r.done ensures WasDb(s, es, k.snapshot) {
      if k in q.done {
        WasDbLater(s, ds, e, k.snapshot);
      } else {
        WasDbLater(s, ds, e, q.open[e.txn].snapshot);
      }
    }
  }

  lemma {:induction false} SnapshotsAreReal(s: Sys, es: seq<Event>)
    requires Init(s)
    ensures SnapshotsReal(s, es, Run(s, es))
  {
    if es == [] {
    } else {
      var ds, e := es[..|es| - 1], es[|es| - 1];
      assert es == ds + [e];
      SnapshotsAreReal(s, ds);
      SnapshotsStep(s, ds, e);
    }
  }

  lemma CommittedWasPermitted(d: Db, k: Commit)
    requires CommitOk(d, k)
    ensures Permitted(k.snapshot.access, k.mutation.principal, PermissionFor(OperationOf(k.mutation.request)))
    ensures k.writes.fact.NewPurchase? ==>
              k.mutation.request.Buy? && k.writes.fact.purchase.buyer == k.mutation.principal
  {
  }

  /** Commit `k` of the run made the purchase `p`, and its buyer was permitted to in the commit's own snapshot. */
  ghost predicate SoldBy(s: Sys, es: seq<Event>, r: Sys, k: Commit, p: Uuid)
    requires p in r.db.market.purchases
  {
    var row := r.db.market.purchases[p];
    && k in r.done && k.writes.fact == NewPurchase(p, row)
    && k.mutation.principal == row.buyer
    && WasDb(s, es, k.snapshot)
    && Permitted(k.snapshot.access, row.buyer, MayBuy)
  }

  /**
  Whatever buys, publications, quotes, grants, revocations, suspensions and
  aborts are interleaved: an offer is sold at most once, never to its seller,
  only with canonical MXN terms, and the buyer held the buy permission in the
  snapshot of the very transaction that sold it, which is a state the
  database was really in.
   */
  lemma SalesAreExclusiveAndAuthorized(s: Sys, es: seq<Event>)
    requires Init(s)
    ensures var r := Run(s, es); var m := r.db.market;
            && (forall p, q | p in m.purchases && q in m.purchases && m.purchases[p].offer == m.purchases[q].offer ::
                  p == q)
            && (forall p | p in m.purchases && p !in s.origin.purchases ::
                  var row := m.purchases[p];
                  && row.offer in m.offers && row.offer in m.terms
                  && m.offers[row.offer].seller != row.buyer
                  && exists k :: SoldBy(s, es, r, k, p))
  {
    RunKeepsAll(s, es);
    SnapshotsAreReal(s, es);
    var r := Run(s, es);
    forall p | p in r.db.market.purchases && p !in s.origin.purchases
      ensures PurchaseOk(r.db, p)
      ensures exists k :: SoldBy(s, es, r, k, p)
    {
      var k := CommitOfSale(r, p);
      assert SoldBy(s, es, r, k, p);
    }
  }

  lemma CommitOfSale(r: Sys, p: Uuid) returns (k: Commit)
    requires History(r) && p in r.db.market.purchases && p !in r.origin.purchases
    ensures k in r.done && k.writes.fact == NewPurchase(p, r.db.market.purchases[p])
    ensures k.mutation.principal == r.db.market.purchases[p].buyer
    ensures Permitted(k.snapshot.access, r.db.market.purchases[p].buyer, MayBuy)
  {
    k :| k in r.done && MadeSale(k, p);
    assert CommitOk(r.db, k);
    CommittedWasPermitted(r.db, k);
  }

  // ---- ledger and facts ----------------------------------------------------

  /** Exactly one recorded success of `op` names `resource`, and it is `who`'s. */
  ghost predicate OneOperation(m: Market, op: Operation, who: Uuid, resource: Uuid) {
    && (exists c :: Recorded(m, c, op, who, resource))
    && (forall c, d, other | Recorded(m, c, op, who, resource) && Recorded(m, d, op, other, resource) :: c == d)
  }

  lemma OneOperationHolds(m: Market, op: Operation, who: Uuid, resource: Uuid)
    requires OneSuccessPerResource(m) && exists c :: Recorded(m, c, op, who, resource)
    ensures OneOperation(m, op, who, resource)
  {
  }

  ghost predicate EventsMatch(o: Market, m: Market) {
    m.events == (set u | u in m.offers && u !in o.offers :: OfferEvent(u))
                + (set p | p in m.purchases && p !in o.purchases :: PurchaseEvent(p))
  }

  lemma EventsMatchHolds(o: Market, d: Db)
    requires PurchasesOk(o, d) && OffersOk(o, d) && EventsOk(o, d.market)
    ensures EventsMatch(o, d.market)
  {
    var m := d.market;
    forall u | u in m.offers && u !in o.offers ensures OfferEvent(u) in m.events {
      assert OfferOk(d, u);
    }
    forall p | p in m.purchases && p !in o.purchases ensures PurchaseEvent(p) in m.events {
      assert PurchaseOk(d, p);
    }
    forall e | e in m.events
      ensures e in (set u | u in m.offers && u !in o.offers :: OfferEvent(u))
                   + (set p | p in m.purchases && p !in o.purchases :: PurchaseEvent(p))
    {
      assert EventOk(o, m, e);
    }
  }

  lemma FactsHaveOneOperation(o: Market, d: Db)
    requires Ledger(o, d)
    ensures forall p | p in d.market.purchases && p !in o.purchases ::
              OneOperation(d.market, BuyOperation, d.market.purchases[p].buyer, d.market.purchases[p].offer)
    ensures forall u | u in d.market.offers && u !in o.offers ::
              OneOperation(d.market, CreateOperation, d.market.offers[u].seller, u)
    ensures forall q | q in d.market.quotes :: OneOperation(d.market, QuoteOperation, d.market.quotes[q].principal, q)
  {
    var m := d.market;
    forall p | p in m.purchases && p !in o.purchases
      ensures OneOperation(m, BuyOperation, m.purchases[p].buyer, m.purchases[p].offer)
    {
      assert PurchaseOk(d, p);
      OneOperationHolds(m, BuyOperation, m.purchases[p].buyer, m.purchases[p].offer);
    }
    forall u | u in m.offers && u !in o.offers ensures OneOperation(m, CreateOperation, m.offers[u].seller, u) {
      assert OfferOk(d, u);
      OneOperationHolds(m, CreateOperation, m.offers[u].seller, u);
    }
    forall q | q in m.quotes ensures OneOperation(m, QuoteOperation, m.quotes[q].principal, q) {
      assert QuoteOk(d, q);
      OneOperationHolds(m, QuoteOperation, m.quotes[q].principal, q);
    }
  }

  /**
  Claims and results are one to one; every purchase, offer and quote of the run
  is the resource of exactly one recorded success by its own principal and
  every recorded success has its fact; each such offer has its terms row and
  its submission row; and the integration events are exactly one per offer and
  purchase.
   */
  lemma LedgerMatchesFacts(s: Sys, es: seq<Event>)
    requires Init(s)
    ensures var r := Run(s, es); var o, m := s.origin, r.db.market;
            && m.claims.Keys == m.results.Keys
            && (forall p | p in m.purchases && p !in o.purchases ::
                  OneOperation(m, BuyOperation, m.purchases[p].buyer, m.purchases[p].offer))
            && (forall u | u in m.offers && u !in o.offers ::
                  OneOperation(m, CreateOperation, m.offers[u].seller, u) && u in m.terms && u in m.submissions)
            && (forall q | q in m.quotes :: OneOperation(m, QuoteOperation, m.quotes[q].principal, q))
            && SuccessesOk(o, m)
            && EventsMatch(o, m)
  {
    RunKeepsAll(s, es);
    var d := Run(s, es).db;
    FactsHaveOneOperation(s.origin, d);
    EventsMatchHolds(s.origin, d);
    assert forall u | u in d.market.offers && u !in s.origin.offers :: OfferOk(d, u);
  }

  /** The event is a step of transaction `t`. */
  predicate StepOf(e: Event, t: nat) {
    match e
    case Begin(u, _) => u == t
    case Execute(u, _) => u == t
    case CommitTxn(u) => u == t
    case AbortTxn(u) => u == t
    case _ => false
  }

  /** The run without transaction `t`. */
  function Without(es: seq<Event>, t: nat): seq<Event> {
    if es == [] then []
    else
      var prior := Without(es[..|es| - 1], t);
      if StepOf(es[|es| - 1], t) then prior else prior + [es[|es| - 1]]
  }

  /** No commit of transaction `t` succeeds: it aborts, is refused, or never comes to an end. */
  ghost predicate NeverLands(s: Sys, es: seq<Event>, t: nat) {
    es == [] || (NeverLands(s, es[..|es| - 1], t)
                 && (es[|es| - 1] == CommitTxn(t) ==> !ReadyToCommit(Run(s, es[..|es| - 1]), t)))
  }

  /** The two states differ at most in the private state of transaction `t`. */
  ghost predicate SameBut(q: Sys, r: Sys, t: nat) {
    && q.origin == r.origin && q.db == r.db && q.now == r.now && q.done == r.done
    && (forall u | u != t :: (u in q.open <==> u in r.open) && (u in q.open ==> q.open[u] == r.open[u]))
  }

  lemma OwnStepIsPrivate(q: Sys, r: Sys, e: Event, t: nat)
    requires SameBut(q, r, t) && StepOf(e, t) && (e == CommitTxn(t) ==> !ReadyToCommit(q, t))
    ensures SameBut(Next(q, e), r, t)
  {
  }

  lemma OtherStepIsSame(q: Sys, r: Sys, e: Event, t: nat)
    requires SameBut(q, r, t) && !StepOf(e, t)
    ensures SameBut(Next(q, e), Next(r, e), t)
  {
    if e.CommitTxn? {
      assert ReadyToCommit(q, e.txn) <==> ReadyToCommit(r, e.txn);
    }
  }

  /**
  The tables are exactly the older facts plus the writes of the committed
  transactions, in commit order; and a transaction that never commits is
  invisible: the run without it ends in the same tables, clock and history.
   */
  lemma {:induction false} AbortsLeaveNothing(s: Sys, es: seq<Event>, t: nat)
    requires Init(s)
    ensures Run(s, es).db.market == Fold(s.origin, Run(s, es).done)
    ensures NeverLands(s, es, t) ==> SameBut(Run(s, es), Run(s, Without(es, t)), t)
  {
    RunKeepsAll(s, es);
    if es != [] && NeverLands(s, es, t) {
      var prior, e := es[..|es| - 1], es[|es| - 1];
      AbortsLeaveNothing(s, prior, t);
      var kept := Without(prior, t);
      if StepOf(e, t) {
        OwnStepIsPrivate(Run(s, prior), Run(s, kept), e, t);
      } else {
        OtherStepIsSame(Run(s, prior), Run(s, kept), e, t);
        assert (kept + [e])[..|kept + [e]| - 1] == kept;
      }
    }
  }

  // ---- provenance of canonical terms ---------------------------------------

  /** A quote backs at most one submission, and every offer's MXN terms have the provenance its submission claims. */
  lemma QuotesAreSingleUse(s: Sys, es: seq<Event>)
    requires Init(s)
    ensures var r := Run(s, es); var o, m := s.origin, r.db.market;
            && (forall u, v | u in m.submissions && v in m.submissions ::
                  m.submissions[u].quote.Some? && m.submissions[u].quote == m.submissions[v].quote ==> u == v)
            && (forall u | u in m.offers && u !in o.offers ::
                  u in m.terms && u in m.submissions && Provenance(m, u))
            && (forall q | q in m.quotes :: QuoteOk(r.db, q))
  {
    RunKeepsAll(s, es);
    var r := Run(s, es);
    forall u | u in r.db.market.offers && u !in s.origin.offers
      ensures u in r.db.market.terms && u in r.db.market.submissions && Provenance(r.db.market, u)
    {
      assert OfferOk(r.db, u);
    }
  }

  // ---- idempotent retries --------------------------------------------------

  lemma {:induction false} RunExtends(s: Sys, es: seq<Event>, fs: seq<Event>)
    requires Init(s)
    ensures Grows(Run(s, es).db, Run(s, es + fs).db) && Run(s, es).done <= Run(s, es + fs).done
  {
    if fs == [] {
      assert es + fs == es;
    } else {
      var prior, last := fs[..|fs| - 1], fs[|fs| - 1];
      assert (es + fs)[..|es + fs| - 1] == es + prior && (es + fs)[|es + fs| - 1] == last;
      RunExtends(s, es, prior);
      NextGrows(Run(s, es + prior), last);
      GrowsTransitive(Run(s, es).db, Run(s, es + prior).db, Run(s, es + fs).db);
    }
  }

  /**
  Once a scope has committed an outcome, then forever after: a retry that is
  still authorized writes nothing and is answered from the ledger; with the
  original digest it gets the original answer - the same purchase, offer,
  quote or rejection - and with any other digest a conflict.
   */
  lemma RetriesRepeatTheOutcome(
    s: Sys, es: seq<Event>, fs: seq<Event>, k: Commit, mu: Mutation, ids: Ids, began: Time, now: Time)
    requires Init(s) && k in Run(s, es).done && ScopeOf(mu) == ScopeOf(k.mutation)
    ensures var d := Run(s, es + fs).db;
            && (Permitted(d.access, mu.principal, PermissionFor(OperationOf(mu.request))) ==>
                  AttemptOn(d, mu, ids, began, now) == MustReplay)
            && Replay(d, mu) == (if mu.digest == k.mutation.digest then k.reply else Refusal(IdempotencyConflict))
  {
    RunExtends(s, es, fs);
    RunKeepsAll(s, es + fs);
    var r := Run(s, es + fs);
    assert k in r.done && CommitOk(r.db, k);
    assert Claimed(r.db.market, ScopeOf(mu));
    ReplayOfClaim(r.db, mu, k.writes.claim);
    ReplayOfClaim(r.db, k.mutation, k.writes.claim);
  }

  ghost predicate ClaimsDiffer(ks: seq<Commit>) {
    forall i, j | 0 <= i < j < |ks| :: ks[i].writes.claim != ks[j].writes.claim
  }

  lemma {:induction false} CommitsClaimApart(s: Sys, es: seq<Event>)
    requires Init(s)
    ensures ClaimsDiffer(Run(s, es).done)
  {
    if es != [] {
      CommitsClaimApart(s, es[..|es| - 1]);
      RunKeepsAll(s, es[..|es| - 1]);
      ClaimStep(Run(s, es[..|es| - 1]), es[|es| - 1]);
    }
  }

  lemma ClaimStep(q: Sys, e: Event)
    requires ClaimsDiffer(q.done) && forall k | k in q.done :: CommitOk(q.db, k)
    ensures ClaimsDiffer(Next(q, e).done)
  {
    forall i | 0 <= i < |q.done| ensures q.done[i].writes.claim in q.db.market.claims {
      assert q.done[i] in q.done;
    }
  }

  /**
  Even among racing attempts, whatever their digests and snapshots, at most one
  transaction of an idempotency scope ever commits.
   */
  lemma OneCommitPerScope(s: Sys, es: seq<Event>, i: nat, j: nat)
    requires Init(s) && i < j < |Run(s, es).done|
    ensures ScopeOf(Run(s, es).done[i].mutation) != ScopeOf(Run(s, es).done[j].mutation)
  {
    RunKeepsAll(s, es);
    CommitsClaimApart(s, es);
    var r := Run(s, es);
    var k, l := r.done[i], r.done[j];
    assert CommitOk(r.db, k) && CommitOk(r.db, l) && k.writes.claim != l.writes.claim;
  }

  // ---- discovery -----------------------------------------------------------

  /** activeOffersQuery, for one offer. */
  predicate Listed(d: Db, who: Uuid, series: string, offer: Uuid) {
    && offer in d.market.offers && offer in d.market.terms
    && d.market.offers[offer].bond in d.catalog.bonds && d.catalog.bonds[d.market.offers[offer].bond] == series
    && d.market.offers[offer].seller != who
    && !Purchased(d.market, offer)
  }

  function ActiveOffers(d: Db, who: Uuid, series: string): set<Uuid> {
    set offer | offer in d.market.offers && Listed(d, who, series, offer)
  }

  /** activeBondSeriesQuery. */
  ghost function ActiveSeries(d: Db, who: Uuid): seq<string> {
    InOrder(set offer | offer in d.market.offers && d.market.offers[offer].bond in d.catalog.bonds
                        && Listed(d, who, d.catalog.bonds[d.market.offers[offer].bond], offer)
            :: d.catalog.bonds[d.market.offers[offer].bond])
  }

  /** The writes of a successful buy. */
  function Sale(mu: Mutation, ids: Ids, began: Time): Writes
    requires mu.request.Buy?
  {
    Writes(ids.claim, ClaimOf(mu), Succeeded(mu.request.offer),
           NewPurchase(ids.fact, PurchaseRow(mu.request.offer, mu.principal, began)))
  }

  function SelfTradeRejection(mu: Mutation, ids: Ids): Writes {
    Writes(ids.claim, ClaimOf(mu), Rejected("self_trade_prohibited"), NoFact)
  }

  function Unavailability(mu: Mutation, ids: Ids): Writes {
    Writes(ids.claim, ClaimOf(mu), Rejected("offer_unavailable"), NoFact)
  }

  /** An offer is listed for somebody exactly when it is listed for the caller or for somebody else. */
  lemma AnyListing(d: Db, who: Uuid, offer: Uuid)
    ensures (exists series, other :: offer in ActiveOffers(d, other, series)) <==>
            || (exists series :: offer in ActiveOffers(d, who, series))
            || (exists series, other :: other != who && offer in ActiveOffers(d, other, series))
  {
  }

  lemma ListedIffBuyable(d: Db, who: Uuid, offer: Uuid)
    requires WellFormed(d) && who in d.access.principals
    ensures (exists series :: offer in ActiveOffers(d, who, series)) <==> Buyable(d, offer, who)
    ensures (exists series, other :: other != who && offer in ActiveOffers(d, other, series))
            && offer in d.market.offers && d.market.offers[offer].seller == who <==>
            OwnAvailableOffer(d, offer, who)
  {
    if offer in d.market.offers {
      var series := d.catalog.bonds[d.market.offers[offer].bond];
      assert Buyable(d, offer, who) ==> offer in ActiveOffers(d, who, series);
      assert OwnAvailableOffer(d, offer, who) ==> offer in ActiveOffers(d, who + 1, series);
    }
  }

  lemma SaleCommits(m: Market, mu: Mutation, ids: Ids, began: Time)
    requires mu.request.Buy? && Unique(m) && m.claims.Keys == m.results.Keys
    requires !Purchased(m, mu.request.offer) && !Claimed(m, ScopeOf(mu))
    requires ids.claim !in m.claims && ids.fact !in m.purchases
    ensures Committable(m, Sale(mu, ids, began))
  {
  }

  /**
  In every reachable state an offer is listed for a principal exactly when a
  fresh, authorized buy of it by that principal would be staged as a sale and
  be free to commit; a buy that fails is a self-trade exactly when the offer is
  the caller's own and would have been listed for somebody else, and finds the
  offer unavailable exactly when it is listed for nobody.
   */
  lemma DiscoveryAgreesWithBuying(s: Sys, es: seq<Event>, mu: Mutation, ids: Ids, began: Time, now: Time)
    requires Init(s) && mu.request.Buy?
    requires var d := Run(s, es).db;
             && Permitted(d.access, mu.principal, MayBuy) && !Claimed(d.market, ScopeOf(mu))
             && ids.claim !in d.market.claims && ids.fact !in d.market.purchases
    ensures var d := Run(s, es).db;
            var offer := mu.request.offer;
            var attempt := AttemptOn(d, mu, ids, began, now);
            && ((exists series :: offer in ActiveOffers(d, mu.principal, series)) <==>
                attempt == Staged(Sale(mu, ids, began)))
            && (attempt == Staged(Sale(mu, ids, began)) ==> Committable(d.market, Sale(mu, ids, began)))
            && (attempt == Staged(SelfTradeRejection(mu, ids)) <==>
                (exists series, other :: other != mu.principal && offer in ActiveOffers(d, other, series))
                && offer in d.market.offers && d.market.offers[offer].seller == mu.principal)
            && (attempt == Staged(Unavailability(mu, ids)) <==>
                !(exists series, other :: offer in ActiveOffers(d, other, series)))
  {
    AnyListing(Run(s, es).db, mu.principal, mu.request.offer);
    RunKeepsAll(s, es);
    var d := Run(s, es).db;
    BuyerIsPrincipal(d, mu.principal);
    ListedIffBuyable(d, mu.principal, mu.request.offer);
    if Buyable(d, mu.request.offer, mu.principal) {
      SaleCommits(d.market, mu, ids, began);
    }
    assert SafeCode(SelfTradeProhibited) != SafeCode(OfferUnavailable) by {
      RejectionCodesRoundTrip(SelfTradeProhibited);
      RejectionCodesRoundTrip(OfferUnavailable);
    }
  }

  lemma BuyerIsPrincipal(d: Db, who: Uuid)
    requires GrantsReferPrincipals(d.access) && Permitted(d.access, who, MayBuy)
    ensures who in d.access.principals
  {
  }

  /** The series answer is sorted, free of repetitions, and names exactly the series with something to buy. */
  lemma ActiveSeriesExact(d: Db, who: Uuid)
    ensures var r := ActiveSeries(d, who);
            && (forall series :: series in r <==> ActiveOffers(d, who, series) != {})
            && (forall i, j | 0 <= i < j < |r| :: LexLe(r[i], r[j]) && r[i] != r[j])
  {
    var names := set offer | offer in d.market.offers && d.market.offers[offer].bond in d.catalog.bonds
                             && Listed(d, who, d.catalog.bonds[d.market.offers[offer].bond], offer)
                 :: d.catalog.bonds[d.market.offers[offer].bond];
    InOrderExact(names);
    forall series ensures series in names <==> ActiveOffers(d, who, series) != {} {
      if series in names {
        var offer :| offer in d.market.offers && Listed(d, who, series, offer);
        assert offer in ActiveOffers(d, who, series);
      }
      if ActiveOffers(d, who, series) != {} {
        var offer :| offer in ActiveOffers(d, who, series);
      }
    }
  }
}
