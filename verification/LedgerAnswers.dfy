/**
What callers are told, in the columns of the tables: who may act, when a buy or
a submission succeeds, what a committed reply holds, and why another is refused.
 */
module LedgerAnswers {
  import opened Base
  import opened LedgerTables
  import opened LedgerAttempts
  import opened LedgerRuns
  import opened LedgerHistory
  import opened LedgerTheorems
  import LedgerQuotes
  import LedgerCalls

  // ---- who may act ---------------------------------------------------------

  /** Grant `g` gives `who` a role that grant `h` gives the permission, and neither is revoked. */
  predicate GrantChain(a: Access, who: Uuid, what: Permission, g: Uuid, h: Uuid) {
    && g in a.roleGrants && a.roleGrants[g].principal == who && g !in a.roleRevocations
    && h in a.permissionGrants && h !in a.permissionRevocations
    && a.permissionGrants[h].role == a.roleGrants[g].role && a.permissionGrants[h].permission == what
  }

  /** Suspension `x` of `who` has not been lifted. */
  predicate SuspendedBy(a: Access, who: Uuid, x: Uuid) {
    x in a.suspensions && a.suspensions[x] == who && x !in a.reinstatements
  }

  /** A chain of unrevoked grants, and no suspension that has not been lifted. */
  ghost predicate Entitled(a: Access, who: Uuid, what: Permission) {
    (exists g, h :: GrantChain(a, who, what, g, h)) && !exists x :: SuspendedBy(a, who, x)
  }

  lemma PermittedExactly(a: Access, who: Uuid, what: Permission)
    ensures Permitted(a, who, what) <==> Entitled(a, who, what)
  {
    assert Suspended(a, who) <==> exists x :: SuspendedBy(a, who, x) by {
      forall x | SuspendedBy(a, who, x) ensures Suspended(a, who) {
        assert x in a.suspensions;
      }
      if Suspended(a, who) {
        var x :| x in a.suspensions && a.suspensions[x] == who && x !in a.reinstatements;
        assert SuspendedBy(a, who, x);
      }
    }
    if Permitted(a, who, what) {
      var g :| g in a.roleGrants && a.roleGrants[g].principal == who && g !in a.roleRevocations
               && RoleHolds(a, a.roleGrants[g].role, what);
      var h :| h in a.permissionGrants && a.permissionGrants[h] == PermissionGrant(a.roleGrants[g].role, what)
               && h !in a.permissionRevocations;
      assert GrantChain(a, who, what, g, h);
    }
    if Entitled(a, who, what) {
      var g, h :| GrantChain(a, who, what, g, h);
      assert a.permissionGrants[h] == PermissionGrant(a.roleGrants[g].role, what);
      assert RoleHolds(a, a.roleGrants[g].role, what);
    }
  }

  /** Buying, creating and quoting each need their own permission. */
  function Needed(r: Request): Permission {
    match r
    case Buy(_) => MayBuy
    case Submit(_) => MayCreate
    case Quote(_) => MayQuote
  }

  /** Every commit of every run was made by a principal entitled to it in the commit's own snapshot. */
  lemma EveryCommitWasEntitled(s: Sys, es: seq<Event>, k: Commit)
    requires Init(s) && k in Run(s, es).done
    ensures Entitled(k.snapshot.access, k.mutation.principal, Needed(k.mutation.request))
  {
    RunKeepsAll(s, es);
    assert CommitOk(Run(s, es).db, k);
    PermittedExactly(k.snapshot.access, k.mutation.principal, Needed(k.mutation.request));
  }

  /** In every continuation, until the suspension is lifted, whatever the principal attempts is denied. */
  lemma SuspendedIsDenied(
    s: Sys, es: seq<Event>, fs: seq<Event>, mu: Mutation, x: Uuid, ids: Ids, began: Time, now: Time)
    requires Init(s) && SuspendedBy(Run(s, es).db.access, mu.principal, x)
    requires x !in Run(s, es + fs).db.access.reinstatements
    ensures AttemptOn(Run(s, es + fs).db, mu, ids, began, now) == Denied
  {
    RunExtends(s, es, fs);
    var a := Run(s, es + fs).db.access;
    assert SuspendedBy(a, mu.principal, x);
    PermittedExactly(a, mu.principal, PermissionFor(OperationOf(mu.request)));
  }

  /** Without an unrevoked chain of grants in the snapshot, whatever the principal attempts is denied. */
  lemma UngrantedIsDenied(d: Db, mu: Mutation, ids: Ids, began: Time, now: Time)
    requires !exists g, h :: GrantChain(d.access, mu.principal, Needed(mu.request), g, h)
    ensures AttemptOn(d, mu, ids, began, now) == Denied
  {
    PermittedExactly(d.access, mu.principal, Needed(mu.request));
  }

  // ---- what is a repeat ----------------------------------------------------

  /** The same caller, through the same client, asks for the same kind of thing under the same nonce. */
  predicate SameOperation(a: Mutation, b: Mutation) {
    && a.principal == b.principal && a.client == b.client && a.nonce == b.nonce
    && (a.request.Buy? <==> b.request.Buy?) && (a.request.Submit? <==> b.request.Submit?)
  }

  /**
  In every reachable state an entitled attempt is a repeat exactly when a commit
  was of the same operation: another client, another kind of request or another
  principal may use the nonce as if it were new.
   */
  lemma RepeatsExactly(s: Sys, es: seq<Event>, mu: Mutation, ids: Ids, began: Time, now: Time)
    requires Init(s) && Entitled(Run(s, es).db.access, mu.principal, Needed(mu.request))
    ensures AttemptOn(Run(s, es).db, mu, ids, began, now) == MustReplay <==>
            exists k :: k in Run(s, es).done && SameOperation(k.mutation, mu)
  {
    var r := Run(s, es);
    PermittedExactly(r.db.access, mu.principal, Needed(mu.request));
    if AttemptOn(r.db, mu, ids, began, now) == MustReplay {
      var i := LedgerCalls.CommitOfScope(s, es, mu);
      assert r.done[i] in r.done && SameOperation(r.done[i].mutation, mu);
    }
    if k :| k in r.done && SameOperation(k.mutation, mu) {
      RunKeepsAll(s, es);
      assert CommitOk(r.db, k);
    }
  }

  // ---- when a buy succeeds -------------------------------------------------

  /** The offer exists with canonical terms, and no purchase names it. */
  ghost predicate Unsold(d: Db, offer: Uuid) {
    && offer in d.market.offers && offer in d.market.terms
    && forall p | p in d.market.purchases :: d.market.purchases[p].offer != offer
  }

  function Rejection(mu: Mutation, ids: Ids, code: string): Writes {
    Writes(ids.claim, ClaimOf(mu), Rejected(code), NoFact)
  }

  /**
  In every reachable state a fresh, entitled buy is staged as a sale exactly when
  the offer is unsold and another's; it is recorded as a self-trade exactly when
  the offer is unsold and the caller's own, and as unavailable otherwise.
   */
  lemma BuyOutcomeExactly(s: Sys, es: seq<Event>, mu: Mutation, ids: Ids, began: Time, now: Time)
    requires Init(s) && mu.request.Buy? && !Claimed(Run(s, es).db.market, ScopeOf(mu))
    requires Entitled(Run(s, es).db.access, mu.principal, MayBuy)
    ensures var d, offer := Run(s, es).db, mu.request.offer;
            AttemptOn(d, mu, ids, began, now) == Staged(
              if Unsold(d, offer) && d.market.offers[offer].seller != mu.principal then Sale(mu, ids, began)
              else if Unsold(d, offer) then Rejection(mu, ids, "self_trade_prohibited")
              else Rejection(mu, ids, "offer_unavailable"))
  {
    RunKeepsAll(s, es);
    var d, offer := Run(s, es).db, mu.request.offer;
    PermittedExactly(d.access, mu.principal, MayBuy);
    BuyerIsPrincipal(d, mu.principal);
    assert Unsold(d, offer) <==> offer in d.market.offers && offer in d.market.terms && !Purchased(d.market, offer);
  }

  /** An offer is listed for a principal under a series exactly when it is unsold, another's, and of that series. */
  lemma ListingExactly(d: Db, who: Uuid, series: string, offer: Uuid)
    ensures offer in ActiveOffers(d, who, series) <==>
            && Unsold(d, offer) && d.market.offers[offer].seller != who
            && d.market.offers[offer].bond in d.catalog.bonds && d.catalog.bonds[d.market.offers[offer].bond] == series
  {
    if offer in d.market.offers && offer in d.market.terms {
      assert Unsold(d, offer) <==> !Purchased(d.market, offer);
    }
  }

  // ---- when a submission succeeds ------------------------------------------

  /** The quote is the principal's, of this bond and amount, unexpired, and no submission names it. */
  ghost predicate OwnOpenQuote(d: Db, who: Uuid, x: Submission, q: Uuid, now: Time) {
    && q in d.market.quotes
    && d.market.quotes[q].principal == who && d.market.quotes[q].submitted == x.price
    && d.market.quotes[q].bond in d.catalog.bonds && d.catalog.bonds[d.market.quotes[q].bond] == x.series
    && now < d.market.quotes[q].expiresAt
    && forall o | o in d.market.submissions :: d.market.submissions[o].quote != Some(q)
  }

  ghost predicate SeriesListed(d: Db, series: string) {
    exists b :: b in d.catalog.bonds && d.catalog.bonds[b] == series
  }

  /** The MXN terms the submission would be published at. */
  ghost predicate TermsFor(d: Db, who: Uuid, x: Submission, now: Time, price: Amount) {
    || (x.currency == MXN && x.quote.None? && price == x.price)
    || (x.currency == USD && x.quote.Some? && OwnOpenQuote(d, who, x, x.quote.value, now)
        && price == d.market.quotes[x.quote.value].canonical)
  }

  /** The writes of a published offer. */
  ghost predicate IsPublication(d: Db, mu: Mutation, ids: Ids, began: Time, price: Amount, w: Writes)
    requires mu.request.Submit?
  {
    var x := mu.request.submission;
    && w.claim == ids.claim && w.row == ClaimOf(mu) && w.outcome == Succeeded(ids.fact)
    && w.fact.NewOffer? && w.fact.id == ids.fact
    && w.fact.offer.seller == mu.principal && w.fact.offer.price == price && w.fact.price == price
    && w.fact.offer.bond in d.catalog.bonds && d.catalog.bonds[w.fact.offer.bond] == x.series
    && w.fact.submission == SubmissionRow(x.price, x.currency, x.quote, began)
  }

  /**
  In every reachable state a fresh, entitled submission of a positive amount is
  staged as a publication, free to commit under unused keys, exactly when the
  bond is listed and it is MXN without a quote or USD with its own open quote;
  it is then published at those terms.
   */
  lemma SubmissionOutcomeExactly(s: Sys, es: seq<Event>, mu: Mutation, ids: Ids, began: Time, now: Time)
    requires Init(s) && mu.request.Submit? && mu.request.submission.price > 0
    requires var d := Run(s, es).db;
             && Entitled(d.access, mu.principal, MayCreate) && !Claimed(d.market, ScopeOf(mu))
             && ids.claim !in d.market.claims && ids.fact !in d.market.offers
    ensures var d, x := Run(s, es).db, mu.request.submission;
            var a := AttemptOn(d, mu, ids, began, now);
            && (a.Staged? && a.writes.outcome.Succeeded? <==>
                  SeriesListed(d, x.series) && exists price :: TermsFor(d, mu.principal, x, now, price))
            && (forall price | SeriesListed(d, x.series) && TermsFor(d, mu.principal, x, now, price) ::
                  IsPublication(d, mu, ids, began, price, a.writes) && Committable(d.market, a.writes))
  {
    RunKeepsAll(s, es);
    var d, x := Run(s, es).db, mu.request.submission;
    PermittedExactly(d.access, mu.principal, MayCreate);
    assert SeriesListed(d, x.series) <==> BondListed(d.catalog, x.series);
    TermsExactly(d, mu.principal, x, now);
    if SeriesListed(d, x.series) && CanonicalPrice(d, mu.principal, x, now).Price? {
      assert forall q | q in d.market.quotes :: QuoteOk(d, q);
      PublicationCommits(d, mu, ids, began, now);
    }
  }

  lemma TermsExactly(d: Db, who: Uuid, x: Submission, now: Time)
    ensures forall price :: TermsFor(d, who, x, now, price) <==> CanonicalPrice(d, who, x, now) == Price(price)
    ensures (exists price :: TermsFor(d, who, x, now, price)) <==> CanonicalPrice(d, who, x, now).Price?
  {
    if x.quote.Some? {
      var q := x.quote.value;
      assert QuoteUsed(d.market, q) <==>
             exists o :: o in d.market.submissions && d.market.submissions[o].quote == Some(q);
      assert OwnOpenQuote(d, who, x, q, now) <==> QuoteAcceptable(d, who, x, q, now);
    }
    if CanonicalPrice(d, who, x, now).Price? {
      assert TermsFor(d, who, x, now, CanonicalPrice(d, who, x, now).amount);
    }
  }

  lemma PublicationCommits(d: Db, mu: Mutation, ids: Ids, began: Time, now: Time)
    requires WellFormed(d) && mu.request.Submit? && mu.request.submission.price > 0
    requires Permitted(d.access, mu.principal, MayCreate) && !Claimed(d.market, ScopeOf(mu))
    requires ids.claim !in d.market.claims && ids.fact !in d.market.offers
    requires BondListed(d.catalog, mu.request.submission.series)
    requires forall q | q in d.market.quotes :: d.market.quotes[q].canonical > 0
    requires CanonicalPrice(d, mu.principal, mu.request.submission, now).Price?
    ensures var a := AttemptOn(d, mu, ids, began, now);
            a.Staged? && a.writes.fact.NewOffer? && Committable(d.market, a.writes)
  {
    PublicationIsUnique(d, AttemptOn(d, mu, ids, began, now).writes);
  }

  lemma PublicationIsUnique(d: Db, w: Writes)
    requires WellFormed(d) && w.fact.NewOffer? && w.claim !in d.market.claims && w.fact.id !in d.market.offers
    requires !Claimed(d.market, w.row.scope)
    requires w.fact.submission.quote.Some? ==> !QuoteUsed(d.market, w.fact.submission.quote.value)
    ensures Committable(d.market, w)
  {
    var m, n := d.market, Apply(d.market, w);
    forall c | c in m.claims ensures m.claims[c].scope != w.row.scope {
    }
    forall o | o in m.submissions && w.fact.submission.quote.Some?
      ensures m.submissions[o].quote != w.fact.submission.quote
    {
    }
  }

  // ---- what a committed reply holds ----------------------------------------

  /** The view shows the offer's own key, seller and bond series, and its canonical price. */
  ghost predicate ShowsOffer(d: Db, offer: Uuid, view: OfferView) {
    && offer in d.market.offers && offer in d.market.terms
    && d.market.offers[offer].bond in d.catalog.bonds
    && view.id == offer
    && view.seller == d.market.offers[offer].seller
    && view.series == d.catalog.bonds[d.market.offers[offer].bond]
    && view.price == d.market.terms[offer]
  }

  /** A purchase reply shows the purchase of the offer that was asked for, by and to whom it was made. */
  ghost predicate ShowsPurchase(d: Db, k: Commit) {
    && k.mutation.request.Buy? && k.reply.PurchaseReply?
    && k.reply.id in d.market.purchases
    && d.market.purchases[k.reply.id] == PurchaseRow(k.mutation.request.offer, k.mutation.principal, k.began)
    && k.reply.buyer == k.mutation.principal && k.reply.at == k.began
    && ShowsOffer(d, k.mutation.request.offer, k.reply.offer)
  }

  /** A creation reply shows the offer published from the submission: its seller, its series, its terms. */
  ghost predicate ShowsCreation(d: Db, k: Commit) {
    && k.mutation.request.Submit? && k.reply.OfferReply?
    && ShowsOffer(d, k.reply.offer.id, k.reply.offer)
    && k.reply.offer.seller == k.mutation.principal
    && k.reply.offer.series == k.mutation.request.submission.series
    && k.reply.offer.id in d.market.submissions
    && d.market.submissions[k.reply.offer.id] ==
       SubmissionRow(k.mutation.request.submission.price, k.mutation.request.submission.currency,
                     k.mutation.request.submission.quote, k.began)
  }

  /** A committed quote is the caller's draft, for the bond of its series. */
  ghost predicate HoldsDraft(d: Db, k: Commit, id: Uuid) {
    && k.mutation.request.Quote? && id in d.market.quotes
    && var t, q := k.mutation.request.draft, d.market.quotes[id];
    && q.bond in d.catalog.bonds && d.catalog.bonds[q.bond] == t.series
    && q == QuoteRow(k.mutation.principal, q.bond, t.submitted, t.canonical, t.rate, k.began, t.expiresAt)
  }

  /**
  For every commit of a run and in every continuation: a purchase and a creation
  are answered with what the tables hold of them, column by column, and a quote
  is stored as drafted.
   */
  lemma RepliesShowTheTables(s: Sys, es: seq<Event>, fs: seq<Event>, k: Commit)
    requires Init(s) && k in Run(s, es).done
    ensures var d := Run(s, es + fs).db;
            match k.writes.fact
            case NewPurchase(id, _) => ShowsPurchase(d, k) && k.reply.id == id
            case NewOffer(id, _, _, _) => ShowsCreation(d, k) && k.reply.offer.id == id
            case NewQuote(id, _) => HoldsDraft(d, k, id)
            case NoFact => k.reply.Refusal?
  {
    RunExtends(s, es, fs);
    RunKeepsAll(s, es + fs);
    var d := Run(s, es + fs).db;
    assert k in Run(s, es + fs).done && CommitOk(d, k);
    LedgerQuotes.RecordedOutcome(s, es + fs, k);
    match k.writes.fact
    case NewPurchase(_, _) => PurchaseIsShown(d, k);
    case NewOffer(_, _, _, _) => CreationIsShown(d, k);
    case NewQuote(_, _) => DraftIsHeld(d, k);
    case NoFact => RefusalIsShown(d, k);
  }

  lemma PurchaseIsShown(d: Db, k: Commit)
    requires WellFormed(d) && CommitOk(d, k) && LedgerQuotes.OutcomeIn(d.market, k) && k.writes.fact.NewPurchase?
    ensures ShowsPurchase(d, k) && k.reply.id == k.writes.fact.id
  {
    BuyShape(k);
    var p := k.writes.fact.purchase;
    ReplayOfClaim(d, k.mutation, k.writes.claim);
    assert p.offer in d.market.offers && d.market.offers[p.offer].bond in d.catalog.bonds;
    assert Purchased(d.market, p.offer) by {
      assert d.market.purchases[k.writes.fact.id].offer == p.offer;
    }
    assert PurchaseAt(d.market, p.offer) == k.writes.fact.id;
  }

  lemma BuyShape(k: Commit)
    requires AttemptOn(k.snapshot, k.mutation, k.ids, k.began, k.ran) == Staged(k.writes) && k.writes.fact.NewPurchase?
    ensures k.mutation.request.Buy? && k.writes.outcome == Succeeded(k.mutation.request.offer)
    ensures k.writes.fact.purchase == PurchaseRow(k.mutation.request.offer, k.mutation.principal, k.began)
    ensures k.mutation.request.offer in k.snapshot.market.offers && k.mutation.request.offer in k.snapshot.market.terms
  {
  }

  lemma CreationIsShown(d: Db, k: Commit)
    requires WellFormed(d) && CommitOk(d, k) && LedgerQuotes.OutcomeIn(d.market, k) && k.writes.fact.NewOffer?
    ensures ShowsCreation(d, k) && k.reply.offer.id == k.writes.fact.id
  {
    SubmitShape(k);
    ReplayOfClaim(d, k.mutation, k.writes.claim);
  }

  lemma SubmitShape(k: Commit)
    requires AttemptOn(k.snapshot, k.mutation, k.ids, k.began, k.ran) == Staged(k.writes) && k.writes.fact.NewOffer?
    ensures k.mutation.request.Submit? && k.writes.outcome == Succeeded(k.writes.fact.id)
    ensures k.writes.fact.offer.seller == k.mutation.principal
    ensures k.writes.fact.offer.bond in k.snapshot.catalog.bonds
    ensures k.snapshot.catalog.bonds[k.writes.fact.offer.bond] == k.mutation.request.submission.series
    ensures var x := k.mutation.request.submission;
            k.writes.fact.submission == SubmissionRow(x.price, x.currency, x.quote, k.began)
  {
  }

  lemma DraftIsHeld(d: Db, k: Commit)
    requires CommitOk(d, k) && k.writes.fact.NewQuote?
    ensures HoldsDraft(d, k, k.writes.fact.id)
  {
  }

  lemma RefusalIsShown(d: Db, k: Commit)
    requires WellFormed(d) && CommitOk(d, k) && LedgerQuotes.OutcomeIn(d.market, k) && k.writes.fact.NoFact?
    ensures k.reply.Refusal?
  {
    assert k.writes.outcome.Rejected?;
    ReplayOfClaim(d, k.mutation, k.writes.claim);
  }

  /** An offer committed during the run is none of the older ones. */
  lemma {:induction false} NewOffersAreNew(s: Sys, es: seq<Event>, k: Commit)
    requires Init(s) && k in Run(s, es).done && k.writes.fact.NewOffer?
    ensures k.writes.fact.id !in s.origin.offers && k.writes.fact.id in Run(s, es).db.market.offers
  {
    var prior, e := es[..|es| - 1], es[|es| - 1];
    RunKeepsAll(s, prior);
    if k in Run(s, prior).done {
      NewOffersAreNew(s, prior, k);
      NextGrows(Run(s, prior), e);
    } else {
      NewOfferLands(Run(s, prior), e, k);
    }
  }

  lemma NewOfferLands(q: Sys, e: Event, k: Commit)
    requires MarketGrows(q.origin, q.db.market) && k in Next(q, e).done && k !in q.done && k.writes.fact.NewOffer?
    ensures k.writes.fact.id !in q.origin.offers && k.writes.fact.id in Next(q, e).db.market.offers
  {
    assert e.CommitTxn? && ReadyToCommit(q, e.txn) && k == Landed(q, e.txn);
  }

  // ---- why a commit was a refusal ------------------------------------------

  /** The refusal of a commit that made nothing, in the columns of its snapshot. */
  ghost function Why(k: Commit): Error {
    match k.mutation.request
    case Buy(offer) =>
      if Unsold(k.snapshot, offer) && k.snapshot.market.offers[offer].seller == k.mutation.principal
      then SelfTradeProhibited else OfferUnavailable
    case Submit(x) =>
      if x.currency == USD
         && !(x.quote.Some? && OwnOpenQuote(k.snapshot, k.mutation.principal, x, x.quote.value, k.ran))
      then ConversionQuoteUnavailable else BondNotFound
    case Quote(_) => BondNotFound
  }

  /** The texts that stand in the results table. */
  ghost function RecordedText(why: Error): string {
    match why
    case SelfTradeProhibited => "self_trade_prohibited"
    case ConversionQuoteUnavailable => "conversion_quote_unavailable"
    case BondNotFound => "bond_not_found"
    case _ => "offer_unavailable"
  }

  /** Every committed refusal, and every replay of it, gives exactly its reason, which is on record as text. */
  lemma RefusalsAreExplained(s: Sys, es: seq<Event>, fs: seq<Event>, k: Commit)
    requires Init(s) && k in Run(s, es).done && k.writes.fact.NoFact?
    ensures k.reply == Refusal(Why(k)) && Replay(Run(s, es + fs).db, k.mutation) == Refusal(Why(k))
    ensures var m := Run(s, es + fs).db.market;
            k.writes.claim in m.results && m.results[k.writes.claim] == Rejected(RecordedText(Why(k)))
  {
    RunExtends(s, es, fs);
    RunKeepsAll(s, es + fs);
    var d := Run(s, es + fs).db;
    assert k in Run(s, es + fs).done && CommitOk(d, k);
    LedgerQuotes.RecordedOutcome(s, es + fs, k);
    RefusalIsReplayed(d, k);
  }

  lemma RefusalIsReplayed(d: Db, k: Commit)
    requires WellFormed(d) && CommitOk(d, k) && LedgerQuotes.OutcomeIn(d.market, k) && k.writes.fact.NoFact?
    ensures k.reply == Refusal(Why(k)) && Replay(d, k.mutation) == Refusal(Why(k))
    ensures k.writes.claim in d.market.results
    ensures d.market.results[k.writes.claim] == Rejected(RecordedText(Why(k)))
  {
    RefusalHasReason(k);
    RejectionCodesRoundTrip(Why(k));
    ReplayOfClaim(d, k.mutation, k.writes.claim);
  }

  lemma RefusalHasReason(k: Commit)
    requires AttemptOn(k.snapshot, k.mutation, k.ids, k.began, k.ran) == Staged(k.writes) && k.writes.fact.NoFact?
    ensures SafeCode(Why(k)).Some? && k.writes.outcome == Rejected(SafeCode(Why(k)).value)
  {
    match k.mutation.request
    case Buy(offer) =>
      var d := k.snapshot;
      assert Unsold(d, offer) <==> offer in d.market.offers && offer in d.market.terms && !Purchased(d.market, offer);
    case Submit(x) => TermsExactly(k.snapshot, k.mutation.principal, x, k.ran);
    case Quote(_) =>
  }
}
