/**
The append-only tables behind the marketplace: authorization facts, the
provisioned catalog, offers with their canonical terms and submissions,
conversion quotes, purchases, and the idempotency ledger of claims and results.

A table is a map from its uuid primary key to its rows, except that terms,
submissions and results are keyed by the column their schema declares unique
and not null (the offer, the offer, the claim).
 */
module LedgerTables {
  import opened Base

  datatype Permission = MayBuy | MayCreate | MayQuote | MayList

  datatype Operation = BuyOperation | CreateOperation | QuoteOperation

  datatype RoleGrant = RoleGrant(principal: Uuid, role: Uuid)

  datatype PermissionGrant = PermissionGrant(role: Uuid, permission: Permission)

  datatype Access = Access(
    principals: set<Uuid>,
    roleGrants: map<Uuid, RoleGrant>,
    roleRevocations: set<Uuid>,
    permissionGrants: map<Uuid, PermissionGrant>,
    permissionRevocations: set<Uuid>,
    suspensions: map<Uuid, Uuid>,
    reinstatements: set<Uuid>)

  datatype RateRow = RateRow(series: string, base: string, quote: string, observedOn: int, value: Decimal)

  datatype Catalog = Catalog(bonds: map<Uuid, string>, rates: map<Uuid, RateRow>)

  datatype Currency = MXN | USD | OtherCurrency(code: string)

  datatype OfferRow = OfferRow(seller: Uuid, bond: Uuid, price: Amount)

  datatype SubmissionRow = SubmissionRow(price: Amount, currency: Currency, quote: Option<Uuid>, at: Time)

  datatype QuoteRow = QuoteRow(
    principal: Uuid, bond: Uuid, submitted: Amount, canonical: Amount, rate: Uuid, createdAt: Time, expiresAt: Time)

  datatype PurchaseRow = PurchaseRow(offer: Uuid, buyer: Uuid, at: Time)

  datatype Scope = Scope(principal: Uuid, client: string, operation: Operation, nonce: Uuid)

  datatype ClaimRow = ClaimRow(scope: Scope, digest: nat)

  datatype Outcome = Succeeded(resource: Uuid) | Rejected(code: string)

  datatype EventRef = OfferEvent(offer: Uuid) | PurchaseEvent(purchase: Uuid)

  datatype Market = Market(
    offers: map<Uuid, OfferRow>,
    terms: map<Uuid, Amount>,
    submissions: map<Uuid, SubmissionRow>,
    quotes: map<Uuid, QuoteRow>,
    purchases: map<Uuid, PurchaseRow>,
    claims: map<Uuid, ClaimRow>,
    results: map<Uuid, Outcome>,
    events: set<EventRef>)

  datatype Db = Db(access: Access, catalog: Catalog, market: Market)

  /** The view effective_principal_permissions. */
  predicate Permitted(a: Access, who: Uuid, what: Permission) {
    && (exists g | g in a.roleGrants ::
          && a.roleGrants[g].principal == who
          && g !in a.roleRevocations
          && RoleHolds(a, a.roleGrants[g].role, what))
    && !Suspended(a, who)
  }

  predicate RoleHolds(a: Access, role: Uuid, what: Permission) {
    exists h | h in a.permissionGrants ::
      a.permissionGrants[h] == PermissionGrant(role, what) && h !in a.permissionRevocations
  }

  predicate Suspended(a: Access, who: Uuid) {
    exists s | s in a.suspensions :: a.suspensions[s] == who && s !in a.reinstatements
  }

  predicate Purchased(m: Market, offer: Uuid) {
    exists p | p in m.purchases :: m.purchases[p].offer == offer
  }

  predicate Claimed(m: Market, scope: Scope) {
    exists c | c in m.claims :: m.claims[c].scope == scope
  }

  predicate QuoteUsed(m: Market, quote: Uuid) {
    exists o | o in m.submissions :: m.submissions[o].quote == Some(quote)
  }

  predicate BondListed(catalog: Catalog, series: string) {
    exists b | b in catalog.bonds :: catalog.bonds[b] == series
  }

  /** Every unique key of the market tables that is not already a map key. */
  ghost predicate Unique(m: Market) {
    && (forall p, q | p in m.purchases && q in m.purchases :: m.purchases[p].offer == m.purchases[q].offer ==> p == q)
    && (forall c, d | c in m.claims && d in m.claims :: m.claims[c].scope == m.claims[d].scope ==> c == d)
    && (forall o, u | o in m.submissions && u in m.submissions ::
          m.submissions[o].quote.Some? && m.submissions[o].quote == m.submissions[u].quote ==> o == u)
  }

  /** Bond series are unique natural identifiers. */
  ghost predicate UniqueSeries(catalog: Catalog) {
    forall b, c | b in catalog.bonds && c in catalog.bonds :: catalog.bonds[b] == catalog.bonds[c] ==> b == c
  }

  /** `n` holds every row of `m`, unchanged. */
  ghost predicate Extends<K(!new), V>(m: map<K, V>, n: map<K, V>) {
    forall k | k in m :: k in n && n[k] == m[k]
  }

  ghost predicate MarketGrows(m: Market, n: Market) {
    && Extends(m.offers, n.offers)
    && Extends(m.terms, n.terms)
    && Extends(m.submissions, n.submissions)
    && Extends(m.quotes, n.quotes)
    && Extends(m.purchases, n.purchases)
    && Extends(m.claims, n.claims)
    && Extends(m.results, n.results)
    && m.events <= n.events
  }

  ghost predicate CatalogGrows(c: Catalog, d: Catalog) {
    Extends(c.bonds, d.bonds) && Extends(c.rates, d.rates)
  }

  ghost predicate AccessGrows(a: Access, b: Access) {
    && a.principals <= b.principals
    && Extends(a.roleGrants, b.roleGrants)
    && a.roleRevocations <= b.roleRevocations
    && Extends(a.permissionGrants, b.permissionGrants)
    && a.permissionRevocations <= b.permissionRevocations
    && Extends(a.suspensions, b.suspensions)
    && a.reinstatements <= b.reinstatements
  }

  ghost predicate Grows(d: Db, e: Db) {
    AccessGrows(d.access, e.access) && CatalogGrows(d.catalog, e.catalog) && MarketGrows(d.market, e.market)
  }

  /** Role grants reference provisioned principals. */
  ghost predicate GrantsReferPrincipals(a: Access) {
    forall g | g in a.roleGrants :: a.roleGrants[g].principal in a.principals
  }

  // ---- private writes of one mutation -------------------------------------

  datatype Fact =
    | NoFact
    | NewPurchase(id: Uuid, purchase: PurchaseRow)
    | NewOffer(id: Uuid, offer: OfferRow, price: Amount, submission: SubmissionRow)
    | NewQuote(id: Uuid, quote: QuoteRow)

  datatype Writes = Writes(claim: Uuid, row: ClaimRow, outcome: Outcome, fact: Fact)

  /** What the tables hold once the writes are committed, integration-event trigger included. */
  function Apply(m: Market, w: Writes): Market {
    var n := m.(claims := m.claims[w.claim := w.row], results := m.results[w.claim := w.outcome]);
    match w.fact
    case NoFact => n
    case NewPurchase(id, p) =>
      n.(purchases := n.purchases[id := p], events := n.events + {PurchaseEvent(id)})
    case NewOffer(id, o, price, sub) =>
      n.(offers := n.offers[id := o], terms := n.terms[id := price], submissions := n.submissions[id := sub],
         events := n.events + {OfferEvent(id)})
    case NewQuote(id, q) =>
      n.(quotes := n.quotes[id := q])
  }

  /** The primary keys the writes introduce are unused. */
  predicate FreshKeys(m: Market, w: Writes) {
    && w.claim !in m.claims && w.claim !in m.results
    && match w.fact
       case NoFact => true
       case NewPurchase(id, _) => id !in m.purchases
       case NewOffer(id, _, _, _) => id !in m.offers && id !in m.terms && id !in m.submissions
       case NewQuote(id, _) => id !in m.quotes
  }

  /** PostgreSQL lets the writes commit only when no primary or unique key is violated. */
  ghost predicate Committable(m: Market, w: Writes) {
    FreshKeys(m, w) && Unique(Apply(m, w))
  }

  lemma ApplyGrows(m: Market, w: Writes)
    requires FreshKeys(m, w)
    ensures MarketGrows(m, Apply(m, w))
  {
    ExtendsInsert(m.claims, w.claim, w.row);
    ExtendsInsert(m.results, w.claim, w.outcome);
    match w.fact
    case NoFact =>
    case NewPurchase(id, p) =>
      ExtendsInsert(m.purchases, id, p);
    case NewOffer(id, o, price, sub) =>
      ExtendsInsert(m.offers, id, o);
      ExtendsInsert(m.terms, id, price);
      ExtendsInsert(m.submissions, id, sub);
    case NewQuote(id, q) =>
      ExtendsInsert(m.quotes, id, q);
  }

  lemma ExtendsInsert<V>(m: map<Uuid, V>, k: Uuid, v: V)
    requires k !in m
    ensures Extends(m, m[k := v])
  {
  }

  lemma GrowsTransitive(d: Db, e: Db, f: Db)
    requires Grows(d, e) && Grows(e, f)
    ensures Grows(d, f)
  {
  }
}
