/**
What one attempt at a mutation does against its snapshot: authorize, claim the
idempotency scope, read, insert, record the outcome. An attempt reads only its
own snapshot and writes only private rows; whether those rows become visible
is decided at commit.
 */
module LedgerAttempts {
  import opened Base
  import opened Decimals
  import opened LedgerTables

  datatype Error =
    | PermissionDenied
    | OfferUnavailable
    | SelfTradeProhibited
    | OfferAlreadyExists
    | SellerNotFound
    | BondNotFound
    | ConversionQuoteUnavailable
    | IdempotencyConflict
    | UnsupportedSubmissionCurrency
    | ExchangeRateUnavailable
    | InvalidPrice
    | StorageFault

  /** The stable text a rejection is recorded under; None for errors that are never recorded. */
  function SafeCode(e: Error): Option<string> {
    match e
    case OfferUnavailable => Some("offer_unavailable")
    case SelfTradeProhibited => Some("self_trade_prohibited")
    case OfferAlreadyExists => Some("offer_already_exists")
    case SellerNotFound => Some("seller_not_found")
    case BondNotFound => Some("bond_not_found")
    case ConversionQuoteUnavailable => Some("conversion_quote_unavailable")
    case _ => None
  }

  function ErrorFromCode(code: string): Error {
    if code == "offer_unavailable" then OfferUnavailable
    else if code == "self_trade_prohibited" then SelfTradeProhibited
    else if code == "offer_already_exists" then OfferAlreadyExists
    else if code == "seller_not_found" then SellerNotFound
    else if code == "bond_not_found" then BondNotFound
    else if code == "conversion_quote_unavailable" then ConversionQuoteUnavailable
    else StorageFault
  }

  datatype QuoteDraft = QuoteDraft(
    series: string, submitted: Amount, canonical: Amount, rate: Uuid, observedOn: int, expiresAt: Time)

  datatype Submission = Submission(series: string, price: Amount, currency: Currency, quote: Option<Uuid>)

  datatype Request = Buy(offer: Uuid) | Quote(draft: QuoteDraft) | Submit(submission: Submission)

  datatype Mutation = Mutation(principal: Uuid, client: string, nonce: Uuid, digest: nat, request: Request)

  // The uuids PostgreSQL would generate for the rows of one attempt.
  datatype Ids = Ids(claim: Uuid, fact: Uuid)

  datatype OfferView = OfferView(id: Uuid, seller: Uuid, series: string, price: Amount)

  datatype Reply =
    | PurchaseReply(id: Uuid, offer: OfferView, buyer: Uuid, at: Time)
    | OfferReply(offer: OfferView)
    | QuoteReply(id: Uuid, seller: Uuid, series: string, submitted: Amount, canonical: Amount, rate: Decimal,
                 revision: Uuid, observedOn: int, expiresAt: Time)
    | Refusal(error: Error)

  datatype Attempt =
    | Denied
    | MustReplay
    | Faulted(error: Error)
    | Staged(writes: Writes)

  function OperationOf(r: Request): Operation {
    match r
    case Buy(_) => BuyOperation
    case Quote(_) => QuoteOperation
    case Submit(_) => CreateOperation
  }

  function PermissionFor(op: Operation): Permission {
    match op
    case BuyOperation => MayBuy
    case CreateOperation => MayCreate
    case QuoteOperation => MayQuote
  }

  function ScopeOf(mu: Mutation): Scope {
    Scope(mu.principal, mu.client, OperationOf(mu.request), mu.nonce)
  }

  function ClaimOf(mu: Mutation): ClaimRow {
    ClaimRow(ScopeOf(mu), mu.digest)
  }

  const FIX_SERIES := "SF43718"

  // ---- the queries of each mutation ---------------------------------------

  /** The rows the insert of buyQuery selects: at most one, and only when it does not conflict. */
  predicate Buyable(d: Db, offer: Uuid, buyer: Uuid) {
    && offer in d.market.offers
    && offer in d.market.terms
    && buyer in d.access.principals
    && d.market.offers[offer].seller != buyer
    && !Purchased(d.market, offer)
  }

  /** classifyFailedBuyQuery. */
  predicate OwnAvailableOffer(d: Db, offer: Uuid, buyer: Uuid) {
    && offer in d.market.offers
    && offer in d.market.terms
    && d.market.offers[offer].seller == buyer
    && !Purchased(d.market, offer)
  }

  function FailedBuyError(d: Db, offer: Uuid, buyer: Uuid): Error {
    if OwnAvailableOffer(d, offer, buyer) then SelfTradeProhibited else OfferUnavailable
  }

  /** The quote a USD submission may consume. */
  predicate QuoteAcceptable(d: Db, principal: Uuid, s: Submission, quote: Uuid, now: Time) {
    && quote in d.market.quotes
    && var q := d.market.quotes[quote];
    && q.principal == principal
    && q.bond in d.catalog.bonds && d.catalog.bonds[q.bond] == s.series
    && q.submitted == s.price
    && q.expiresAt > now
    && !QuoteUsed(d.market, quote)
  }

  predicate RateMatches(catalog: Catalog, rate: Uuid, observedOn: int) {
    && rate in catalog.rates
    && var r := catalog.rates[rate];
    && r.series == FIX_SERIES && r.base == "USD" && r.quote == "MXN" && r.observedOn == observedOn
  }

  ghost function BondOf(catalog: Catalog, series: string): (b: Uuid)
    requires BondListed(catalog, series)
    ensures b in catalog.bonds && catalog.bonds[b] == series
  {
    var b :| b in catalog.bonds && catalog.bonds[b] == series; b
  }

  // ---- the attempts -------------------------------------------------------

  function Reject(mu: Mutation, ids: Ids, e: Error): Attempt
    requires SafeCode(e).Some?
  {
    Staged(Writes(ids.claim, ClaimOf(mu), Rejected(SafeCode(e).value), NoFact))
  }

  function Succeed(mu: Mutation, ids: Ids, resource: Uuid, fact: Fact): Attempt {
    Staged(Writes(ids.claim, ClaimOf(mu), Succeeded(resource), fact))
  }

  function BuyWork(d: Db, mu: Mutation, ids: Ids, began: Time): Attempt
    requires mu.request.Buy?
  {
    var offer := mu.request.offer;
    if Buyable(d, offer, mu.principal) then
      Succeed(mu, ids, offer, NewPurchase(ids.fact, PurchaseRow(offer, mu.principal, began)))
    else
      Reject(mu, ids, FailedBuyError(d, offer, mu.principal))
  }

  ghost function QuoteWork(d: Db, mu: Mutation, ids: Ids, began: Time): Attempt
    requires mu.request.Quote?
  {
    var t := mu.request.draft;
    if !BondListed(d.catalog, t.series) then Reject(mu, ids, BondNotFound)
    else if !RateMatches(d.catalog, t.rate, t.observedOn) then Faulted(ExchangeRateUnavailable)
    else if t.submitted <= 0 || t.canonical <= 0 || t.expiresAt <= began then Faulted(StorageFault)
    else
      Succeed(mu, ids, ids.fact, NewQuote(ids.fact,
        QuoteRow(mu.principal, BondOf(d.catalog, t.series), t.submitted, t.canonical, t.rate, began, t.expiresAt)))
  }

  /** The canonical MXN price of a submission, or the error that ends the attempt. */
  datatype Canonical = Price(amount: Amount) | NoQuote | Unsupported

  function CanonicalPrice(d: Db, principal: Uuid, s: Submission, now: Time): Canonical {
    if s.currency == USD then
      if s.quote.Some? && QuoteAcceptable(d, principal, s, s.quote.value, now)
      then Price(d.market.quotes[s.quote.value].canonical)
      else NoQuote
    else if s.currency == MXN && s.quote.None? then Price(s.price)
    else Unsupported
  }

  ghost function SubmitWork(d: Db, mu: Mutation, ids: Ids, began: Time, now: Time): Attempt
    requires mu.request.Submit?
  {
    var s := mu.request.submission;
    match CanonicalPrice(d, mu.principal, s, now)
    case NoQuote => Reject(mu, ids, ConversionQuoteUnavailable)
    case Unsupported => Faulted(UnsupportedSubmissionCurrency)
    case Price(canonical) =>
      if !BondListed(d.catalog, s.series) then Reject(mu, ids, BondNotFound)
      else if s.price <= 0 || canonical <= 0 then Faulted(StorageFault)
      else
        Succeed(mu, ids, ids.fact, NewOffer(ids.fact,
          OfferRow(mu.principal, BondOf(d.catalog, s.series), canonical), canonical,
          SubmissionRow(s.price, s.currency, s.quote, began)))
  }

  ghost function Work(d: Db, mu: Mutation, ids: Ids, began: Time, now: Time): Attempt {
    match mu.request
    case Buy(_) => BuyWork(d, mu, ids, began)
    case Quote(_) => QuoteWork(d, mu, ids, began)
    case Submit(_) => SubmitWork(d, mu, ids, began, now)
  }

  /** One whole attempt over the snapshot `d`. */
  ghost function AttemptOn(d: Db, mu: Mutation, ids: Ids, began: Time, now: Time): Attempt {
    if !Permitted(d.access, mu.principal, PermissionFor(OperationOf(mu.request))) then Denied
    else if Claimed(d.market, ScopeOf(mu)) then MustReplay
    else Work(d, mu, ids, began, now)
  }

  // ---- reading outcomes back ----------------------------------------------

  ghost function ClaimAt(m: Market, scope: Scope): (c: Uuid)
    requires Claimed(m, scope)
    ensures c in m.claims && m.claims[c].scope == scope
  {
    var c :| c in m.claims && m.claims[c].scope == scope; c
  }

  ghost function PurchaseAt(m: Market, offer: Uuid): (p: Uuid)
    requires Purchased(m, offer)
    ensures p in m.purchases && m.purchases[p].offer == offer
  {
    var p :| p in m.purchases && m.purchases[p].offer == offer; p
  }

  ghost function ReadOffer(d: Db, offer: Uuid): Option<OfferView> {
    if offer in d.market.offers && offer in d.market.terms && d.market.offers[offer].bond in d.catalog.bonds then
      var row := d.market.offers[offer];
      Some(OfferView(offer, row.seller, d.catalog.bonds[row.bond], d.market.terms[offer]))
    else None
  }

  ghost function ReadPurchase(d: Db, offer: Uuid): Reply {
    if Purchased(d.market, offer) && ReadOffer(d, offer).Some? then
      var p := PurchaseAt(d.market, offer);
      PurchaseReply(p, ReadOffer(d, offer).value, d.market.purchases[p].buyer, d.market.purchases[p].at)
    else Refusal(StorageFault)
  }

  /** conversionQuoteByIDQuery followed by scanConversionQuote. */
  ghost function ReadQuote(d: Db, quote: Uuid): Reply {
    if quote !in d.market.quotes then Refusal(StorageFault)
    else
      var q := d.market.quotes[quote];
      if q.bond !in d.catalog.bonds || q.rate !in d.catalog.rates then Refusal(StorageFault)
      else
        var r := d.catalog.rates[q.rate];
        if ParsePrice(r.value).None? then Refusal(InvalidPrice)
        else QuoteReply(quote, q.principal, d.catalog.bonds[q.bond], q.submitted, q.canonical, r.value,
                        q.rate, r.observedOn, q.expiresAt)
  }

  ghost function ReadResource(d: Db, op: Operation, resource: Uuid): Reply {
    match op
    case BuyOperation => ReadPurchase(d, resource)
    case QuoteOperation => ReadQuote(d, resource)
    case CreateOperation =>
      var view := ReadOffer(d, resource);
      if view.Some? then OfferReply(view.value) else Refusal(StorageFault)
  }

  /** replayResource followed by the read of the resource it names. */
  ghost function Replay(d: Db, mu: Mutation): Reply {
    var scope := ScopeOf(mu);
    if !Claimed(d.market, scope) then Refusal(StorageFault)
    else
      var c := ClaimAt(d.market, scope);
      if c !in d.market.results then Refusal(StorageFault)
      else if d.market.claims[c].digest != mu.digest then Refusal(IdempotencyConflict)
      else
        match d.market.results[c]
        case Rejected(code) => Refusal(ErrorFromCode(code))
        case Succeeded(resource) => ReadResource(d, OperationOf(mu.request), resource)
  }

  /**
  What the attempt answers its caller when its writes commit and `d` is the
  database it committed on. Buys and creations answer from the RETURNING rows of
  their own insert, quotes re-read the committed row.
   */
  ghost function CommitReply(snapshot: Db, d: Db, w: Writes): Reply {
    match w.outcome
    case Rejected(code) => Refusal(ErrorFromCode(code))
    case Succeeded(resource) =>
      match w.fact
      case NewPurchase(id, p) =>
        if ReadOffer(snapshot, p.offer).Some? then PurchaseReply(id, ReadOffer(snapshot, p.offer).value, p.buyer, p.at)
        else Refusal(StorageFault)
      case NewOffer(id, o, price, _) =>
        if o.bond in snapshot.catalog.bonds
        then OfferReply(OfferView(id, o.seller, snapshot.catalog.bonds[o.bond], price))
        else Refusal(StorageFault)
      case NewQuote(id, _) => ReadQuote(d.(market := Apply(d.market, w)), id)
      case NoFact => Refusal(StorageFault)
  }

  /** Every error recorded durably is replayed as itself. */
  lemma RejectionCodesRoundTrip(e: Error)
    requires SafeCode(e).Some?
    ensures ErrorFromCode(SafeCode(e).value) == e
    ensures e == OfferAlreadyExists ==> SafeCode(e).value == "offer_already_exists"
    ensures e == SellerNotFound ==> SafeCode(e).value == "seller_not_found"
  {
    match e
    case OfferUnavailable =>
    case SelfTradeProhibited =>
    case OfferAlreadyExists =>
    case SellerNotFound =>
    case BondNotFound =>
    case ConversionQuoteUnavailable =>
  }
}
