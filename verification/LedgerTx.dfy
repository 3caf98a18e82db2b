/**
The mutations as the service writes them: statements executed one after the
other inside a serializable transaction that reads its snapshot and keeps its
inserts private. Each method is proved to stage exactly what the attempt
function of the ledger says, and to leave nothing behind when it rolls back.
 */
module LedgerTx {
  import opened Base
  import opened LedgerTables
  import opened LedgerAttempts

  class Tx {
    const snapshot: Db
    const began: Time
    var claim: Option<Uuid>
    var row: Option<ClaimRow>
    var fact: Fact
    var outcome: Option<Outcome>

    constructor (db: Db, now: Time)
      ensures snapshot == db && began == now && Empty()
    {
      snapshot, began := db, now;
      claim, row, fact, outcome := None, None, NoFact, None;
    }

    /** Nothing has been inserted. */
    predicate Empty()
      reads this
    {
      claim.None? && row.None? && fact.NoFact? && outcome.None?
    }

    /** The private rows are exactly `w`. */
    predicate Holds(w: Writes)
      reads this
    {
      claim == Some(w.claim) && row == Some(w.row) && outcome == Some(w.outcome) && fact == w.fact
    }

    method Rollback()
      modifies this
      ensures Empty()
    {
      claim, row, fact, outcome := None, None, NoFact, None;
    }

    /** INSERT ... ON CONFLICT DO NOTHING RETURNING: inserts unless the snapshot shows the scope taken. */
    method ClaimOperation(mu: Mutation, id: Uuid) returns (claimed: bool)
      requires Empty()
      modifies this
      ensures claimed == !Claimed(snapshot.market, ScopeOf(mu))
      ensures claimed ==> claim == Some(id) && row == Some(ClaimOf(mu)) && fact.NoFact? && outcome.None?
      ensures !claimed ==> Empty()
    {
      claimed := !Claimed(snapshot.market, ScopeOf(mu));
      if claimed {
        claim, row := Some(id), Some(ClaimOf(mu));
      }
    }

    method RecordRejection(e: Error)
      requires SafeCode(e).Some? && outcome.None?
      modifies this`outcome
      ensures outcome == Some(Rejected(SafeCode(e).value))
    {
      outcome := Some(Rejected(SafeCode(e).value));
    }

    method RecordSuccess(resource: Uuid)
      requires outcome.None?
      modifies this`outcome
      ensures outcome == Some(Succeeded(resource))
    {
      outcome := Some(Succeeded(resource));
    }

    method Authorize(mu: Mutation) returns (allowed: bool)
      ensures allowed == Permitted(snapshot.access, mu.principal, PermissionFor(OperationOf(mu.request)))
    {
      allowed := Permitted(snapshot.access, mu.principal, PermissionFor(OperationOf(mu.request)));
    }

    method BuyOnce(mu: Mutation, ids: Ids, now: Time) returns (a: Attempt)
      requires Empty() && mu.request.Buy?
      modifies this
      ensures a == AttemptOn(snapshot, mu, ids, began, now)
      ensures if a.Staged? then Holds(a.writes) else Empty()
    {
      var allowed := Authorize(mu);
      if !allowed {
        return Denied;
      }
      var claimed := ClaimOperation(mu, ids.claim);
      if !claimed {
        return MustReplay;
      }
      var offer := mu.request.offer;
      if Buyable(snapshot, offer, mu.principal) {
        fact := NewPurchase(ids.fact, PurchaseRow(offer, mu.principal, began));
        RecordSuccess(offer);
      } else if OwnAvailableOffer(snapshot, offer, mu.principal) {
        RecordRejection(SelfTradeProhibited);
      } else {
        RecordRejection(OfferUnavailable);
      }
      a := Staged(Writes(claim.value, row.value, outcome.value, fact));
    }

    method CreateConversionQuote(mu: Mutation, ids: Ids, now: Time) returns (a: Attempt)
      requires Empty() && mu.request.Quote? && UniqueSeries(snapshot.catalog)
      modifies this
      ensures a == AttemptOn(snapshot, mu, ids, began, now)
      ensures if a.Staged? then Holds(a.writes) else Empty()
    {
      var allowed := Authorize(mu);
      if !allowed {
        return Denied;
      }
      var claimed := ClaimOperation(mu, ids.claim);
      if !claimed {
        return MustReplay;
      }
      var draft := mu.request.draft;
      if BondListed(snapshot.catalog, draft.series) && RateMatches(snapshot.catalog, draft.rate, draft.observedOn) {
        if draft.submitted <= 0 || draft.canonical <= 0 || draft.expiresAt <= began {
          Rollback();
          return Faulted(StorageFault);
        }
        var bond :| bond in snapshot.catalog.bonds && snapshot.catalog.bonds[bond] == draft.series;
        assert bond == BondOf(snapshot.catalog, draft.series);
        fact := NewQuote(ids.fact,
          QuoteRow(mu.principal, bond, draft.submitted, draft.canonical, draft.rate, began, draft.expiresAt));
        RecordSuccess(ids.fact);
      } else if !BondListed(snapshot.catalog, draft.series) {
        RecordRejection(BondNotFound);
      } else {
        Rollback();
        return Faulted(ExchangeRateUnavailable);
      }
      a := Staged(Writes(claim.value, row.value, outcome.value, fact));
    }

    method CreateSaleOfferFromSubmission(mu: Mutation, ids: Ids, now: Time) returns (a: Attempt)
      requires Empty() && mu.request.Submit? && UniqueSeries(snapshot.catalog)
      modifies this
      ensures a == AttemptOn(snapshot, mu, ids, began, now)
      ensures if a.Staged? then Holds(a.writes) else Empty()
    {
      var allowed := Authorize(mu);
      if !allowed {
        return Denied;
      }
      var claimed := ClaimOperation(mu, ids.claim);
      if !claimed {
        return MustReplay;
      }
      var s := mu.request.submission;
      var canonical := s.price;
      if s.currency == USD {
        if s.quote.None? || !QuoteAcceptable(snapshot, mu.principal, s, s.quote.value, now) {
          RecordRejection(ConversionQuoteUnavailable);
          return Staged(Writes(claim.value, row.value, outcome.value, fact));
        }
        canonical := snapshot.market.quotes[s.quote.value].canonical;
      } else if s.currency != MXN || s.quote.Some? {
        Rollback();
        return Faulted(UnsupportedSubmissionCurrency);
      }
      if BondListed(snapshot.catalog, s.series) {
        if s.price <= 0 || canonical <= 0 {
          Rollback();
          return Faulted(StorageFault);
        }
        var bond :| bond in snapshot.catalog.bonds && snapshot.catalog.bonds[bond] == s.series;
        assert bond == BondOf(snapshot.catalog, s.series);
        fact := NewOffer(ids.fact, OfferRow(mu.principal, bond, canonical), canonical,
                         SubmissionRow(s.price, s.currency, s.quote, began));
        RecordSuccess(ids.fact);
      } else {
        RecordRejection(BondNotFound);
      }
      a := Staged(Writes(claim.value, row.value, outcome.value, fact));
    }

    /** The MXN-only entry point: the currency check constraint on canonical terms aborts anything else. */
    method CreateSaleOfferOnce(mu: Mutation, ids: Ids, now: Time) returns (a: Attempt)
      requires Empty() && mu.request.Submit? && mu.request.submission.quote.None? && UniqueSeries(snapshot.catalog)
      modifies this
      ensures mu.request.submission.currency == MXN ==> a == AttemptOn(snapshot, mu, ids, began, now)
      ensures mu.request.submission.currency != MXN ==> !a.Staged? || a.writes.outcome == Rejected("bond_not_found")
      ensures if a.Staged? then Holds(a.writes) else Empty()
    {
      var allowed := Authorize(mu);
      if !allowed {
        return Denied;
      }
      var claimed := ClaimOperation(mu, ids.claim);
      if !claimed {
        return MustReplay;
      }
      var s := mu.request.submission;
      if !BondListed(snapshot.catalog, s.series) {
        RecordRejection(BondNotFound);
      } else if s.price <= 0 || s.currency != MXN {
        Rollback();
        return Faulted(StorageFault);
      } else {
        var bond :| bond in snapshot.catalog.bonds && snapshot.catalog.bonds[bond] == s.series;
        assert bond == BondOf(snapshot.catalog, s.series);
        fact := NewOffer(ids.fact, OfferRow(mu.principal, bond, s.price), s.price,
                         SubmissionRow(s.price, s.currency, None, began));
        RecordSuccess(ids.fact);
      }
      a := Staged(Writes(claim.value, row.value, outcome.value, fact));
    }
  }

  // ---- retries of one operation -------------------------------------------

  datatype Try<T> = Settled(value: T) | Retryable

  datatype Retried<T> = Done(value: T) | Exhausted | Interrupted

  const MAX_ATTEMPTS := 8

  function Doubled(n: nat): nat {
    if n == 0 then 1 else 2 * Doubled(n - 1)
  }

  /** The milliseconds waited after the first `n` attempts: doubling, from the seventh on no more. */
  function Waited(n: nat): nat {
    if n == 0 then 0 else Waited(n - 1) + Doubled(Min(n - 1, 6))
  }

  lemma LongestWait()
    ensures Waited(MAX_ATTEMPTS) == 191
  {
    assert Waited(1) == 1 && Waited(2) == 3 && Waited(3) == 7 && Waited(4) == 15;
    assert Doubled(4) == 16 && Doubled(5) == 32 && Doubled(6) == 64;
    assert Waited(5) == 31 && Waited(6) == 63 && Waited(7) == 127;
  }

  lemma {:induction false} WaitedGrows(a: nat, b: nat)
    requires a <= b
    ensures Waited(a) <= Waited(b)
    decreases b
  {
    if a < b {
      WaitedGrows(a, b - 1);
    }
  }

  /**
  retryTransaction: `tries` is what successive attempts would return, `waits`
  whether the wait after each would end before the context does. The caller
  gets the first attempt that settles; no attempt is made after it, after a
  wait cut short, or after the eighth.
   */
  method RetryTransaction<T>(tries: seq<Try<T>>, waits: seq<bool>)
    returns (result: Retried<T>, attempts: nat, waited: nat)
    requires |tries| >= MAX_ATTEMPTS && |waits| >= MAX_ATTEMPTS
    ensures 1 <= attempts <= MAX_ATTEMPTS && waited <= 191
    ensures forall i | 0 <= i < attempts - 1 :: tries[i].Retryable? && waits[i]
    ensures match result
            case Done(value) => tries[attempts - 1] == Settled(value) && waited == Waited(attempts - 1)
            case Interrupted => tries[attempts - 1].Retryable? && !waits[attempts - 1] && waited == Waited(attempts - 1)
            case Exhausted =>
              && attempts == MAX_ATTEMPTS && tries[attempts - 1].Retryable?
              && waits[attempts - 1] && waited == Waited(attempts)
  {
    LongestWait();
    attempts, waited := 0, 0;
    while attempts < MAX_ATTEMPTS
      invariant 0 <= attempts <= MAX_ATTEMPTS && waited == Waited(attempts)
      invariant forall i | 0 <= i < attempts :: tries[i].Retryable? && waits[i]
    {
      var outcome := tries[attempts];
      attempts := attempts + 1;
      WaitedGrows(attempts - 1, MAX_ATTEMPTS);
      if outcome.Settled? {
        return Done(outcome.value), attempts, waited;
      }
      if !waits[attempts - 1] {
        return Interrupted, attempts, waited;
      }
      waited := waited + Doubled(Min(attempts - 1, 6));
    }
    return Exhausted, attempts, waited;
  }
}
