/**
The fetch workflow under a lease: claim units, ask the provider batch by
batch, complete or release. Other server instances run their own transactions
between any two statements. Any store call may fail, before it takes effect
or, its acknowledgement being lost, after.
 */
module RateService {
  import opened Base
  import opened RateTypes
  import opened RateRows
  import opened RateCache
  import opened RateTheorems
  import opened RateStory
  import opened RateStore
  import opened Batching
  import opened RateWork
  import Ordering
  import opened RateProgress

  datatype Failure =
    | StoreFailed
    | ProviderFailed
    | RateLimited(retryAt: Time)
    | LeaseLost
    | ColdFetchInProgress
    | ContextDone

  /** The provider may not be called before `until`. */
  predicate BlockedFor(blocked: Option<Time>, until: Time) {
    blocked.Some? && blocked.value >= until
  }

  /** A block is never shortened. */
  predicate BlockGrows(a: Option<Time>, b: Option<Time>) {
    a.Some? ==> BlockedFor(b, a.value)
  }

  predicate FromProvider(f: Failure) {
    f.ProviderFailed? || f.RateLimited?
  }

  // `answering` is not configured but found: the provider answers whatever passes the client's checks.
  datatype Config = Config(leaseFor: int, retryAfter: int, lookback: nat, answering: bool)

  /** The store agrees with the provider, and its story is told up to now. */
  ghost predicate Live(p: Provider, store: Store)
    reads store
  {
    Inv(p, store.View()) && store.Valid()
  }

  // ---- the provider --------------------------------------------------------

  /** The response holds only the provider's own values, and for a range all of them. */
  ghost predicate Answers(p: Provider, batch: seq<Unit>, obs: seq<ProviderObservation>)
    requires batch != []
  {
    var req := RequestForBatch(batch);
    && (forall o | o in obs :: p(o.id, o.date) == Some(o.value))
    && (req.kind.FetchRange? ==>
          forall u, d | u in batch && req.from <= d <= req.to && p(u.series.id, d).Some? ::
            ProviderObservation(u.series.id, d, p(u.series.id, d).value) in obs)
  }

  /** Everything the provider holds for one series between two days. */
  method Collect(p: Provider, id: string, from: Day, to: Day) returns (obs: seq<ProviderObservation>)
    ensures forall o | o in obs :: o.id == id && p(id, o.date) == Some(o.value) && from <= o.date <= to
    ensures forall d | from <= d <= to && p(id, d).Some? :: ProviderObservation(id, d, p(id, d).value) in obs
  {
    obs := [];
    var d := from;
    while d <= to
      invariant forall o | o in obs :: o.id == id && p(id, o.date) == Some(o.value) && from <= o.date <= to
      invariant forall e | from <= e < d && p(id, e).Some? :: ProviderObservation(id, e, p(id, e).value) in obs
    {
      if p(id, d).Some? {
        obs := obs + [ProviderObservation(id, d, p(id, d).value)];
      }
      d := d + 1;
    }
  }

  /** The values of the first `n` series of the batch that the provider published in the window. */
  ghost predicate InWindow(p: Provider, batch: seq<Unit>, n: nat, from: Day, to: Day, obs: seq<ProviderObservation>)
    requires n <= |batch|
  {
    forall j, d | 0 <= j < n && from <= d <= to && p(batch[j].series.id, d).Some? ::
      ProviderObservation(batch[j].series.id, d, p(batch[j].series.id, d).value) in obs
  }

  /** One provider call: refused requests fail, any other may fail, and an answer is the provider's own. */
  method Fetch(p: Provider, batch: seq<Unit>, today: Day, lookback: nat, answering: bool)
    returns (failure: Option<Failure>, obs: seq<ProviderObservation>)
    requires BatchOk(batch)
    ensures failure.None? ==> RequestOk(RequestForBatch(batch)) && Answers(p, batch, obs) && Within(batch, obs)
    ensures failure.None? && RequestForBatch(batch).kind.FetchLatest? ==>
              InWindow(p, batch, |batch|, today - lookback, today, obs)
    ensures failure.Some? ==> FromProvider(failure.value)
    ensures answering && RequestOk(RequestForBatch(batch)) ==> failure.None?
  {
    obs := [];
    var req := RequestForBatch(batch);
    var ok, _ := CheckRequest(req);
    if !ok {
      return Some(ProviderFailed), [];
    }
    if !answering {
      if * {
        return Some(ProviderFailed), [];
      }
      if * {
        var retryAt: Time := *;
        return Some(RateLimited(retryAt)), [];
      }
    }
    for i := 0 to |batch|
      invariant forall o | o in obs :: p(o.id, o.date) == Some(o.value)
      invariant Within(batch, obs)
      invariant req.kind.FetchRange? ==> InWindow(p, batch, i, req.from, req.to, obs)
      invariant req.kind.FetchLatest? ==> InWindow(p, batch, i, today - lookback, today, obs)
    {
      assert req.ids[i] == batch[i].series.id;
      var found;
      if req.kind.FetchRange? {
        found := Collect(p, batch[i].series.id, req.from, req.to);
      } else {
        found := Collect(p, batch[i].series.id, today - lookback, today);
      }
      obs := obs + found;
    }
    return None, obs;
  }

  /** requireLatestObservations. */
  method RequireLatest(ids: seq<string>, obs: seq<ProviderObservation>) returns (ok: bool)
    ensures ok <==> forall id | id in ids :: exists o :: o in obs && o.id == id
  {
    var seen: set<string> := {};
    for i := 0 to |obs|
      invariant forall id :: id in seen <==> exists o :: o in obs[..i] && o.id == id
    {
      seen := seen + {obs[i].id};
      assert obs[..i + 1] == obs[..i] + [obs[i]];
    }
    assert obs[..|obs|] == obs;
    for i := 0 to |ids|
      invariant forall j | 0 <= j < i :: ids[j] in seen
    {
      if ids[i] !in seen {
        assert ids[i] in ids;
        return false;
      }
    }
    return true;
  }

  // ---- other instances -----------------------------------------------------

  /** None of the steps is taken under a nonce of ours. */
  ghost predicate NotOurs(a: Story, b: Story, ours: Option<Uuid>) {
    ours.Some? ==> ForeignSince(a, b, ours.value)
  }

  /**
  Any number of transactions of other instances, with any arguments those
  instances could use; they never use a nonce this instance has drawn.
   */
  method OthersRun(store: Store, p: Provider, ours: Option<Uuid>)
    requires Live(p, store) && (ours.Some? ==> ours.value in store.used)
    modifies store
    ensures Live(p, store) && Onward(old(store.story), store.story)
    ensures BlockGrows(old(store.blockedUntil), store.blockedUntil)
    ensures NotOurs(old(store.story), store.story, ours)
    ensures store.quiet ==> store.story == old(store.story) && store.blockedUntil == old(store.blockedUntil)
  {
    ghost var start := store.story;
    LaterReflexive(store.View());
    var steps: int := *;
    for i := 0 to if store.quiet then 0 else Max(0, steps)
      invariant Live(p, store) && Onward(start, store.story)
      invariant BlockGrows(old(store.blockedUntil), store.blockedUntil)
      invariant NotOurs(start, store.story, ours)
      invariant store.quiet ==> store.story == start && store.blockedUntil == old(store.blockedUntil)
    {
      ghost var before := store.story;
      OtherStep(store, p, ours);
      OnwardTransitive(start, before, store.story);
    }
  }

  method OtherStep(store: Store, p: Provider, ours: Option<Uuid>)
    requires Live(p, store) && (ours.Some? ==> ours.value in store.used)
    modifies store
    ensures Live(p, store) && Onward(old(store.story), store.story)
    ensures BlockGrows(old(store.blockedUntil), store.blockedUntil)
    ensures NotOurs(old(store.story), store.story, ours)
  {
    LaterReflexive(store.View());
    var units: seq<Unit> := *;
    var unit := AnyUnit();
    var nonce: Uuid := *;
    var amount: int := *;
    if {
      case true =>
        TakesStep(p, store.story, Tick(amount));
        store.Advance(amount);
      case true =>
        store.BlockProviderUntil(amount);
      case forall u | u in units :: WellPlanned(u) =>
        var force: bool := *;
        var _, _ := ClaimUnits(store, p, units, amount, force);
      case Some(nonce) != ours =>
        TakesStep(p, store.story, FailUnit(nonce, unit, amount));
        var _ := store.FailUnit(nonce, unit, amount);
      case Some(nonce) != ours && BatchOk(units) && (forall u | u in units :: WellPlanned(u)) && DistinctIds(units) =>
        var failure, obs := FetchBatch(p, units, amount, 7, false);
        if failure.None? {
          TakesStep(p, store.story, Complete(nonce, units, RequestForBatch(units), obs));
          var _ := store.Complete(nonce, units, RequestForBatch(units), obs);
        }
    }
  }

  method AnyUnit() returns (u: Unit)
    ensures u.LatestUnit? || WellPlanned(u)
  {
    var id: string := *;
    var base: string := *;
    var quote: string := *;
    var month: int := *;
    var length: int := *;
    var last: bool := *;
    var series := Series(id, base, quote);
    u := if last then LatestUnit(series)
         else MonthUnit(series, month, month + Max(0, length), month + Max(0, length), true);
  }

  lemma LaterReflexive(c: Cache)
    ensures Later(c, c)
  {
  }

  // ---- claiming and fetching one batch -------------------------------------

  method ClaimUnits(store: Store, p: Provider, units: seq<Unit>, leaseFor: int, force: bool)
    returns (nonce: Uuid, claimed: seq<Unit>)
    requires Live(p, store) && forall u | u in units :: WellPlanned(u)
    modifies store
    ensures Live(p, store) && store.story == Told(old(store.story), Claim(units, nonce, leaseFor, force))
    ensures Onward(old(store.story), store.story) && store.blockedUntil == old(store.blockedUntil)
    ensures claimed == ClaimAll(old(store.rows), units, nonce, old(store.now), leaseFor, force).1
    ensures nonce !in old(store.used) && nonce in store.used && multiset(claimed) <= multiset(units)
    ensures Plannable(units) ==> Plannable(claimed)
    ensures Plannable(units) && (forall u | u in units :: Grantable(old(store.View()), u, force)) ==>
              claimed == units && Granted(old(store.View()), store.rows, units, nonce) && store.now == old(store.now)
  {
    nonce := NewLeaseNonce(store.used);
    if Plannable(units) && forall u | u in units :: Grantable(store.View(), u, force) {
      AllGranted(store.View(), units, nonce, leaseFor, force);
    }
    TakesStep(p, store.story, Claim(units, nonce, leaseFor, force));
    ClaimedAreUnits(store.rows, units, nonce, store.now, leaseFor, force);
    claimed := store.Claim(units, nonce, leaseFor, force);
  }

  /** Asks the provider for one batch; a latest answer must name every series. */
  method FetchBatch(p: Provider, batch: seq<Unit>, today: Day, lookback: nat, answering: bool)
    returns (failure: Option<Failure>, obs: seq<ProviderObservation>)
    requires BatchOk(batch)
    ensures failure.Some? ==> FromProvider(failure.value)
    ensures failure.None? ==> Honest(p, batch, obs) && Within(batch, obs)
    ensures answering && RequestOk(RequestForBatch(batch))
            && (forall u | u in batch :: Supplied(p, lookback, today, u)) ==>
              failure.None?
  {
    var req := RequestForBatch(batch);
    failure, obs := Fetch(p, batch, today, lookback, answering);
    if failure.None? && req.kind.FetchLatest? {
      if forall u | u in batch :: Supplied(p, lookback, today, u) {
        SuppliedIsNamed(p, batch, lookback, today, obs);
      }
      var complete := RequireLatest(req.ids, obs);
      if !complete {
        return Some(ProviderFailed), obs;
      }
    }
    if failure.None? {
      AnswersAreHonest(p, batch, obs);
    }
  }

  lemma SuppliedIsNamed(p: Provider, batch: seq<Unit>, lookback: nat, today: Day, obs: seq<ProviderObservation>)
    requires BatchOk(batch) && RequestForBatch(batch).kind.FetchLatest?
    requires InWindow(p, batch, |batch|, today - lookback, today, obs)
    requires forall u | u in batch :: Supplied(p, lookback, today, u)
    ensures forall id | id in RequestForBatch(batch).ids :: exists o :: o in obs && o.id == id
  {
    var req := RequestForBatch(batch);
    forall id | id in req.ids ensures exists o :: o in obs && o.id == id {
      var i :| 0 <= i < |batch| && req.ids[i] == id;
      assert PeriodOf(batch[i]) == PeriodOf(batch[0]) && batch[i] in batch;
      var d :| today - lookback <= d <= today && p(batch[i].series.id, d).Some?;
      assert ProviderObservation(id, d, p(id, d).value) in obs;
    }
  }

  lemma AnswersAreHonest(p: Provider, batch: seq<Unit>, obs: seq<ProviderObservation>)
    requires batch != [] && Answers(p, batch, obs)
    requires var req := RequestForBatch(batch);
             req.kind.FetchLatest? ==> forall id | id in req.ids :: exists o :: o in obs && o.id == id
    ensures Honest(p, batch, obs)
  {
    var req := RequestForBatch(batch);
    forall u | u in batch ensures u.series.id in req.ids {
      var i :| 0 <= i < |batch| && batch[i] == u;
      assert req.ids[i] == u.series.id;
    }
  }

  /** The store is ours alone, and the provider answers and has what each unit asks for. */
  ghost predicate Favorable(store: Store, p: Provider, config: Config, today: Day, units: seq<Unit>) {
    && store.quiet && config.answering && Proper(p)
    && forall u | u in units :: Supplied(p, config.lookback, today, u)
  }

  /** A batch we hold, whose request is let through, in favorable circumstances. */
  ghost predicate Ripe(
    store: Store, p: Provider, config: Config, today: Day, rows: map<Key, Row>, batch: seq<Unit>, nonce: Uuid)
    requires batch != []
  {
    && Favorable(store, p, config, today, batch) && AllOwned(rows, batch, nonce)
    && RequestOk(RequestForBatch(batch))
  }

  /** Fetches one batch and completes it; a provider failure adds no step of ours. */
  method FetchAndComplete(store: Store, p: Provider, config: Config, nonce: Uuid, batch: seq<Unit>, today: Day)
    returns (failure: Option<Failure>)
    requires Live(p, store) && nonce in store.used
    requires BatchOk(batch) && (forall u | u in batch :: WellPlanned(u)) && DistinctIds(batch)
    modifies store
    ensures Live(p, store) && Onward(old(store.story), store.story)
    ensures failure != Some(ColdFetchInProgress)
    ensures failure.None? ==> Refetched(old(store.View()), store.View(), batch, nonce)
    ensures NothingReleased(old(store.story), store.story, nonce)
    ensures BlockGrows(old(store.blockedUntil), store.blockedUntil)
    ensures Ripe(store, p, config, today, old(store.rows), batch, nonce) ==>
              failure.None? && Renewed(old(store.View()), store.View(), batch)
  {
    ghost var start := store.story;
    var obs;
    failure, obs := FetchBatch(p, batch, today, config.lookback, config.answering);
    OthersRun(store, p, Some(nonce));
    if failure.Some? {
      return;
    }
    ghost var before := store.story;
    failure := CompleteHonest(store, p, config, nonce, batch, today, obs);
    OnwardTransitive(start, before, store.story);
    if failure.None? {
      RefetchedEarlier(Present(start), Present(before), store.View(), batch, nonce);
    }
  }

  /** Completes the batch with an honest response. */
  method CompleteHonest(
    store: Store, p: Provider, config: Config, nonce: Uuid, batch: seq<Unit>, today: Day, obs: seq<ProviderObservation>)
    returns (failure: Option<Failure>)
    requires Live(p, store) && nonce in store.used
    requires BatchOk(batch) && (forall u | u in batch :: WellPlanned(u)) && DistinctIds(batch)
    requires Honest(p, batch, obs) && Within(batch, obs)
    modifies store`rows, store`log, store`closed, store`fetched, store`story
    ensures Live(p, store) && Onward(old(store.story), store.story)
    ensures failure.None? || failure in {Some(StoreFailed), Some(LeaseLost)}
    ensures failure.None? ==> Refetched(old(store.View()), store.View(), batch, nonce)
    ensures NothingReleased(old(store.story), store.story, nonce)
    ensures Ripe(store, p, config, today, old(store.rows), batch, nonce) ==>
              failure.None? && Renewed(old(store.View()), store.View(), batch)
  {
    LaterReflexive(store.View());
    var fails: bool, unheard: bool := *, *;
    if fails && !store.quiet {
      return Some(StoreFailed);
    }
    ghost var done := Complete(nonce, batch, RequestForBatch(batch), obs);
    TakesStep(p, store.story, done);
    CompletionRefetches(store.View(), nonce, batch, obs);
    if Ripe(store, p, config, today, store.rows, batch, nonce) {
      RipeCompletes(store, p, config, nonce, batch, today, obs);
    }
    var ok := store.Complete(nonce, batch, RequestForBatch(batch), obs);
    if unheard && !store.quiet {
      return Some(StoreFailed);
    }
    return if ok then None else Some(LeaseLost);
  }

  lemma RipeCompletes(
    store: Store, p: Provider, config: Config, nonce: Uuid, batch: seq<Unit>, today: Day, obs: seq<ProviderObservation>)
    requires Live(p, store) && BatchOk(batch) && DistinctIds(batch) && Honest(p, batch, obs) && Within(batch, obs)
    requires Ripe(store, p, config, today, store.rows, batch, nonce)
    ensures var done := Complete(nonce, batch, RequestForBatch(batch), obs);
            CanComplete(store.View(), nonce, batch, RequestForBatch(batch), obs)
            && Renewed(store.View(), Next(store.View(), done), batch)
  {
    HolderCompletes(p, store.View(), nonce, batch, obs);
    forall u | u in batch ensures SameIdentity(store.rows[KeyOf(u)], u) {
      assert RowShape(store.View(), KeyOf(u), store.rows[KeyOf(u)]);
    }
    CompletionRenews(store.View(), nonce, batch, obs);
  }

  /** Every unit was fetched and committed since, and none is still held under the nonce. */
  ghost predicate Refetched(c: Cache, n: Cache, units: seq<Unit>, nonce: Uuid) {
    forall u | u in units :: FetchedSince(n, KeyOf(u), c.now) && !Owned(n.rows, KeyOf(u), nonce)
  }

  lemma RefetchedEarlier(a: Cache, c: Cache, n: Cache, units: seq<Unit>, nonce: Uuid)
    requires Refetched(c, n, units, nonce) && a.now <= c.now
    ensures Refetched(a, n, units, nonce)
  {
    forall u | u in units ensures FetchedSince(n, KeyOf(u), a.now) {
      FetchedSinceStays(n, n, KeyOf(u), c.now, a.now);
    }
  }

  lemma CompletionRefetches(c: Cache, nonce: Uuid, units: seq<Unit>, obs: seq<ProviderObservation>)
    requires units != []
    ensures CanComplete(c, nonce, units, RequestForBatch(units), obs) ==>
              Refetched(c, Next(c, Complete(nonce, units, RequestForBatch(units), obs)), units, nonce)
  {
    if CanComplete(c, nonce, units, RequestForBatch(units), obs) {
      var n := Next(c, Complete(nonce, units, RequestForBatch(units), obs));
      forall u | u in units ensures FetchedSince(n, KeyOf(u), c.now) && !Owned(n.rows, KeyOf(u), nonce) {
        UnitAtExact(units, KeyOf(u));
        assert KeyOf(u) in Keys(units);
        assert (KeyOf(u), c.now) in n.fetched;
      }
    }
  }

  // ---- releasing -----------------------------------------------------------

  /** The releases of the first `n` units. */
  function ReleasesOf(units: seq<Unit>, nonce: Uuid, delay: int, n: nat): seq<Event>
    requires n <= |units|
  {
    seq(n, i requires 0 <= i < n => FailUnit(nonce, units[i], delay))
  }

  ghost predicate NoneHeld(rows: map<Key, Row>, units: seq<Unit>, nonce: Uuid) {
    forall u | u in units :: !Owned(rows, KeyOf(u), nonce)
  }

  lemma NoneHeldStays(c: Cache, n: Cache, units: seq<Unit>, nonce: Uuid)
    requires Later(c, n) && nonce in c.used && NoneHeld(c.rows, units, nonce)
    ensures NoneHeld(n.rows, units, nonce)
  {
  }

  // How releasing ended: all done, a lease that was lost, or a statement that failed.
  datatype Releasing = AllReleased | LeaseGone | Errored

  /**
  Fail: one autocommitted release per unit, in order, while others go on; it
  stops at the first lease that was lost or statement that failed - which may
  have committed all the same - and keeps what it released. The releases
  under the nonce are exactly those of the units tried, and nothing is
  completed under it.
   */
  method Fail(store: Store, p: Provider, nonce: Uuid, units: seq<Unit>, delay: int)
    returns (outcome: Releasing, tried: nat)
    requires Live(p, store) && nonce in store.used
    modifies store
    ensures Live(p, store) && Onward(old(store.story), store.story)
    ensures BlockGrows(old(store.blockedUntil), store.blockedUntil)
    ensures tried <= |units| && (outcome.AllReleased? ==> tried == |units|)
    ensures outcome.LeaseGone? ==> tried > 0 && LostAtLast(store.story, nonce, units[tried - 1])
    ensures NoneHeld(store.rows, units[..tried], nonce)
    ensures ReleasesSince(old(store.story), store.story, nonce) == ReleasesOf(units, nonce, delay, tried)
    ensures NothingCompleted(old(store.story), store.story, nonce)
    ensures ReleasedWith(old(store.story), store.story, nonce, delay)
  {
    ghost var start := store.story;
    LaterReflexive(store.View());
    outcome, tried := AllReleased, 0;
    while tried < |units|
      invariant Live(p, store) && Onward(start, store.story) && tried <= |units|
      invariant BlockGrows(old(store.blockedUntil), store.blockedUntil)
      invariant NoneHeld(store.rows, units[..tried], nonce)
      invariant ReleasesSince(start, store.story, nonce) == ReleasesOf(units, nonce, delay, tried)
      invariant NothingCompleted(start, store.story, nonce) && ReleasedWith(start, store.story, nonce, delay)
      decreases |units| - tried
    {
      if * {
        return Errored, tried;
      }
      var ok := ReleaseNext(store, p, nonce, units, delay, tried, start);
      tried := tried + 1;
      if * {
        return Errored, tried;
      }
      if !ok {
        return LeaseGone, tried;
      }
    }
    return AllReleased, tried;
  }

  /** The last step found the row no longer held under the nonce. */
  ghost predicate LostAtLast(s: Story, nonce: Uuid, u: Unit) {
    0 < |s.acts| < |s.past| && !Owned(s.past[|s.acts| - 1].rows, KeyOf(u), nonce)
  }

  /** The failure to report after releasing. */
  function AfterReleasing(outcome: Releasing, cause: Failure): Failure {
    match outcome
    case AllReleased => cause
    case LeaseGone => LeaseLost
    case Errored => StoreFailed
  }

  /** Each release under the nonce, since `a`, has this delay. */
  ghost predicate ReleasedWith(a: Story, b: Story, nonce: Uuid, delay: int) {
    forall i | |a.acts| <= i < |b.acts| :: b.acts[i].FailUnit? && b.acts[i].nonce == nonce ==> b.acts[i].delay == delay
  }

  /** Nothing was released under the nonce since `a`. */
  ghost predicate NothingReleased(a: Story, b: Story, nonce: Uuid) {
    forall i | |a.acts| <= i < |b.acts| :: b.acts[i].FailUnit? ==> b.acts[i].nonce != nonce
  }

  /** Units released after the failure wait for the retry period, or until the provider's own time if that is later. */
  predicate WaitsFor(f: Failure, config: Config, clock: Time, delay: int) {
    match f
    case RateLimited(retryAt) => if retryAt > clock then clock + delay == retryAt else delay == config.retryAfter
    case _ => delay == config.retryAfter
  }

  /** Each release under the nonce, since `a`, waits as the failure asks. */
  ghost predicate ReleasesWait(a: Story, b: Story, nonce: Uuid, f: Failure, config: Config, clock: Time) {
    forall i | |a.acts| <= i < |b.acts| && b.acts[i].FailUnit? && b.acts[i].nonce == nonce ::
      WaitsFor(f, config, clock, b.acts[i].delay)
  }

  /** No completion under the nonce is among the steps. */
  ghost predicate NothingCompleted(a: Story, b: Story, nonce: Uuid) {
    forall i | |a.acts| <= i < |b.acts| :: b.acts[i].Complete? ==> b.acts[i].nonce != nonce
  }

  /** Others run, then one unit is released. */
  method ReleaseNext(
    store: Store, p: Provider, nonce: Uuid, units: seq<Unit>, delay: int, i: nat, ghost start: Story)
    returns (ok: bool)
    requires Live(p, store) && Onward(start, store.story) && nonce in Present(start).used && i < |units|
    requires NoneHeld(store.rows, units[..i], nonce)
    requires ReleasesSince(start, store.story, nonce) == ReleasesOf(units, nonce, delay, i)
    requires NothingCompleted(start, store.story, nonce) && ReleasedWith(start, store.story, nonce, delay)
    modifies store
    ensures Live(p, store) && Onward(start, store.story)
    ensures BlockGrows(old(store.blockedUntil), store.blockedUntil)
    ensures ok || LostAtLast(store.story, nonce, units[i])
    ensures NoneHeld(store.rows, units[..i + 1], nonce)
    ensures ReleasesSince(start, store.story, nonce) == ReleasesOf(units, nonce, delay, i + 1)
    ensures NothingCompleted(start, store.story, nonce) && ReleasedWith(start, store.story, nonce, delay)
  {
    ghost var before := store.story;
    OthersRun(store, p, Some(nonce));
    ghost var mid := store.story;
    ReleaseStep(p, start, before, mid, units, nonce, delay, i);
    ok := store.FailUnit(nonce, units[i], delay);
  }

  /** What others' steps and one release add to what has been released. */
  lemma ReleaseStep(
    p: Provider, start: Story, before: Story, mid: Story, units: seq<Unit>, nonce: Uuid, delay: int, i: nat)
    requires WellTold(mid) && Inv(p, Present(mid)) && Onward(start, before) && Onward(before, mid)
    requires ForeignSince(before, mid, nonce) && nonce in Present(start).used && i < |units|
    requires NoneHeld(Present(before).rows, units[..i], nonce)
    requires ReleasesSince(start, before, nonce) == ReleasesOf(units, nonce, delay, i)
    requires NothingCompleted(start, before, nonce) && ReleasedWith(start, before, nonce, delay)
    ensures var s := Told(mid, FailUnit(nonce, units[i], delay));
            && WellTold(s) && Inv(p, Present(s)) && Onward(start, s)
            && NoneHeld(Present(s).rows, units[..i + 1], nonce)
            && ReleasesSince(start, s, nonce) == ReleasesOf(units, nonce, delay, i + 1)
            && NothingCompleted(start, s, nonce) && ReleasedWith(start, s, nonce, delay)
            && (!Owned(Present(mid).rows, KeyOf(units[i]), nonce) ==> LostAtLast(s, nonce, units[i]))
  {
    OnwardTransitive(start, before, mid);
    NoneHeldStays(Present(before), Present(mid), units[..i], nonce);
    TakesStep(p, mid, FailUnit(nonce, units[i], delay));
    OnwardTransitive(start, mid, Told(mid, FailUnit(nonce, units[i], delay)));
    OneLessHeld(Present(mid), units, nonce, delay, i);
    OneMoreRelease(start, before, mid, units, nonce, delay, i);
  }

  lemma OneLessHeld(c: Cache, units: seq<Unit>, nonce: Uuid, delay: int, i: nat)
    requires i < |units| && NoneHeld(c.rows, units[..i], nonce)
    ensures NoneHeld(Next(c, FailUnit(nonce, units[i], delay)).rows, units[..i + 1], nonce)
  {
    assert units[..i + 1] == units[..i] + [units[i]];
  }

  lemma OneMoreRelease(
    start: Story, before: Story, mid: Story, units: seq<Unit>, nonce: Uuid, delay: int, i: nat)
    requires start.acts <= before.acts <= mid.acts && mid.past != [] && ForeignSince(before, mid, nonce) && i < |units|
    requires ReleasesSince(start, before, nonce) == ReleasesOf(units, nonce, delay, i)
    ensures ReleasesSince(start, Told(mid, FailUnit(nonce, units[i], delay)), nonce) ==
            ReleasesOf(units, nonce, delay, i + 1)
  {
    ForeignAddsNoRelease(start, before, mid, nonce);
    OwnReleaseIsAdded(start, mid, FailUnit(nonce, units[i], delay));
    assert ReleasesOf(units, nonce, delay, i + 1) ==
           ReleasesOf(units, nonce, delay, i) + [FailUnit(nonce, units[i], delay)];
  }

  method RemainingUnits(batches: seq<seq<Unit>>) returns (units: seq<Unit>)
    ensures units == Flatten(batches)
  {
    units := [];
    for i := 0 to |batches|
      invariant units + Flatten(batches[i..]) == Flatten(batches)
    {
      units := units + batches[i];
    }
  }

  // ---- fetchClaimed --------------------------------------------------------

  /** No unit of the batches is held under the nonce. */
  ghost predicate Unheld(rows: map<Key, Row>, batches: seq<seq<Unit>>, nonce: Uuid) {
    forall b, u | b in batches && u in b :: !Owned(rows, KeyOf(u), nonce)
  }

  ghost predicate AllFetched(c: Cache, batches: seq<seq<Unit>>, since: Time) {
    forall b, u | b in batches && u in b :: FetchedSince(c, KeyOf(u), since)
  }

  /**
  fetchClaimed: fetch and complete the claimed units batch by batch; at the
  first provider failure release what is left. On success every unit has been
  fetched during the call. Only a lost lease or a failing store can leave a
  unit leased: after success or a provider failure the nonce holds none of them.
  While the provider is blocked this call completes nothing, and a rate limit
  blocks the provider.
   */
  method FetchClaimed(
    store: Store, p: Provider, config: Config, nonce: Uuid, units: seq<Unit>, today: Day, clock: Time)
    returns (failure: Option<Failure>)
    requires Live(p, store) && Workable(units) && nonce in store.used
    modifies store
    ensures Live(p, store) && Onward(old(store.story), store.story)
    ensures failure != Some(ColdFetchInProgress)
    ensures failure.None? ==> forall u | u in units :: FetchedSince(store.View(), KeyOf(u), old(store.now))
    ensures (failure.None? || FromProvider(failure.value)) ==> NoneHeld(store.rows, units, nonce)
    ensures failure.Some? && failure.value.RateLimited? ==> BlockedFor(store.blockedUntil, failure.value.retryAt)
    ensures failure.Some? && FromProvider(failure.value) ==>
              ReleasesWait(old(store.story), store.story, nonce, failure.value, config, clock)
    ensures failure.None? ==> NothingReleased(old(store.story), store.story, nonce)
    ensures old(store.blockedUntil).Some? && old(store.blockedUntil).value > clock ==>
              failure.Some? && NothingCompleted(old(store.story), store.story, nonce)
    ensures Favorable(store, p, config, today, units) && AllOwned(old(store.rows), units, nonce)
            && old(store.blockedUntil).None? ==>
              failure.None? && Renewed(old(store.View()), store.View(), units)
  {
    ghost var start := store.story;
    OthersRun(store, p, Some(nonce));
    var fails: bool := *;
    if fails && !store.quiet {
      return Some(StoreFailed);
    }
    ghost var read := store.story;
    var blocked := store.blockedUntil;
    if blocked.Some? && blocked.value > clock {
      failure := RefuseBlocked(store, p, config, nonce, units, blocked.value, clock);
      OnwardTransitive(start, read, store.story);
      return;
    }
    failure := FetchAll(store, p, config, nonce, units, today, clock);
    OnwardTransitive(start, read, store.story);
    if failure.None? {
      forall u | u in units ensures FetchedSince(store.View(), KeyOf(u), Present(start).now) {
        FetchedSinceStays(store.View(), store.View(), KeyOf(u), Present(read).now, Present(start).now);
      }
    }
  }

  /** While the provider is blocked everything is released, to wait until it no longer is. */
  method RefuseBlocked(
    store: Store, p: Provider, config: Config, nonce: Uuid, units: seq<Unit>, until: Time, clock: Time)
    returns (failure: Option<Failure>)
    requires Live(p, store) && Workable(units) && nonce in store.used
    requires BlockedFor(store.blockedUntil, until) && until > clock
    modifies store
    ensures Live(p, store) && Onward(old(store.story), store.story)
    ensures failure.Some? && (failure.value == RateLimited(until) || failure.value in {LeaseLost, StoreFailed})
    ensures FromProvider(failure.value) ==> NoneHeld(store.rows, units, nonce)
    ensures BlockedFor(store.blockedUntil, until)
    ensures ReleasesWait(old(store.story), store.story, nonce, RateLimited(until), config, clock)
    ensures NothingCompleted(old(store.story), store.story, nonce)
  {
    var outcome, tried := Fail(store, p, nonce, units, until - clock);
    assert outcome.AllReleased? ==> units[..tried] == units;
    return Some(AfterReleasing(outcome, RateLimited(until)));
  }

  /** The batch loop. */
  method FetchAll(
    store: Store, p: Provider, config: Config, nonce: Uuid, units: seq<Unit>, today: Day, clock: Time)
    returns (failure: Option<Failure>)
    requires Live(p, store) && Workable(units) && nonce in store.used
    modifies store
    ensures Live(p, store) && Onward(old(store.story), store.story)
    ensures failure != Some(ColdFetchInProgress)
    ensures failure.None? ==> forall u | u in units :: FetchedSince(store.View(), KeyOf(u), old(store.now))
    ensures (failure.None? || FromProvider(failure.value)) ==> NoneHeld(store.rows, units, nonce)
    ensures failure.Some? && failure.value.RateLimited? ==> BlockedFor(store.blockedUntil, failure.value.retryAt)
    ensures failure.Some? && FromProvider(failure.value) ==>
              ReleasesWait(old(store.story), store.story, nonce, failure.value, config, clock)
    ensures failure.None? ==> NothingReleased(old(store.story), store.story, nonce)
    ensures Favorable(store, p, config, today, units) && AllOwned(old(store.rows), units, nonce) ==>
              failure.None? && Renewed(old(store.View()), store.View(), units)
  {
    ghost var start := store.story;
    LaterReflexive(store.View());
    ghost var ripe := Favorable(store, p, config, today, units) && AllOwned(store.rows, units, nonce);
    var batches := MakeBatches(units);
    if ripe {
      NothingRenewed(store.View(), units, batches, nonce);
    }
    for i := 0 to |batches|
      invariant Live(p, store) && Onward(start, store.story)
      invariant NothingReleased(start, store.story, nonce)
      invariant AllFetched(store.View(), batches[..i], Present(start).now) && Unheld(store.rows, batches[..i], nonce)
      invariant ripe ==> PartlyRenewed(Present(start), store.View(), units, batches, i, nonce)
    {
      BatchIsWorkable(units, batches[i]);
      ghost var before := store.View();
      if ripe {
        NextIsRipe(store, p, config, nonce, units, batches, i, today, Present(start));
      }
      failure := FetchNext(store, p, config, nonce, batches, i, today, clock, start);
      if failure.Some? {
        if FromProvider(failure.value) {
          UnheldUnits(store.rows, units, batches, nonce);
        }
        return;
      }
      if ripe {
        MoreRenewed(Present(start), before, store.View(), units, batches, i, nonce);
      }
    }
    assert batches[..|batches|] == batches;
    if ripe {
      AllRenewed(Present(start), store.View(), units, batches, nonce);
    }
    UnheldUnits(store.rows, units, batches, nonce);
    FetchedUnits(store.View(), units, batches, Present(start).now);
    return None;
  }

  lemma NextIsRipe(
    store: Store, p: Provider, config: Config, nonce: Uuid, units: seq<Unit>, batches: seq<seq<Unit>>, i: nat,
    today: Day, start: Cache)
    requires Workable(units) && i < |batches| && batches[i] in Cut(Ordering.Sort(UnitLe, units))
    requires Favorable(store, p, config, today, units)
    requires Packing(units, batches) && PartlyRenewed(start, store.View(), units, batches, i, nonce)
    ensures BatchOk(batches[i]) && Ripe(store, p, config, today, store.rows, batches[i], nonce)
  {
    BatchIsWorkable(units, batches[i]);
    RequestsPass(units, batches[i]);
    assert Supplied(p, config.lookback, today, batches[i][0]);
  }

  /** One round of the batch loop. */
  method FetchNext(
    store: Store, p: Provider, config: Config, nonce: Uuid, batches: seq<seq<Unit>>, i: nat, today: Day, clock: Time,
    ghost start: Story) returns (failure: Option<Failure>)
    requires Live(p, store) && Onward(start, store.story) && nonce in Present(start).used && i < |batches|
    requires BatchOk(batches[i]) && DistinctIds(batches[i]) && forall u | u in batches[i] :: WellPlanned(u)
    requires AllFetched(store.View(), batches[..i], Present(start).now) && Unheld(store.rows, batches[..i], nonce)
    requires NothingReleased(start, store.story, nonce)
    modifies store
    ensures Live(p, store) && Onward(start, store.story)
    ensures failure != Some(ColdFetchInProgress)
    ensures failure.None? ==>
              && AllFetched(store.View(), batches[..i + 1], Present(start).now)
              && Unheld(store.rows, batches[..i + 1], nonce)
    ensures failure.Some? && FromProvider(failure.value) ==> Unheld(store.rows, batches, nonce)
    ensures failure.Some? && failure.value.RateLimited? ==> BlockedFor(store.blockedUntil, failure.value.retryAt)
    ensures failure.Some? && FromProvider(failure.value) ==>
              ReleasesWait(start, store.story, nonce, failure.value, config, clock)
    ensures failure.None? ==> NothingReleased(start, store.story, nonce)
    ensures Ripe(store, p, config, today, old(store.rows), batches[i], nonce) ==>
              failure.None? && Renewed(old(store.View()), store.View(), batches[i])
  {
    ghost var before := store.story;
    failure := FetchAndComplete(store, p, config, nonce, batches[i], today);
    OnwardTransitive(start, before, store.story);
    StaysUnheld(Present(before), store.View(), batches[..i], nonce);
    StaysFetched(Present(before), store.View(), batches[..i], Present(start).now);
    if failure.None? {
      OneMoreBatch(Present(start), Present(before), store.View(), batches, i, nonce);
    } else if FromProvider(failure.value) {
      failure := GiveUp(store, p, config, nonce, batches, i, clock, failure.value, start);
    }
  }

  /** After a provider failure: block the provider if it asked for that, and release this batch and the rest. */
  method GiveUp(
    store: Store, p: Provider, config: Config, nonce: Uuid, batches: seq<seq<Unit>>, i: nat, clock: Time,
    cause: Failure, ghost start: Story) returns (failure: Option<Failure>)
    requires Live(p, store) && Onward(start, store.story) && nonce in Present(start).used && i < |batches|
    requires Unheld(store.rows, batches[..i], nonce) && FromProvider(cause)
    requires NothingReleased(start, store.story, nonce)
    modifies store
    ensures Live(p, store) && Onward(start, store.story)
    ensures failure.Some? && failure.value in {cause, LeaseLost, StoreFailed}
    ensures FromProvider(failure.value) ==> Unheld(store.rows, batches, nonce)
    ensures failure.value.RateLimited? ==> BlockedFor(store.blockedUntil, failure.value.retryAt)
    ensures ReleasesWait(start, store.story, nonce, cause, config, clock)
  {
    var ok, delay := HeedProvider(store, config, cause, clock);
    if !ok {
      return Some(StoreFailed);
    }
    ghost var before := store.story;
    var outcome := ReleaseRest(store, p, nonce, batches, i, delay, start);
    WaitsAfter(start, before, store.story, nonce, cause, config, clock, delay);
    return Some(AfterReleasing(outcome, cause));
  }

  /** A rate limit blocks the provider until the time it named, or for as long as it is blocked already. */
  method HeedProvider(store: Store, config: Config, cause: Failure, clock: Time) returns (ok: bool, delay: int)
    requires FromProvider(cause)
    modifies store`blockedUntil
    ensures WaitsFor(cause, config, clock, delay)
    ensures ok && cause.RateLimited? ==> BlockedFor(store.blockedUntil, cause.retryAt)
    ensures store.blockedUntil == old(store.blockedUntil)
            || (cause.RateLimited? && store.blockedUntil == Some(cause.retryAt))
    ensures BlockGrows(old(store.blockedUntil), store.blockedUntil)
  {
    delay := config.retryAfter;
    if cause.RateLimited? {
      if cause.retryAt > clock {
        delay := cause.retryAt - clock;
      }
      if * {
        return false, delay;
      }
      store.BlockProviderUntil(cause.retryAt);
      if * {
        return false, delay;
      }
    }
    return true, delay;
  }

  lemma WaitsAfter(
    a: Story, b: Story, c: Story, nonce: Uuid, f: Failure, config: Config, clock: Time, delay: int)
    requires a.acts <= b.acts <= c.acts && NothingReleased(a, b, nonce) && ReleasedWith(b, c, nonce, delay)
    requires WaitsFor(f, config, clock, delay)
    ensures ReleasesWait(a, c, nonce, f, config, clock)
  {
    assert forall i | |a.acts| <= i < |b.acts| :: c.acts[i] == b.acts[i];
  }

  /** Releases the units of the batches from `i` on. */
  method ReleaseRest(
    store: Store, p: Provider, nonce: Uuid, batches: seq<seq<Unit>>, i: nat, delay: int, ghost start: Story)
    returns (outcome: Releasing)
    requires Live(p, store) && Onward(start, store.story) && nonce in Present(start).used && i < |batches|
    requires Unheld(store.rows, batches[..i], nonce)
    modifies store
    ensures Live(p, store) && Onward(start, store.story)
    ensures old(store.story).acts <= store.story.acts && ReleasedWith(old(store.story), store.story, nonce, delay)
    ensures BlockGrows(old(store.blockedUntil), store.blockedUntil)
    ensures outcome.AllReleased? ==> Unheld(store.rows, batches, nonce)
  {
    var rest := RemainingUnits(batches[i..]);
    ghost var before := store.story;
    var tried;
    outcome, tried := Fail(store, p, nonce, rest, delay);
    OnwardTransitive(start, before, store.story);
    if outcome.AllReleased? {
      assert rest[..tried] == rest;
      StaysUnheld(Present(before), store.View(), batches[..i], nonce);
      SplitBatches(batches, i);
    }
  }

  lemma StaysUnheld(c: Cache, n: Cache, batches: seq<seq<Unit>>, nonce: Uuid)
    requires Later(c, n) && nonce in c.used && Unheld(c.rows, batches, nonce)
    ensures Unheld(n.rows, batches, nonce)
  {
  }

  lemma StaysFetched(c: Cache, n: Cache, batches: seq<seq<Unit>>, since: Time)
    requires Later(c, n) && AllFetched(c, batches, since)
    ensures AllFetched(n, batches, since)
  {
    forall b, u | b in batches && u in b ensures FetchedSince(n, KeyOf(u), since) {
      FetchedSinceStays(c, n, KeyOf(u), since, since);
    }
  }

  lemma OneMoreBatch(start: Cache, c: Cache, n: Cache, batches: seq<seq<Unit>>, i: nat, nonce: Uuid)
    requires i < |batches| && start.now <= c.now && Refetched(c, n, batches[i], nonce)
    requires AllFetched(n, batches[..i], start.now) && Unheld(n.rows, batches[..i], nonce)
    ensures AllFetched(n, batches[..i + 1], start.now) && Unheld(n.rows, batches[..i + 1], nonce)
  {
    assert batches[..i + 1] == batches[..i] + [batches[i]];
    forall u | u in batches[i] ensures FetchedSince(n, KeyOf(u), start.now) {
      FetchedSinceStays(n, n, KeyOf(u), c.now, start.now);
    }
  }

  lemma {:induction false} InFlatten(batches: seq<seq<Unit>>, u: Unit)
    ensures u in Flatten(batches) <==> exists b :: b in batches && u in b
  {
    if batches != [] {
      InFlatten(batches[1..], u);
      if u in batches[0] {
        assert batches[0] in batches;
      }
      assert forall b :: b in batches <==> b == batches[0] || b in batches[1..];
    }
  }

  lemma UnheldUnits(rows: map<Key, Row>, units: seq<Unit>, batches: seq<seq<Unit>>, nonce: Uuid)
    requires Packing(units, batches) && Unheld(rows, batches, nonce)
    ensures NoneHeld(rows, units, nonce)
  {
    forall u | u in units ensures !Owned(rows, KeyOf(u), nonce) {
      assert u in multiset(Flatten(batches));
      InFlatten(batches, u);
    }
  }

  lemma FetchedUnits(c: Cache, units: seq<Unit>, batches: seq<seq<Unit>>, since: Time)
    requires Packing(units, batches) && AllFetched(c, batches, since)
    ensures forall u | u in units :: FetchedSince(c, KeyOf(u), since)
  {
    forall u | u in units ensures FetchedSince(c, KeyOf(u), since) {
      assert u in multiset(Flatten(batches));
      InFlatten(batches, u);
    }
  }

  /** A unit of the batches is in one already done or in the rest. */
  lemma SplitBatches(batches: seq<seq<Unit>>, i: nat)
    requires i < |batches|
    ensures forall b, u | b in batches && u in b ::
              u in Flatten(batches[i..]) || exists done :: done in batches[..i] && u in done
  {
    assert batches == batches[..i] + batches[i..];
    forall b, u | b in batches && u in b
      ensures u in Flatten(batches[i..]) || exists done :: done in batches[..i] && u in done
    {
      if b !in batches[..i] {
        assert b in batches[i..];
        InFlatten(batches[i..], u);
      }
    }
  }
}
