/**
The two polling loops that bring a set of units up to date. They are unbounded
in the service and end when the caller's context does; here the context allows
`patience` more rounds, for any number.
 */
module RateResolve {
  import opened Base
  import opened RateTypes
  import opened RateRows
  import opened RateCache
  import opened RateTheorems
  import opened RateStory
  import opened RateStore
  import opened Batching
  import opened RateWork
  import opened RateProgress
  import opened RateService

  // ---- what a states read tells --------------------------------------------

  /** The unit's month is covered, or its latest observation was fresh at `at` or later. */
  ghost predicate SeenReady(c: Cache, u: Unit, at: Time) {
    if u.MonthUnit? then CoversThrough(c.rows, KeyOf(u), u.fetchTo)
    else FreshFetch(c, KeyOf(u), at) && Observed(c.log, u.series)
  }

  lemma SeenReadyStays(c: Cache, n: Cache, u: Unit, at: Time)
    requires Later(c, n) && SeenReady(c, u, at)
    ensures SeenReady(n, u, at)
  {
    if u.LatestUnit? {
      FreshFetchStays(c, n, KeyOf(u), at);
      ObservedSurvives(c.log, n.log, u.series);
    }
  }

  lemma FreshFetchStays(c: Cache, n: Cache, k: Key, at: Time)
    requires Later(c, n) && FreshFetch(c, k, at)
    ensures FreshFetch(n, k, at)
  {
    var t :| (k, t) in c.fetched && t <= c.now && at < t + c.freshFor;
    assert (k, t) in n.fetched;
  }

  lemma ReadyIsSeen(p: Provider, c: Cache, u: Unit, at: Time)
    requires Inv(p, c) && at <= c.now && StateOf(c.rows, u, c.now).ready
    ensures SeenReady(c, u, at)
  {
    if u.MonthUnit? {
      ReadyMonthIsCovered(p, c, u, c.now);
    } else {
      ReadyLatestIsFresh(p, c, u, c.now);
      var t :| (KeyOf(u), t) in c.fetched && t <= c.now && c.now < t + c.freshFor;
      assert (KeyOf(u), t) in c.fetched && t <= c.now && at < t + c.freshFor;
    }
  }

  /** `x` is `y`, or a time no earlier than `at`. */
  predicate SameOrSince(x: Option<Time>, y: Option<Time>, at: Time) {
    x == y || (x.Some? && x.value >= at)
  }

  /** What the state read for a unit, some time between `c` and `n`, says about both. */
  ghost predicate ReadBetween(c: Cache, n: Cache, u: Unit, st: WorkState) {
    && (st.ready ==> SeenReady(n, u, c.now))
    && (st.completed.Some? ==> (KeyOf(u), st.completed.value) in n.fetched && st.completed.value <= n.now)
    && SameOrSince(st.completed, CompletedAt(c.rows, KeyOf(u)), c.now)
    && SameOrSince(CompletedAt(n.rows, KeyOf(u)), st.completed, c.now)
  }

  lemma ReadNow(p: Provider, c: Cache, n: Cache, u: Unit)
    requires Inv(p, n) && Later(c, n)
    ensures ReadBetween(c, n, u, StateOf(n.rows, u, n.now))
  {
    if StateOf(n.rows, u, n.now).ready {
      ReadyIsSeen(p, n, u, c.now);
    }
    if KeyOf(u) in n.rows {
      assert RowShape(n, KeyOf(u), n.rows[KeyOf(u)]);
    }
  }

  lemma ReadStays(c: Cache, n: Cache, m: Cache, u: Unit, st: WorkState)
    requires ReadBetween(c, n, u, st) && Later(c, n) && Later(n, m)
    ensures ReadBetween(c, m, u, st)
  {
    if st.ready {
      SeenReadyStays(n, m, u, c.now);
    }
  }

  ghost predicate AllReadBetween(c: Cache, n: Cache, units: seq<Unit>, states: map<Key, WorkState>) {
    forall u | u in units :: KeyOf(u) in states && ReadBetween(c, n, u, states[KeyOf(u)])
  }

  /** At some moment of the story from `from` on, the unit's state was `st`. */
  ghost predicate ReadDuring(s: Story, from: nat, u: Unit, st: WorkState) {
    exists k :: from <= k < |s.past| && StateOf(s.past[k].rows, u, s.past[k].now) == st
  }

  ghost predicate AllReadDuring(s: Story, from: nat, units: seq<Unit>, states: map<Key, WorkState>) {
    forall u | u in units :: KeyOf(u) in states && ReadDuring(s, from, u, states[KeyOf(u)])
  }

  lemma ReadDuringStays(s: Story, t: Story, from: nat, earlier: nat, u: Unit, st: WorkState)
    requires ReadDuring(s, from, u, st) && s.past <= t.past && earlier <= from
    ensures ReadDuring(t, earlier, u, st)
  {
    var k :| from <= k < |s.past| && StateOf(s.past[k].rows, u, s.past[k].now) == st;
    assert t.past[k] == s.past[k];
  }

  /** States: one statement per unit, so other instances may run between any two of them. */
  method States(store: Store, p: Provider, units: seq<Unit>) returns (ok: bool, states: map<Key, WorkState>)
    requires Live(p, store) && Plannable(units)
    modifies store
    ensures Live(p, store) && Onward(old(store.story), store.story)
    ensures ok ==> AllReadBetween(old(store.View()), store.View(), units, states)
    ensures ok ==> AllReadDuring(store.story, |old(store.story).acts|, units, states)
    ensures store.quiet ==> ok && store.story == old(store.story) && store.blockedUntil == old(store.blockedUntil)
  {
    ghost var start := store.story;
    LaterReflexive(store.View());
    ok, states := true, map[];
    for i := 0 to |units|
      invariant Live(p, store) && Onward(start, store.story)
      invariant AllReadBetween(Present(start), store.View(), units[..i], states)
      invariant AllReadDuring(store.story, |start.acts|, units[..i], states)
      invariant store.quiet ==> store.story == start && store.blockedUntil == old(store.blockedUntil)
    {
      var fails: bool := *;
      if fails && !store.quiet {
        return false, map[];
      }
      states := ReadOne(store, p, units, i, states, start);
    }
    assert units[..|units|] == units;
  }

  method ReadOne(
    store: Store, p: Provider, units: seq<Unit>, i: nat, states: map<Key, WorkState>, ghost start: Story)
    returns (more: map<Key, WorkState>)
    requires Live(p, store) && WellTold(start) && Onward(start, store.story) && Plannable(units) && i < |units|
    requires AllReadBetween(Present(start), store.View(), units[..i], states)
    requires AllReadDuring(store.story, |start.acts|, units[..i], states)
    modifies store
    ensures Live(p, store) && Onward(start, store.story)
    ensures AllReadBetween(Present(start), store.View(), units[..i + 1], more)
    ensures AllReadDuring(store.story, |start.acts|, units[..i + 1], more)
    ensures store.quiet ==> store.story == old(store.story) && store.blockedUntil == old(store.blockedUntil)
  {
    ghost var before := store.story;
    OthersRun(store, p, None);
    OnwardTransitive(start, before, store.story);
    var u := units[i];
    more := states[KeyOf(u) := StateOf(store.rows, u, store.now)];
    ReadNow(p, Present(start), store.View(), u);
    ReadAtEnd(store.story, |start.acts|, u);
    forall v | v in units[..i + 1]
      ensures KeyOf(v) in more && ReadBetween(Present(start), store.View(), v, more[KeyOf(v)])
      ensures ReadDuring(store.story, |start.acts|, v, more[KeyOf(v)])
    {
      if v in units[..i] {
        ReadStays(Present(start), Present(before), store.View(), v, states[KeyOf(v)]);
        ReadDuringStays(before, store.story, |start.acts|, |start.acts|, v, states[KeyOf(v)]);
        EarlierKeyDiffers(units, i, v);
      }
    }
  }

  lemma ReadAtEnd(s: Story, from: nat, u: Unit)
    requires from < |s.past|
    ensures ReadDuring(s, from, u, StateOf(Present(s).rows, u, Present(s).now))
  {
    assert s.past[|s.past| - 1] == Present(s);
  }

  lemma EarlierKeyDiffers(units: seq<Unit>, i: nat, v: Unit)
    requires Plannable(units) && i < |units| && v in units[..i]
    ensures KeyOf(v) != KeyOf(units[i])
  {
    var j :| 0 <= j < i && units[j] == v;
    assert SameStart(units[j], units[i]) ==> units[j].series.id != units[i].series.id;
  }

  // ---- filtering -----------------------------------------------------------

  /** Some of the units, in their order. */
  ghost predicate Selected(units: seq<Unit>, out: seq<Unit>) {
    multiset(out) <= multiset(units) && (Plannable(units) ==> Plannable(out))
  }

  lemma SelectMore(units: seq<Unit>, i: nat, out: seq<Unit>)
    requires i < |units| && Selected(units[..i], out)
    ensures Selected(units[..i + 1], out) && Selected(units[..i + 1], out + [units[i]])
  {
    assert units[..i + 1] == units[..i] + [units[i]];
    if Plannable(units[..i + 1]) {
      PlannableGrows(units[..i], out, units[i]);
    }
  }

  lemma SelectedIsWorkable(units: seq<Unit>, out: seq<Unit>)
    requires Workable(units) && Selected(units, out)
    ensures Workable(out) && forall u | u in out :: u in units
  {
    forall u | u in out ensures u in units {
      assert u in multiset(out);
      assert u in multiset(units);
    }
  }

  method PendingUnits(units: seq<Unit>, states: map<Key, WorkState>) returns (pending: seq<Unit>)
    requires forall u | u in units :: KeyOf(u) in states
    ensures Selected(units, pending)
    ensures forall u :: u in pending <==> u in units && !states[KeyOf(u)].ready
    ensures pending == [] <==> forall u | u in units :: states[KeyOf(u)].ready
  {
    pending := [];
    for i := 0 to |units|
      invariant Selected(units[..i], pending)
      invariant forall u :: u in pending <==> u in units[..i] && !states[KeyOf(u)].ready
    {
      SelectMore(units, i, pending);
      if !states[KeyOf(units[i])].ready {
        pending := pending + [units[i]];
      }
    }
    assert units[..|units|] == units;
    assert pending != [] ==> pending[0] in pending;
  }

  function AllLatest(units: seq<Unit>): bool {
    forall u | u in units :: u.LatestUnit?
  }

  // ---- resolve -------------------------------------------------------------

  /** At some moment of the story from `from` on, the unit was ready. */
  ghost predicate ReadyDuring(s: Story, from: nat, u: Unit) {
    exists k :: from <= k < |s.past| && ReadyAt(s.past[k], u)
  }

  /** Every unit was ready at a moment of the call, and what that means still holds. */
  ghost predicate Resolved(s: Story, from: nat, units: seq<Unit>)
    requires from < |s.past|
  {
    forall u | u in units :: SeenReady(Present(s), u, s.past[from].now) && ReadyDuring(s, from, u)
  }

  lemma ReadyWasRead(s: Story, from: nat, u: Unit, st: WorkState)
    requires ReadDuring(s, from, u, st) && st.ready
    ensures ReadyDuring(s, from, u)
  {
    var k :| from <= k < |s.past| && StateOf(s.past[k].rows, u, s.past[k].now) == st;
    assert ReadyAt(s.past[k], u);
  }

  lemma ReadyDuringStays(s: Story, t: Story, from: nat, earlier: nat, u: Unit)
    requires ReadyDuring(s, from, u) && s.past <= t.past && earlier <= from
    ensures ReadyDuring(t, earlier, u)
  {
    var k :| from <= k < |s.past| && ReadyAt(s.past[k], u);
    assert t.past[k] == s.past[k];
  }

  /**
  On success every unit was ready at some moment of the call: its month is
  covered through the last day asked for, or its latest observation was still
  fresh when the call began. Units that are ready need no claim and no fetch.
   */
  method Resolve(store: Store, p: Provider, config: Config, units: seq<Unit>, today: Day, patience: nat)
    returns (failure: Option<Failure>)
    requires Live(p, store) && Workable(units)
    modifies store
    ensures Live(p, store) && Onward(old(store.story), store.story)
    ensures failure.None? ==> Resolved(store.story, |old(store.story).acts|, units)
    ensures failure == Some(ColdFetchInProgress) ==>
              AllLatest(units) && Contended(store.story, |old(store.story).acts|, units, config.leaseFor)
    ensures store.quiet && patience > 0 && AllReadyAt(old(store.View()), units) ==>
              failure.None? && store.story == old(store.story)
    ensures patience > 1 && old(Attainable(store, p, config, today, units)) ==> failure.None?
  {
    ghost var start := store.story;
    LaterReflexive(store.View());
    ghost var attainable := Attainable(store, p, config, today, units);
    for round := 0 to patience
      invariant Live(p, store) && Onward(start, store.story)
      invariant store.quiet && AllReadyAt(Present(start), units) ==> round == 0 && store.story == start
      invariant round == 0 ==> attainable == Attainable(store, p, config, today, units)
      invariant attainable && round > 0 ==> round == 1 && AllReadyAt(store.View(), units)
    {
      ghost var before := store.story;
      var done;
      done, failure := ResolveRound(store, p, config, units, today);
      OnwardTransitive(start, before, store.story);
      if done {
        if failure.None? {
          ResolvedEarlier(store.story, start, before, units);
        } else if failure == Some(ColdFetchInProgress) {
          ContendedEarlier(store.story, |before.acts|, |start.acts|, units, config.leaseFor);
        }
        return;
      }
    }
    return Some(ContextDone);
  }

  lemma ResolvedEarlier(s: Story, start: Story, before: Story, units: seq<Unit>)
    requires WellTold(start) && WellTold(before) && WellTold(s) && Onward(start, before) && Onward(before, s)
    requires Resolved(s, |before.acts|, units)
    ensures Resolved(s, |start.acts|, units)
  {
    assert s.past[|start.acts|] == Present(start) && s.past[|before.acts|] == Present(before);
    EarlierSeen(Present(s), units, Present(before).now, Present(start).now);
    forall u | u in units ensures ReadyDuring(s, |start.acts|, u) {
      ReadyDuringStays(s, s, |before.acts|, |start.acts|, u);
    }
  }

  lemma EarlierSeen(c: Cache, units: seq<Unit>, at: Time, earlier: Time)
    requires earlier <= at && forall u | u in units :: SeenReady(c, u, at)
    ensures forall u | u in units :: SeenReady(c, u, earlier)
  {
    forall u | u in units ensures SeenReady(c, u, earlier) {
      if u.LatestUnit? {
        var t :| (KeyOf(u), t) in c.fetched && t <= c.now && at < t + c.freshFor;
        assert (KeyOf(u), t) in c.fetched && t <= c.now && earlier < t + c.freshFor;
      }
    }
  }

  /** What can be made ready without waiting: a lone instance, an answering provider, nothing leased or backing off. */
  ghost predicate Attainable(store: Store, p: Provider, config: Config, today: Day, units: seq<Unit>)
    reads store
  {
    && Favorable(store, p, config, today, units) && store.blockedUntil.None?
    && forall u | u in units :: ReadyAt(store.View(), u) || Grantable(store.View(), u, false)
  }

  /** One round: done when everything is ready or something failed. */
  method ResolveRound(store: Store, p: Provider, config: Config, units: seq<Unit>, today: Day)
    returns (done: bool, failure: Option<Failure>)
    requires Live(p, store) && Workable(units)
    modifies store
    ensures Live(p, store) && Onward(old(store.story), store.story)
    ensures done && failure.None? ==> Resolved(store.story, |old(store.story).acts|, units)
    ensures done && failure == Some(ColdFetchInProgress) ==>
              AllLatest(units) && Contended(store.story, |old(store.story).acts|, units, config.leaseFor)
    ensures store.quiet && AllReadyAt(old(store.View()), units) ==>
              done && failure.None? && store.story == old(store.story)
    ensures old(Attainable(store, p, config, today, units)) ==>
              failure.None? && AllReadyAt(store.View(), units)
  {
    ghost var start := store.story;
    var ok, pending := ReadPending(store, p, units);
    if !ok {
      return true, Some(StoreFailed);
    }
    if |pending| == 0 {
      return true, None;
    }
    ghost var before := store.story;
    var claimed;
    failure, claimed := ClaimAndFetch(store, p, config, pending, today, false);
    OnwardTransitive(start, before, store.story);
    if store.quiet && Renewed(Present(start), store.View(), pending) {
      RestStaysReady(Present(start), store.View(), units, pending);
    }
    if claimed == [] && failure.None? {
      if AllLatest(units) {
        ClaimedDuringStays(
          store.story, store.story, |before.acts|, |start.acts|, pending, config.leaseFor, false, []);
        return true, Some(ColdFetchInProgress);
      }
      return false, None;
    }
    return failure.Some?, failure;
  }

  /** Reads the states, and keeps the units that are not ready. */
  method ReadPending(store: Store, p: Provider, units: seq<Unit>) returns (ok: bool, pending: seq<Unit>)
    requires Live(p, store) && Workable(units)
    modifies store
    ensures Live(p, store) && Onward(old(store.story), store.story)
    ensures Workable(pending) && forall u | u in pending :: u in units
    ensures ok && pending == [] ==> Resolved(store.story, |old(store.story).acts|, units)
    ensures store.quiet ==> ok && store.story == old(store.story) && store.blockedUntil == old(store.blockedUntil)
    ensures store.quiet ==> (pending == [] <==> AllReadyAt(old(store.View()), units))
    ensures store.quiet ==> forall u | u in units :: u in pending <==> !ReadyAt(old(store.View()), u)
  {
    ghost var start := store.story;
    var states;
    ok, states := States(store, p, units);
    if !ok {
      return false, [];
    }
    pending := PendingUnits(units, states);
    if store.quiet {
      ReadAtOnce(start, units, states);
    }
    if pending == [] {
      AllSeenReady(start, store.story, units, states, pending);
    }
    SelectedIsWorkable(units, pending);
  }

  /** Renewing what was not ready leaves everything ready. */
  lemma RestStaysReady(c: Cache, n: Cache, units: seq<Unit>, pending: seq<Unit>)
    requires Plannable(units) && Renewed(c, n, pending) && forall u | u in pending :: u in units
    requires forall u | u in units :: u in pending <==> !ReadyAt(c, u)
    ensures AllReadyAt(n, units)
  {
    forall u | u in units && u !in pending ensures ReadyAt(n, u) {
      forall v | v in pending ensures KeyOf(v) != KeyOf(u) {
        var i :| 0 <= i < |units| && units[i] == u;
        var j :| 0 <= j < |units| && units[j] == v;
        if i < j {
          KeysDiffer(units, i, j);
        } else {
          KeysDiffer(units, j, i);
        }
      }
    }
  }

  /** Left alone, the states read are those of the moment. */
  lemma ReadAtOnce(s: Story, units: seq<Unit>, states: map<Key, WorkState>)
    requires WellTold(s) && AllReadDuring(s, |s.acts|, units, states)
    ensures forall u | u in units :: states[KeyOf(u)].ready <==> ReadyAt(Present(s), u)
    ensures forall u | u in units :: states[KeyOf(u)].completed == CompletedAt(Present(s).rows, KeyOf(u))
  {
    forall u | u in units
      ensures states[KeyOf(u)].ready <==> ReadyAt(Present(s), u)
      ensures states[KeyOf(u)].completed == CompletedAt(Present(s).rows, KeyOf(u))
    {
      var k :| |s.acts| <= k < |s.past| && StateOf(s.past[k].rows, u, s.past[k].now) == states[KeyOf(u)];
      assert s.past[k] == Present(s);
    }
  }

  lemma AllSeenReady(start: Story, s: Story, units: seq<Unit>, states: map<Key, WorkState>, pending: seq<Unit>)
    requires WellTold(start) && Onward(start, s) && AllReadBetween(Present(start), Present(s), units, states)
    requires AllReadDuring(s, |start.acts|, units, states) && pending == []
    requires forall u :: u in pending <==> u in units && !states[KeyOf(u)].ready
    ensures Resolved(s, |start.acts|, units)
  {
    assert s.past[|start.acts|] == Present(start);
    forall u | u in units ensures SeenReady(Present(s), u, Present(start).now) && ReadyDuring(s, |start.acts|, u) {
      assert u !in pending;
      ReadyWasRead(s, |start.acts|, u, states[KeyOf(u)]);
    }
  }

  /** A claim of these units, for this lease, was made at some moment from `from` on, and returned these. */
  ghost predicate ClaimedDuring(
    s: Story, from: nat, units: seq<Unit>, lease: int, force: bool, claimed: seq<Unit>)
    requires |s.past| > |s.acts|
  {
    exists m, nonce :: from <= m < |s.acts| && ClaimedAt(s.past[m], s.acts[m], units, nonce, lease, force, claimed)
  }

  ghost predicate ClaimedAt(
    c: Cache, e: Event, units: seq<Unit>, nonce: Uuid, lease: int, force: bool, claimed: seq<Unit>)
  {
    e == Claim(units, nonce, lease, force) && claimed == ClaimAll(c.rows, units, nonce, c.now, lease, force).1
  }

  lemma ClaimedDuringStays(
    s: Story, t: Story, from: nat, earlier: nat, units: seq<Unit>, lease: int, force: bool, claimed: seq<Unit>)
    requires |s.past| > |s.acts| && |t.past| > |t.acts| && s.past <= t.past && s.acts <= t.acts && earlier <= from
    requires ClaimedDuring(s, from, units, lease, force, claimed)
    ensures ClaimedDuring(t, earlier, units, lease, force, claimed)
  {
    var m, nonce :| from <= m < |s.acts| && ClaimedAt(s.past[m], s.acts[m], units, nonce, lease, force, claimed);
    assert t.past[m] == s.past[m] && t.acts[m] == s.acts[m];
  }

  lemma JustClaimed(s: Story, e: Event, from: nat, claimed: seq<Unit>)
    requires WellTold(s) && from <= |s.acts| && e.Claim?
    requires claimed == ClaimAll(Present(s).rows, e.units, e.nonce, Present(s).now, e.lease, e.force).1
    ensures ClaimedDuring(Told(s, e), from, e.units, e.lease, e.force, claimed)
  {
    var t := Told(s, e);
    assert ClaimedAt(t.past[|s.acts|], t.acts[|s.acts|], e.units, e.nonce, e.lease, e.force, claimed);
  }

  /** Some of the units, none of which could be claimed without force: another instance is at it or they back off. */
  ghost predicate Contended(s: Story, from: nat, units: seq<Unit>, lease: int)
    requires |s.past| > |s.acts|
  {
    exists us :: us != [] && (forall u | u in us :: u in units) && ClaimedDuring(s, from, us, lease, false, [])
  }

  lemma ContendedEarlier(s: Story, from: nat, earlier: nat, units: seq<Unit>, lease: int)
    requires |s.past| > |s.acts| && earlier <= from && Contended(s, from, units, lease)
    ensures Contended(s, earlier, units, lease)
  {
    var us :| us != [] && (forall u | u in us :: u in units) && ClaimedDuring(s, from, us, lease, false, []);
    ClaimedDuringStays(s, s, from, earlier, us, lease, false, []);
  }

  /** Draw a nonce, claim what can be claimed, and fetch that. */
  method ClaimAndFetch(store: Store, p: Provider, config: Config, units: seq<Unit>, today: Day, force: bool)
    returns (failure: Option<Failure>, claimed: seq<Unit>)
    requires Live(p, store) && Workable(units)
    modifies store
    ensures Live(p, store) && Onward(old(store.story), store.story)
    ensures failure != Some(ColdFetchInProgress)
    ensures failure != Some(StoreFailed) ==>
              ClaimedDuring(store.story, |old(store.story).acts|, units, config.leaseFor, force, claimed)
    ensures Favorable(store, p, config, today, units) && old(store.blockedUntil).None?
            && (forall u | u in units :: Grantable(old(store.View()), u, force)) ==>
              failure.None? && claimed == units && Renewed(old(store.View()), store.View(), units)
  {
    ghost var start := store.story;
    var ok, nonce;
    ok, nonce, claimed := ClaimSome(store, p, units, config.leaseFor, force);
    if !ok {
      return Some(StoreFailed), [];
    }
    ghost var granted := store.story;
    failure := FetchIfAny(store, p, config, nonce, claimed, today);
    OnwardTransitive(start, granted, store.story);
    ClaimedDuringStays(granted, store.story, |start.acts|, |start.acts|, units, config.leaseFor, force, claimed);
    if store.quiet && forall u | u in units :: Grantable(Present(start), u, force) {
      if Renewed(Present(granted), store.View(), units) {
        GrantedThenRenewed(Present(start), Present(granted), store.View(), units, nonce);
      }
    }
  }

  /** Draws a nonce and claims what can be claimed under it. */
  method ClaimSome(store: Store, p: Provider, units: seq<Unit>, leaseFor: int, force: bool)
    returns (ok: bool, nonce: Uuid, claimed: seq<Unit>)
    requires Live(p, store) && Workable(units)
    modifies store
    ensures Live(p, store) && Onward(old(store.story), store.story)
    ensures ok ==> nonce in store.used && Workable(claimed)
    ensures ok ==> ClaimedDuring(store.story, |old(store.story).acts|, units, leaseFor, force, claimed)
    ensures store.quiet ==> ok && store.now == old(store.now) && store.blockedUntil == old(store.blockedUntil)
    ensures store.quiet && (forall u | u in units :: Grantable(old(store.View()), u, force)) ==>
              claimed == units && Granted(old(store.View()), store.rows, units, nonce)
  {
    ghost var start := store.story;
    OthersRun(store, p, None);
    nonce := 0;
    var fails: bool, unheard: bool := *, *;
    if fails && !store.quiet {
      return false, nonce, [];
    }
    ghost var before := store.story;
    nonce, claimed := ClaimUnits(store, p, units, leaseFor, force);
    JustClaimed(before, Claim(units, nonce, leaseFor, force), |start.acts|, claimed);
    OnwardTransitive(start, before, store.story);
    SelectedIsWorkable(units, claimed);
    return store.quiet || !unheard, nonce, claimed;
  }

  method FetchIfAny(store: Store, p: Provider, config: Config, nonce: Uuid, claimed: seq<Unit>, today: Day)
    returns (failure: Option<Failure>)
    requires Live(p, store) && Workable(claimed) && nonce in store.used
    modifies store
    ensures Live(p, store) && Onward(old(store.story), store.story)
    ensures failure != Some(ColdFetchInProgress)
    ensures Favorable(store, p, config, today, claimed) && AllOwned(old(store.rows), claimed, nonce)
            && old(store.blockedUntil).None? ==>
              failure.None? && Renewed(old(store.View()), store.View(), claimed)
  {
    LaterReflexive(store.View());
    if claimed == [] {
      return None;
    }
    var clock: Time := *;
    failure := FetchClaimed(store, p, config, nonce, claimed, today, clock);
  }

  // ---- resolveForced -------------------------------------------------------

  predicate Newer(x: Option<Time>, y: Option<Time>) {
    x.Some? && (y.None? || x.value > y.value)
  }

  /** Some step of the story from `from` on completes the key. */
  ghost predicate CompletedDuring(s: Story, from: nat, k: Key)
    requires |s.past| > |s.acts|
  {
    exists m :: from <= m < |s.acts| && Completes(s.past[m], s.acts[m], k)
  }

  /** Every unit still has to be done or was completed during the call. */
  ghost predicate DoneOrRemaining(s: Story, from: nat, units: seq<Unit>, remaining: seq<Unit>)
    requires |s.past| > |s.acts|
  {
    forall u | u in units && u !in remaining :: CompletedDuring(s, from, KeyOf(u))
  }

  lemma DoneStays(s: Story, t: Story, from: nat, units: seq<Unit>, remaining: seq<Unit>)
    requires WellTold(s) && WellTold(t) && Onward(s, t) && DoneOrRemaining(s, from, units, remaining)
    ensures DoneOrRemaining(t, from, units, remaining)
  {
    forall u | u in units && u !in remaining ensures CompletedDuring(t, from, KeyOf(u)) {
      var m :| from <= m < |s.acts| && Completes(s.past[m], s.acts[m], KeyOf(u));
      assert t.past[m] == s.past[m] && t.acts[m] == s.acts[m];
    }
  }

  /** A state newer than the baseline shows a completion during the call. */
  lemma NewerMeansCompleted(
    s: Story, base: Story, read: nat, from: nat, u: Unit, st: WorkState, baseline: WorkState)
    requires WellTold(s) && base.past <= s.past && |base.past| <= read + 1
    requires ReadDuring(base, from, u, baseline) && ReadDuring(s, read, u, st)
    requires Newer(st.completed, baseline.completed)
    ensures CompletedDuring(s, from, KeyOf(u))
  {
    var i :| from <= i < |base.past| && StateOf(base.past[i].rows, u, base.past[i].now) == baseline;
    var j :| read <= j < |s.past| && StateOf(s.past[j].rows, u, s.past[j].now) == st;
    assert s.past[i] == base.past[i];
    assert CompletedAt(s.past[i].rows, KeyOf(u)) != CompletedAt(s.past[j].rows, KeyOf(u));
    var m := CompletedBetween(s, KeyOf(u), i, j);
  }

  /** The in-place filter of what remains. */
  method StillPending(units: seq<Unit>, states: map<Key, WorkState>, baseline: map<Key, WorkState>)
    returns (pending: seq<Unit>)
    requires forall u | u in units :: KeyOf(u) in states && KeyOf(u) in baseline
    ensures Selected(units, pending)
    ensures forall u :: u in pending <==>
                        u in units && !Newer(states[KeyOf(u)].completed, baseline[KeyOf(u)].completed)
    ensures pending == [] <==>
            forall u | u in units :: Newer(states[KeyOf(u)].completed, baseline[KeyOf(u)].completed)
  {
    pending := [];
    for i := 0 to |units|
      invariant Selected(units[..i], pending)
      invariant forall u :: u in pending <==>
                            u in units[..i] && !Newer(states[KeyOf(u)].completed, baseline[KeyOf(u)].completed)
    {
      SelectMore(units, i, pending);
      if !Newer(states[KeyOf(units[i])].completed, baseline[KeyOf(units[i])].completed) {
        pending := pending + [units[i]];
      }
    }
    assert units[..|units|] == units;
    assert pending != [] ==> pending[0] in pending;
  }

  /** Some of the units were claimed with force: whatever is not leased or backing off is taken, ready or not. */
  ghost predicate ForcedDuring(s: Story, from: nat, units: seq<Unit>, lease: int)
    requires |s.past| > |s.acts|
  {
    exists us, claimed ::
      us != [] && (forall u | u in us :: u in units) && ClaimedDuring(s, from, us, lease, true, claimed)
  }

  lemma ForcedEarlier(
    s: Story, from: nat, earlier: nat, us: seq<Unit>, units: seq<Unit>, lease: int, claimed: seq<Unit>)
    requires |s.past| > |s.acts| && earlier <= from && us != [] && forall u | u in us :: u in units
    requires ClaimedDuring(s, from, us, lease, true, claimed)
    ensures ForcedDuring(s, earlier, units, lease)
  {
    ClaimedDuringStays(s, s, from, earlier, us, lease, true, claimed);
  }

  /** On success every unit was completed by some provider fetch committed during the call, whoever made it. */
  method ResolveForced(store: Store, p: Provider, config: Config, units: seq<Unit>, today: Day, patience: nat)
    returns (failure: Option<Failure>)
    requires Live(p, store) && Workable(units)
    modifies store
    ensures Live(p, store) && Onward(old(store.story), store.story)
    ensures failure.None? ==> DoneOrRemaining(store.story, |old(store.story).acts|, units, [])
    ensures failure.Some? && failure != Some(StoreFailed) && patience > 0 ==>
              ForcedDuring(store.story, |old(store.story).acts|, units, config.leaseFor)
    ensures patience > 1 && old(ForceAttainable(store, p, config, today, units)) ==> failure.None?
    ensures failure.None? ==> forall u | u in units :: FetchedSince(store.View(), KeyOf(u), old(store.now))
  {
    ghost var start := store.story;
    failure := ForceUnits(store, p, config, units, today, patience);
    if failure.None? {
      assert store.story.past[|start.acts|] == Present(start);
      forall u | u in units ensures FetchedSince(store.View(), KeyOf(u), Present(start).now) {
        CompletedIsFetched(store.story, |start.acts|, KeyOf(u));
      }
    }
  }

  /** Nothing is leased or backing off, or was completed at this very moment, in favorable circumstances. */
  ghost predicate ForceAttainable(store: Store, p: Provider, config: Config, today: Day, units: seq<Unit>)
    reads store
  {
    && Favorable(store, p, config, today, units) && store.blockedUntil.None?
    && forall u | u in units ::
         Grantable(store.View(), u, true) && Newer(Some(store.now), CompletedAt(store.rows, KeyOf(u)))
  }

  /** The loop of the forced refresh. */
  method ForceUnits(store: Store, p: Provider, config: Config, units: seq<Unit>, today: Day, patience: nat)
    returns (failure: Option<Failure>)
    requires Live(p, store) && Workable(units)
    modifies store
    ensures Live(p, store) && Onward(old(store.story), store.story)
    ensures failure.None? ==> DoneOrRemaining(store.story, |old(store.story).acts|, units, [])
    ensures failure.Some? && failure != Some(StoreFailed) && patience > 0 ==>
              ForcedDuring(store.story, |old(store.story).acts|, units, config.leaseFor)
    ensures patience > 1 && old(ForceAttainable(store, p, config, today, units)) ==> failure.None?
  {
    ghost var start := store.story;
    ghost var attainable := ForceAttainable(store, p, config, today, units);
    var ok, baseline := States(store, p, units);
    if !ok {
      return Some(StoreFailed);
    }
    if attainable {
      BaselineIsOlder(store, p, config, today, units, baseline);
    }
    ghost var base := store.story;
    LaterReflexive(store.View());
    var remaining := units;
    for round := 0 to patience
      invariant Live(p, store) && Onward(start, store.story) && Onward(base, store.story)
      invariant Workable(remaining) && (forall u | u in remaining :: u in units)
      invariant DoneOrRemaining(store.story, |start.acts|, units, remaining)
      invariant attainable ==> round <= 1 && AllOlder(remaining, baseline, store.now)
      invariant attainable && round == 0 ==> ForceAttainable(store, p, config, today, remaining)
      invariant attainable && round > 0 ==> store.quiet && AllDoneAt(store.View(), remaining)
      invariant round > 0 ==> ForcedDuring(store.story, |start.acts|, units, config.leaseFor)
    {
      failure, remaining := ForceRound(store, p, config, units, remaining, baseline, today, start, base);
      if failure.Some? || remaining == [] {
        return;
      }
    }
    return if remaining == [] then None else Some(ContextDone);
  }

  /** One round: drop what has been completed meanwhile, and force the rest. */
  method ForceRound(
    store: Store, p: Provider, config: Config, units: seq<Unit>, remaining: seq<Unit>, baseline: map<Key, WorkState>,
    today: Day, ghost start: Story, ghost base: Story) returns (failure: Option<Failure>, left: seq<Unit>)
    requires Live(p, store) && Onward(start, store.story) && WellTold(base) && Onward(base, store.story)
    requires Workable(remaining) && forall u | u in remaining :: u in units
    requires AllReadDuring(base, |start.acts|, units, baseline)
    requires DoneOrRemaining(store.story, |start.acts|, units, remaining)
    modifies store
    ensures Live(p, store) && Onward(start, store.story) && Onward(base, store.story)
    ensures failure.None? ==> Workable(left) && (forall u | u in left :: u in units)
    ensures failure.None? ==> DoneOrRemaining(store.story, |start.acts|, units, left)
    ensures failure != Some(StoreFailed) && left != [] ==>
              ForcedDuring(store.story, |start.acts|, units, config.leaseFor)
    ensures failure.Some? && failure != Some(StoreFailed) ==> left != []
    ensures old(ForceAttainable(store, p, config, today, remaining))
            && AllOlder(remaining, baseline, old(store.now)) ==>
              failure.None? && AllDoneAt(store.View(), left) && AllOlder(left, baseline, store.now)
    ensures store.quiet && AllDoneAt(old(store.View()), remaining) && AllOlder(remaining, baseline, old(store.now)) ==>
              failure.None? && left == []
  {
    if remaining == [] {
      LaterReflexive(store.View());
      return None, [];
    }
    if AllDoneAt(store.View(), remaining) && AllOlder(remaining, baseline, store.now) {
      DoneIsNewer(store.View(), remaining, baseline);
    }
    var ok;
    ok, left := Recheck(store, p, units, remaining, baseline, start, base);
    if !ok {
      return Some(StoreFailed), [];
    }
    failure := None;
    if left != [] {
      failure := ForceRemaining(store, p, config, units, left, today, start, base);
    }
  }

  /** Claims what remains by force and fetches what it got. */
  method ForceRemaining(
    store: Store, p: Provider, config: Config, units: seq<Unit>, remaining: seq<Unit>, today: Day,
    ghost start: Story, ghost base: Story) returns (failure: Option<Failure>)
    requires Live(p, store) && WellTold(base) && Onward(start, store.story) && Onward(base, store.story)
    requires Workable(remaining) && remaining != [] && forall u | u in remaining :: u in units
    requires DoneOrRemaining(store.story, |start.acts|, units, remaining)
    modifies store
    ensures Live(p, store) && Onward(start, store.story) && Onward(base, store.story)
    ensures DoneOrRemaining(store.story, |start.acts|, units, remaining)
    ensures failure != Some(StoreFailed) ==> ForcedDuring(store.story, |start.acts|, units, config.leaseFor)
    ensures old(ForceAttainable(store, p, config, today, remaining)) ==>
              failure.None? && store.now == old(store.now) && AllDoneAt(store.View(), remaining)
  {
    ghost var before := store.story;
    var claimed;
    failure, claimed := ClaimAndFetch(store, p, config, remaining, today, true);
    OnwardTransitive(start, before, store.story);
    OnwardTransitive(base, before, store.story);
    DoneStays(before, store.story, |start.acts|, units, remaining);
    if failure != Some(StoreFailed) {
      ForcedEarlier(store.story, |before.acts|, |start.acts|, remaining, units, config.leaseFor, claimed);
    }
  }

  /** Each unit has been completed later than its baseline. */
  ghost predicate AllNewer(rows: map<Key, Row>, units: seq<Unit>, baseline: map<Key, WorkState>) {
    forall u | u in units :: KeyOf(u) in baseline && Newer(CompletedAt(rows, KeyOf(u)), baseline[KeyOf(u)].completed)
  }

  /** Each baseline is of an earlier time than this. */
  ghost predicate AllOlder(units: seq<Unit>, baseline: map<Key, WorkState>, now: Time) {
    forall u | u in units :: KeyOf(u) in baseline && Newer(Some(now), baseline[KeyOf(u)].completed)
  }

  lemma DoneIsNewer(c: Cache, units: seq<Unit>, baseline: map<Key, WorkState>)
    requires AllDoneAt(c, units) && AllOlder(units, baseline, c.now)
    ensures AllNewer(c.rows, units, baseline)
  {
    forall u | u in units ensures Newer(CompletedAt(c.rows, KeyOf(u)), baseline[KeyOf(u)].completed) {
      assert DoneAt(c, u);
    }
  }

  /** The baseline of units that may be forced is what their rows say now. */
  lemma BaselineIsOlder(
    store: Store, p: Provider, config: Config, today: Day, units: seq<Unit>, baseline: map<Key, WorkState>)
    requires store.Valid() && ForceAttainable(store, p, config, today, units)
    requires AllReadDuring(store.story, |store.story.acts|, units, baseline)
    ensures AllOlder(units, baseline, store.now)
  {
    ReadAtOnce(store.story, units, baseline);
    forall u | u in units ensures KeyOf(u) in baseline && Newer(Some(store.now), baseline[KeyOf(u)].completed) {
      assert Newer(Some(store.now), CompletedAt(store.rows, KeyOf(u)));
    }
  }

  /** Drops the units whose completion is newer than the baseline. */
  method Recheck(
    store: Store, p: Provider, units: seq<Unit>, remaining: seq<Unit>, baseline: map<Key, WorkState>,
    ghost start: Story, ghost base: Story) returns (ok: bool, pending: seq<Unit>)
    requires Live(p, store) && Onward(start, store.story) && WellTold(base) && Onward(base, store.story)
    requires Workable(remaining) && forall u | u in remaining :: u in units
    requires AllReadDuring(base, |start.acts|, units, baseline)
    requires DoneOrRemaining(store.story, |start.acts|, units, remaining)
    modifies store
    ensures Live(p, store) && Onward(start, store.story) && Onward(base, store.story)
    ensures ok ==> Workable(pending) && (forall u | u in pending :: u in remaining)
    ensures ok ==> DoneOrRemaining(store.story, |start.acts|, units, pending)
    ensures store.quiet ==> ok && store.story == old(store.story) && store.blockedUntil == old(store.blockedUntil)
    ensures store.quiet ==> (pending == [] <==> AllNewer(store.rows, remaining, baseline))
  {
    ghost var before := store.story;
    var states;
    ok, states := States(store, p, remaining);
    if store.quiet {
      ReadAtOnce(before, remaining, states);
    }
    OnwardTransitive(start, before, store.story);
    OnwardTransitive(base, before, store.story);
    if !ok {
      return false, [];
    }
    pending := StillPending(remaining, states, baseline);
    SelectedIsWorkable(remaining, pending);
    DoneStays(before, store.story, |start.acts|, units, remaining);
    forall u | u in units && u !in pending ensures CompletedDuring(store.story, |start.acts|, KeyOf(u)) {
      if u in remaining {
        NewerMeansCompleted(
          store.story, base, |before.acts|, |start.acts|, u, states[KeyOf(u)], baseline[KeyOf(u)]);
      }
    }
  }

  /** What a completion during the call leaves: a committed fetch since it began. */
  lemma CompletedIsFetched(s: Story, from: nat, k: Key)
    requires WellTold(s) && from < |s.past| && CompletedDuring(s, from, k)
    ensures FetchedSince(Present(s), k, s.past[from].now)
  {
    var m :| from <= m < |s.acts| && Completes(s.past[m], s.acts[m], k);
    assert s.past[m + 1] == Next(s.past[m], s.acts[m]);
    CompletionIsFetched(s.past[m], s.acts[m], k);
    TimeGrowsAlong(s, from, m);
    TimeGrowsAlong(s, m + 1, |s.past| - 1);
    assert (k, s.past[m].now) in Present(s).fetched;
  }

  lemma CompletionIsFetched(c: Cache, e: Event, k: Key)
    requires Completes(c, e, k)
    ensures (k, c.now) in Next(c, e).fetched && Next(c, e).now == c.now
  {
  }

  lemma {:induction false} TimeGrowsAlong(s: Story, i: nat, j: nat)
    requires WellTold(s) && i <= j < |s.past|
    ensures s.past[i].now <= s.past[j].now && s.past[i].fetched <= s.past[j].fetched
    decreases j
  {
    if i < j {
      TimeGrowsAlong(s, i, j - 1);
      assert s.past[j - 1 + 1] == Next(s.past[j - 1], s.acts[j - 1]);
    }
  }
}
