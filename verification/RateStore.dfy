/**
The exchange-rate store as the adapter implements it: per-unit statements in
loops over mutable coordination rows and an append-only observation log. Each
method is proved to be exactly the transaction of the same name in the cache
model, and to add it to the story of the store; a transaction that fails leaves
every row and the log as they were.
 */
module RateStore {
  import opened Base
  import opened Ordering
  import opened RateTypes
  import opened RateRows
  import opened RateLog
  import opened RateCache
  import opened RateTheorems
  import opened RateStory

  datatype WorkState = WorkState(ready: bool, lease: Option<Time>, completed: Option<Time>)

  function StateOf(rows: map<Key, Row>, u: Unit, now: Time): WorkState {
    if KeyOf(u) !in rows then WorkState(false, None, None)
    else var r := rows[KeyOf(u)]; WorkState(Ready(r, u, now), r.lease, r.completed)
  }

  /** ORDER BY series_id, observed_on. */
  predicate RowLe(a: Observation, b: Observation) {
    if a.series.id != b.series.id then LexLe(a.series.id, b.series.id) else a.date <= b.date
  }

  class Store {
    const freshFor: int
    const quiet: bool            // nobody else uses the store, and none of its statements fails
    var rows: map<Key, Row>
    var log: seq<Observation>
    var now: Time
    var blockedUntil: Option<Time>
    var used: set<Uuid>          // nonces drawn so far, by any instance
    ghost var closed: set<Key>
    ghost var fetched: set<(Key, Time)>
    ghost var story: Story

    constructor (freshFor: int, now: Time, quiet: bool)
      requires freshFor >= 1
      ensures Valid() && RateCache.Empty(View()) && blockedUntil == None && story.acts == []
    {
      this.freshFor, this.now, this.quiet := freshFor, now, quiet;
      rows, log, blockedUntil := map[], [], None;
      used, closed, fetched := {}, {}, {};
      story := Story([Cache(map[], [], now, freshFor, {}, {}, {})], []);
    }

    ghost function View(): Cache
      reads this
    {
      Cache(rows, log, now, freshFor, used, closed, fetched)
    }

    /** The story is well told and ends in the present state. */
    ghost predicate Valid()
      reads this
    {
      WellTold(story) && Present(story) == View()
    }

    /** The clock moves on. */
    method Advance(to: Time)
      requires Valid()
      modifies this`now, this`story
      ensures Valid() && story == Told(old(story), Tick(to))
    {
      if now <= to {
        now := to;
      }
      ToldIsWellTold(story, Tick(to));
      story := Told(story, Tick(to));
    }

    /** The newest observation of a series, under its current value. */
    method NewestObservation(s: Series) returns (newest: Option<Observation>)
      ensures newest.None? <==> !Observed(log, s)
      ensures newest.Some? ==>
                && newest.value.series == s && newest.value in log
                && Current(log, s, newest.value.date) == Some(newest.value.value)
                && forall o | o in log && o.series == s :: o.date <= newest.value.date
    {
      newest := None;
      for i := 0 to |log|
        invariant newest.None? ==> forall o | o in log[..i] :: o.series != s
        invariant newest.Some? ==> newest.value.series == s && newest.value in log[..i]
        invariant newest.Some? ==> forall o | o in log[..i] && o.series == s :: o.date <= newest.value.date
      {
        assert log[..i + 1] == log[..i] + [log[i]];
        if log[i].series == s && (newest.None? || newest.value.date <= log[i].date) {
          newest := Some(log[i]);
        }
      }
      assert log[..|log|] == log;
      if newest.Some? {
        CurrentIsLogged(log, s, newest.value.date);
        newest := Some(newest.value.(value := Current(log, s, newest.value.date).value));
      }
    }

    method Claim(units: seq<Unit>, nonce: Uuid, lease: int, force: bool) returns (claimed: seq<Unit>)
      requires Valid()
      modifies this`rows, this`used, this`story
      ensures Valid() && story == Told(old(story), RateCache.Claim(units, nonce, lease, force))
      ensures claimed == ClaimAll(old(rows), units, nonce, now, lease, force).1
    {
      var work;
      work, claimed := ClaimRows(units, nonce, lease, force);
      rows := work;
      used := used + {nonce};
      ToldIsWellTold(story, RateCache.Claim(units, nonce, lease, force));
      story := Told(story, RateCache.Claim(units, nonce, lease, force));
    }

    /** The statements of the claiming transaction, up to its commit. */
    method ClaimRows(units: seq<Unit>, nonce: Uuid, lease: int, force: bool)
      returns (work: map<Key, Row>, claimed: seq<Unit>)
      ensures (work, claimed) == ClaimAll(rows, units, nonce, now, lease, force)
    {
      work, claimed := rows, [];
      for i := 0 to |units|
        invariant (work, claimed) == ClaimAll(rows, units[..i], nonce, now, lease, force)
      {
        var u := units[i];
        assert units[..i + 1][..i] == units[..i];
        if KeyOf(u) !in work {
          work := work[KeyOf(u) := NewRow(u, now)];
        }
        if Claimable(work[KeyOf(u)], u, now, force) {
          work := work[KeyOf(u) := Leased(work[KeyOf(u)], nonce, now + lease)];
          claimed := claimed + [u];
        }
      }
      assert units[..|units|] == units;
    }

    method Complete(nonce: Uuid, units: seq<Unit>, req: FetchRequest, obs: seq<ProviderObservation>) returns (ok: bool)
      requires Valid()
      modifies this`rows, this`log, this`closed, this`fetched, this`story
      ensures Valid() && story == Told(old(story), RateCache.Complete(nonce, units, req, obs))
      ensures ok <==> CanComplete(old(View()), nonce, units, req, obs)
    {
      var newRows, newLog;
      ok, newRows, newLog := CheckedCompletion(nonce, units, req, obs);
      ghost var before := View();
      if ok {
        rows, log := newRows, newLog;
        closed := closed + ClosedBy(units);
        fetched := fetched + (set k | k in Keys(units) :: (k, now));
      }
      assert View() == Finished(before, nonce, units, req, obs);
      ToldIsWellTold(story, RateCache.Complete(nonce, units, req, obs));
      story := Told(story, RateCache.Complete(nonce, units, req, obs));
    }

    /** The statements of the completing transaction, up to its commit. */
    method CheckedCompletion(nonce: Uuid, units: seq<Unit>, req: FetchRequest, obs: seq<ProviderObservation>)
      returns (ok: bool, newRows: map<Key, Row>, newLog: seq<Observation>)
      ensures ok <==> CanComplete(View(), nonce, units, req, obs)
      ensures ok ==> newRows == CompleteRows(rows, units, req.to, now, freshFor)
      ensures ok ==> forall o | o in obs :: SeriesFor(units, o.id).Some?
      ensures ok ==> newLog == RecordAll(log, Imports(units, obs))
    {
      newRows, newLog := rows, log;
      if units == [] {
        return false, rows, log;
      }
      for i := 0 to |units|
        invariant forall j | 0 <= j < i :: Owned(rows, KeyOf(units[j]), nonce)
      {
        if !Owned(rows, KeyOf(units[i]), nonce) {
          assert units[i] in units;
          return false, rows, log;
        }
      }
      var stored;
      stored, newLog := ImportObservations(units, req, obs);
      if !stored {
        return false, rows, log;
      }
      ok, newRows := FinishRows(nonce, units, req.to);
    }

    /** Appends what differs from the current revisions; any unstorable observation fails the whole import. */
    method ImportObservations(units: seq<Unit>, req: FetchRequest, obs: seq<ProviderObservation>)
      returns (ok: bool, newLog: seq<Observation>)
      ensures ok <==> forall o | o in obs :: Storable(units, req, o)
      ensures ok ==> forall o | o in obs :: SeriesFor(units, o.id).Some?
      ensures ok ==> newLog == RecordAll(log, Imports(units, obs))
    {
      newLog := log;
      for i := 0 to |obs|
        invariant forall o | o in obs[..i] :: Storable(units, req, o)
        invariant newLog == RecordAll(log, Imports(units, obs[..i]))
      {
        var o := obs[i];
        if !Storable(units, req, o) {
          assert o in obs;
          return false, log;
        }
        assert obs[..i + 1] == obs[..i] + [o];
        var series := SeriesFor(units, o.id).value;
        ImportsMore(log, units, obs[..i], o);
        if Current(newLog, series, o.date) != Some(o.value) {
          newLog := newLog + [Observation(series, o.date, o.value)];
        }
      }
      assert obs[..|obs|] == obs;
      return true, newLog;
    }

    /** The per-unit updates; a unit listed twice finds its lease already cleared. */
    method FinishRows(nonce: Uuid, units: seq<Unit>, through: Day) returns (ok: bool, newRows: map<Key, Row>)
      requires forall u | u in units :: Owned(rows, KeyOf(u), nonce)
      ensures ok <==> forall i, j | 0 <= i < j < |units| :: KeyOf(units[i]) != KeyOf(units[j])
      ensures ok ==> newRows == CompleteRows(rows, units, through, now, freshFor)
    {
      newRows := rows;
      for i := 0 to |units|
        invariant forall j, k | 0 <= j < k < i :: KeyOf(units[j]) != KeyOf(units[k])
        invariant newRows == CompleteRows(rows, units[..i], through, now, freshFor)
      {
        var k := KeyOf(units[i]);
        assert units[i] in units;
        HeldUntilCompleted(rows, units, i, nonce, through, now, freshFor);
        if newRows[k].nonce != Some(nonce) {
          return false, rows;
        }
        CompleteRowsStep(rows, units, i, through, now, freshFor);
        newRows := newRows[k := Completed(newRows[k], units[i], through, now, freshFor)];
      }
      assert units[..|units|] == units;
      return true, newRows;
    }

    /** One statement of Fail, a transaction of its own: releases the row if it still carries the nonce. */
    method FailUnit(nonce: Uuid, u: Unit, delay: int) returns (ok: bool)
      requires Valid()
      modifies this`rows, this`story
      ensures Valid() && story == Told(old(story), RateCache.FailUnit(nonce, u, delay))
      ensures ok <==> Owned(old(rows), KeyOf(u), nonce)
    {
      ok := Owned(rows, KeyOf(u), nonce);
      if ok {
        rows := rows[KeyOf(u) := Released(rows[KeyOf(u)], now + delay)];
      }
      ToldIsWellTold(story, RateCache.FailUnit(nonce, u, delay));
      story := Told(story, RateCache.FailUnit(nonce, u, delay));
    }

    method BlockProviderUntil(until: Time)
      modifies this`blockedUntil
      ensures blockedUntil.Some? && blockedUntil.value >= until
      ensures old(blockedUntil).Some? ==> blockedUntil.value >= old(blockedUntil).value
      ensures blockedUntil.value == until || blockedUntil == old(blockedUntil)
    {
      if blockedUntil.None? || blockedUntil.value < until {
        blockedUntil := Some(until);
      }
    }

    /** The current rows of the requested series and days, by series identifier and day. */
    method RangeObservations(series: seq<Series>, from: Day, until: Day) returns (found: seq<Observation>)
      ensures found == Sort(RowLe, RangeRows(log, series, from, until))
    {
      found := CurrentRows(series, from, until);
      found := Sort(RowLe, found);
    }

    /** The same rows, series by series. */
    method CurrentRows(series: seq<Series>, from: Day, until: Day) returns (found: seq<Observation>)
      ensures found == RangeRows(log, series, from, until)
    {
      found := [];
      for i := 0 to |series|
        invariant found + RangeRows(log, series[i..], from, until) == RangeRows(log, series, from, until)
      {
        var ofSeries := LoggedDays(log, series[i], from, until);
        assert series[i..][1..] == series[i + 1..];
        found := found + ofSeries;
      }
    }
  }

  /** Importing one more observation records it on the log so far. */
  lemma ImportsMore(log: seq<Observation>, units: seq<Unit>, obs: seq<ProviderObservation>, o: ProviderObservation)
    requires (forall x | x in obs :: SeriesFor(units, x.id).Some?) && SeriesFor(units, o.id).Some?
    ensures RecordAll(log, Imports(units, obs + [o])) ==
            Record(RecordAll(log, Imports(units, obs)), Observation(SeriesFor(units, o.id).value, o.date, o.value))
  {
    var next := Imports(units, obs + [o]);
    assert next[..|next| - 1] == Imports(units, obs);
  }

  /** A held row still carries its nonce exactly when no unit before this one has its key. */
  lemma HeldUntilCompleted(
    rows: map<Key, Row>, units: seq<Unit>, i: nat, nonce: Uuid, through: Day, now: Time, freshFor: int)
    requires i < |units| && Owned(rows, KeyOf(units[i]), nonce)
    ensures CompleteRows(rows, units[..i], through, now, freshFor)[KeyOf(units[i])].nonce == Some(nonce) <==>
            forall j | 0 <= j < i :: KeyOf(units[j]) != KeyOf(units[i])
  {
    var k := KeyOf(units[i]);
    UnitAtExact(units[..i], k);
    if UnitAt(units[..i], k).Some? {
      var j :| 0 <= j < i && units[..i][j] == UnitAt(units[..i], k).value;
      assert KeyOf(units[j]) == k;
    } else {
      forall j | 0 <= j < i ensures KeyOf(units[j]) != k {
        assert units[j] in units[..i];
      }
    }
  }

  /** Completing one more unit, whose key has not occurred yet. */
  lemma CompleteRowsStep(rows: map<Key, Row>, units: seq<Unit>, i: nat, through: Day, now: Time, freshFor: int)
    requires i < |units| && KeyOf(units[i]) in rows && forall j | 0 <= j < i :: KeyOf(units[j]) != KeyOf(units[i])
    ensures CompleteRows(rows, units[..i], through, now, freshFor)[KeyOf(units[i])] == rows[KeyOf(units[i])]
    ensures var k := KeyOf(units[i]);
            CompleteRows(rows, units[..i + 1], through, now, freshFor) ==
            CompleteRows(rows, units[..i], through, now, freshFor)
              [k := Completed(rows[k], units[i], through, now, freshFor)]
  {
    UnitAtExact(units[..i], KeyOf(units[i]));
    assert units[..i + 1][..i] == units[..i];
  }
}
