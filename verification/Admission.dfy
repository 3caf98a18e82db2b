/**
Fixed-window admission: one row per principal holding the minute it last
served and how many requests of that minute it admitted.
 */
module Admission {
  import opened Base

  const REQUESTS_PER_MINUTE := 100
  const SECOND := 1_000_000
  const MINUTE := 60 * SECOND

  // `minute` is window_started_at in whole minutes.
  datatype Window = Window(minute: int, count: int)

  function MinuteOf(t: Time): int {
    t / MINUTE
  }

  /** The upsert: the row it leaves, and whether a row was inserted or updated. */
  function Admit(row: Option<Window>, t: Time): (Option<Window>, bool) {
    if row.None? || row.value.minute != MinuteOf(t) then (Some(Window(MinuteOf(t), 1)), true)
    else if row.value.count < REQUESTS_PER_MINUTE then (Some(Window(MinuteOf(t), row.value.count + 1)), true)
    else (row, false)
  }

  function CeilDiv(n: int, d: int): int
    requires d > 0
  {
    -((-n) / d)
  }

  /** Seconds until the next window, rounded up, at least one. */
  function RetryAfter(t: Time): int {
    Max(1, CeilDiv(MinuteOf(t) * MINUTE + MINUTE - t, SECOND))
  }

  /** The advised wait is the least number of whole seconds that reaches the next window, and at most sixty. */
  lemma RetryAfterBounds(t: Time)
    ensures 1 <= RetryAfter(t) <= 60
    ensures (RetryAfter(t) - 1) * SECOND < (t / MINUTE + 1) * MINUTE - t <= RetryAfter(t) * SECOND
    ensures MinuteOf(t + RetryAfter(t) * SECOND) == MinuteOf(t) + 1
    ensures MinuteOf(t + (RetryAfter(t) - 1) * SECOND) == MinuteOf(t)
  {
    var left := MinuteOf(t) * MINUTE + MINUTE - t;
    assert 0 < left <= MINUTE;
    assert (CeilDiv(left, SECOND) - 1) * SECOND < left <= CeilDiv(left, SECOND) * SECOND;
    var later := t + RetryAfter(t) * SECOND;
    assert (MinuteOf(t) + 1) * MINUTE <= later < (MinuteOf(t) + 1) * MINUTE + SECOND;
  }

  class RateLimits {
    var rows: map<Uuid, Window>

    function RowOf(principal: Uuid): Option<Window>
      reads this
    {
      if principal in rows then Some(rows[principal]) else None
    }

    method AdmitRequest(principal: Uuid, t: Time) returns (admitted: bool, retryAfter: int)
      modifies this
      ensures (RowOf(principal), admitted) == Admit(old(RowOf(principal)), t)
      ensures forall other | other != principal :: RowOf(other) == old(RowOf(other))
      ensures 1 <= retryAfter <= 60
      ensures (retryAfter - 1) * SECOND < (t / MINUTE + 1) * MINUTE - t <= retryAfter * SECOND
    {
      var (row, ok) := Admit(RowOf(principal), t);
      RetryAfterBounds(t);
      rows := rows[principal := row.value];
      return ok, RetryAfter(t);
    }
  }

  // ---- sequences of requests by one principal ------------------------------

  function RowAfter(ts: seq<Time>): Option<Window> {
    if ts == [] then None else Admit(RowAfter(ts[..|ts| - 1]), ts[|ts| - 1]).0
  }

  /** Whether request `i` is admitted. */
  predicate Admitted(ts: seq<Time>, i: nat)
    requires i < |ts|
  {
    Admit(RowAfter(ts[..i]), ts[i]).1
  }

  /** How many of the requests from `a` up to `b` are admitted. */
  function AdmittedBetween(ts: seq<Time>, a: nat, b: nat): nat
    requires a <= b <= |ts|
  {
    if a == b then 0 else AdmittedBetween(ts, a, b - 1) + (if Admitted(ts, b - 1) then 1 else 0)
  }

  lemma RowHasLastMinute(ts: seq<Time>)
    ensures ts != [] ==> RowAfter(ts).Some? && RowAfter(ts).value.minute == MinuteOf(ts[|ts| - 1])
  {
  }

  ghost predicate SameMinute(ts: seq<Time>, a: nat, b: nat, m: int)
    requires a <= b <= |ts|
  {
    forall i | a <= i < b :: MinuteOf(ts[i]) == m
  }

  lemma {:induction false} RunAdmits(ts: seq<Time>, a: nat, b: nat, m: int)
    requires a < b <= |ts| && SameMinute(ts, a, b, m)
    requires a == 0 || MinuteOf(ts[a - 1]) != m
    ensures AdmittedBetween(ts, a, b) == Min(b - a, REQUESTS_PER_MINUTE)
    ensures RowAfter(ts[..b]) == Some(Window(m, Min(b - a, REQUESTS_PER_MINUTE)))
    decreases b
  {
    assert ts[..b][..b - 1] == ts[..b - 1] && ts[..b][b - 1] == ts[b - 1];
    if b - 1 == a {
      RowHasLastMinute(ts[..a]);
      assert a > 0 ==> ts[..a][a - 1] == ts[a - 1];
      assert AdmittedBetween(ts, a, a) == 0;
    } else {
      RunAdmits(ts, a, b - 1, m);
    }
  }

  /** A maximal run of requests stamped with one minute. */
  ghost predicate MaximalRun(ts: seq<Time>, a: nat, b: nat, m: int) {
    && a < b <= |ts| && SameMinute(ts, a, b, m)
    && (a == 0 || MinuteOf(ts[a - 1]) != m)
    && (b == |ts| || MinuteOf(ts[b]) != m)
  }

  /** Whatever the order of the stamps, each maximal run of n requests of one minute admits exactly min(n, 100). */
  lemma EachRunAdmitsExactly(ts: seq<Time>, a: nat, b: nat, m: int)
    requires MaximalRun(ts, a, b, m)
    ensures AdmittedBetween(ts, a, b) == Min(b - a, REQUESTS_PER_MINUTE)
  {
    RunAdmits(ts, a, b, m);
  }

  // ---- every minute, whatever the order of the stamps ----------------------

  /** Requests of minute `m`, and those of them that are admitted. */
  function RequestsIn(ts: seq<Time>, m: int): nat {
    if ts == [] then 0 else RequestsIn(ts[..|ts| - 1], m) + (if MinuteOf(ts[|ts| - 1]) == m then 1 else 0)
  }

  function AdmittedIn(ts: seq<Time>, m: int): nat {
    if ts == [] then 0
    else
      AdmittedIn(ts[..|ts| - 1], m)
      + (if MinuteOf(ts[|ts| - 1]) == m && Admit(RowAfter(ts[..|ts| - 1]), ts[|ts| - 1]).1 then 1 else 0)
  }

  /** The length of the run of minute `m` that the stamps end with. */
  function LastRun(ts: seq<Time>, m: int): (n: nat)
    ensures n <= |ts|
  {
    if ts == [] || MinuteOf(ts[|ts| - 1]) != m then 0 else LastRun(ts[..|ts| - 1], m) + 1
  }

  /** The sum, over the maximal runs of minute `m`, of the run's length or the allowance, whichever is less. */
  function Quota(ts: seq<Time>, m: int): nat {
    if ts == [] then 0
    else if MinuteOf(ts[|ts| - 1]) != m then Quota(ts[..|ts| - 1], m)
    else Min(LastRun(ts, m), REQUESTS_PER_MINUTE) + Quota(ts[..|ts| - LastRun(ts, m)], m)
  }

  /** The row counts the requests of the last run, up to the allowance. */
  lemma {:induction false} RowCountsLastRun(ts: seq<Time>, m: int)
    requires ts != [] && MinuteOf(ts[|ts| - 1]) == m
    ensures RowAfter(ts) == Some(Window(m, Min(LastRun(ts, m), REQUESTS_PER_MINUTE)))
  {
    var prior := ts[..|ts| - 1];
    if prior != [] && MinuteOf(prior[|prior| - 1]) == m {
      RowCountsLastRun(prior, m);
    } else {
      RowHasLastMinute(prior);
    }
  }

  /** Appending a request of the minute lengthens its last run. */
  lemma QuotaStep(ts: seq<Time>, m: int)
    requires ts != [] && MinuteOf(ts[|ts| - 1]) == m
    ensures Quota(ts, m) == Quota(ts[..|ts| - 1], m) + (if LastRun(ts, m) <= REQUESTS_PER_MINUTE then 1 else 0)
  {
    var prior, n := ts[..|ts| - 1], LastRun(ts, m);
    assert prior[..|prior| - (n - 1)] == ts[..|ts| - n];
    assert n == LastRun(prior, m) + 1;
    if prior != [] && MinuteOf(prior[|prior| - 1]) == m {
      assert Quota(prior, m) == Min(n - 1, REQUESTS_PER_MINUTE) + Quota(prior[..|prior| - (n - 1)], m);
    } else {
      assert n == 1 && prior[..|prior|] == prior;
    }
  }

  /** For every sequence of stamps, a minute admits exactly the sum over its maximal runs of min(length, 100). */
  lemma {:induction false} EveryMinuteAdmitsItsQuota(ts: seq<Time>, m: int)
    ensures AdmittedIn(ts, m) == Quota(ts, m)
  {
    if ts != [] {
      var prior, t := ts[..|ts| - 1], ts[|ts| - 1];
      EveryMinuteAdmitsItsQuota(prior, m);
      if MinuteOf(t) == m {
        QuotaStep(ts, m);
        if prior != [] && MinuteOf(prior[|prior| - 1]) == m {
          RowCountsLastRun(prior, m);
        } else {
          RowHasLastMinute(prior);
        }
      }
    }
  }

  lemma {:induction false} QuotaBounds(ts: seq<Time>, m: int)
    ensures Min(RequestsIn(ts, m), REQUESTS_PER_MINUTE) <= Quota(ts, m) <= RequestsIn(ts, m)
  {
    if ts != [] {
      QuotaBounds(ts[..|ts| - 1], m);
      if MinuteOf(ts[|ts| - 1]) == m {
        var n := LastRun(ts, m);
        QuotaStep(ts, m);
        QuotaBounds(ts[..|ts| - n], m);
      }
    }
  }

  lemma {:induction false} RequestsBeforeLastRun(ts: seq<Time>, m: int)
    ensures RequestsIn(ts, m) == RequestsIn(ts[..|ts| - LastRun(ts, m)], m) + LastRun(ts, m)
  {
    if LastRun(ts, m) == 0 {
      assert ts[..|ts|] == ts;
    } else {
      var prior := ts[..|ts| - 1];
      RequestsBeforeLastRun(prior, m);
      assert prior[..|prior| - LastRun(prior, m)] == ts[..|ts| - LastRun(ts, m)];
    }
  }

  /** The requests of minute `m` follow one another without a request of another minute between them. */
  ghost predicate OneRun(ts: seq<Time>, m: int) {
    forall i, j, k | 0 <= i < j < k < |ts| && MinuteOf(ts[i]) == m && MinuteOf(ts[k]) == m :: MinuteOf(ts[j]) == m
  }

  lemma {:induction false} RequestedSomewhere(ts: seq<Time>, m: int)
    ensures RequestsIn(ts, m) > 0 <==> exists i :: 0 <= i < |ts| && MinuteOf(ts[i]) == m
  {
    if ts != [] {
      var prior := ts[..|ts| - 1];
      RequestedSomewhere(prior, m);
      if i :| 0 <= i < |ts| && MinuteOf(ts[i]) == m && i < |prior| {
        assert MinuteOf(prior[i]) == m;
      }
    }
  }

  lemma {:induction false} LastRunIsMaximal(ts: seq<Time>, m: int)
    ensures forall i | |ts| - LastRun(ts, m) <= i < |ts| :: MinuteOf(ts[i]) == m
    ensures LastRun(ts, m) < |ts| ==> MinuteOf(ts[|ts| - LastRun(ts, m) - 1]) != m
  {
    if LastRun(ts, m) > 0 {
      LastRunIsMaximal(ts[..|ts| - 1], m);
    }
  }

  /** Stamps that end in minute `m` hold one run of it exactly when nothing of it lies before the last run. */
  lemma OneRunIsLast(ts: seq<Time>, m: int)
    requires LastRun(ts, m) > 0
    ensures OneRun(ts, m) <==> RequestsIn(ts[..|ts| - LastRun(ts, m)], m) == 0
  {
    var head := ts[..|ts| - LastRun(ts, m)];
    LastRunIsMaximal(ts, m);
    RequestedSomewhere(head, m);
    if RequestsIn(head, m) > 0 {
      var i :| 0 <= i < |head| && MinuteOf(head[i]) == m;
      assert MinuteOf(ts[i]) == m && i < |head| - 1 && MinuteOf(ts[|head| - 1]) != m && MinuteOf(ts[|ts| - 1]) == m;
    } else {
      forall i | 0 <= i < |head| ensures MinuteOf(ts[i]) != m {
        assert head[i] == ts[i];
      }
    }
  }

  lemma OneRunOfPrefix(ts: seq<Time>, m: int)
    requires ts != [] && MinuteOf(ts[|ts| - 1]) != m
    ensures OneRun(ts, m) <==> OneRun(ts[..|ts| - 1], m)
  {
    var prior := ts[..|ts| - 1];
    assert forall i | 0 <= i < |prior| :: prior[i] == ts[i];
  }

  /**
  Exactly when a minute keeps its allowance, for every sequence of stamps: when
  the sum over its runs does, that is, when no more than the allowance was
  requested in it or its requests form a single run.
   */
  lemma {:induction false} AllowanceKeptExactly(ts: seq<Time>, m: int)
    ensures AdmittedIn(ts, m) <= REQUESTS_PER_MINUTE <==> Quota(ts, m) <= REQUESTS_PER_MINUTE
    ensures AdmittedIn(ts, m) <= REQUESTS_PER_MINUTE <==> RequestsIn(ts, m) <= REQUESTS_PER_MINUTE || OneRun(ts, m)
  {
    EveryMinuteAdmitsItsQuota(ts, m);
    if ts != [] {
      if MinuteOf(ts[|ts| - 1]) != m {
        AllowanceKeptExactly(ts[..|ts| - 1], m);
        OneRunOfPrefix(ts, m);
      } else {
        QuotaBounds(ts, m);
        QuotaBounds(ts[..|ts| - LastRun(ts, m)], m);
        RequestsBeforeLastRun(ts, m);
        OneRunIsLast(ts, m);
      }
    }
  }

  // ---- non-decreasing stamps -----------------------------------------------

  ghost predicate NonDecreasing(ts: seq<Time>) {
    forall i, j | 0 <= i < j < |ts| :: ts[i] <= ts[j]
  }

  lemma MinutesKeepOrder(s: Time, t: Time)
    requires s <= t
    ensures MinuteOf(s) <= MinuteOf(t)
  {
  }

  lemma OrderedStampsFormOneRun(ts: seq<Time>, m: int)
    requires NonDecreasing(ts)
    ensures OneRun(ts, m)
  {
    forall i, j, k | 0 <= i < j < k < |ts| && MinuteOf(ts[i]) == m && MinuteOf(ts[k]) == m
      ensures MinuteOf(ts[j]) == m
    {
      MinutesKeepOrder(ts[i], ts[j]);
      MinutesKeepOrder(ts[j], ts[k]);
    }
  }

  /** With non-decreasing stamps every minute admits exactly min(n, 100) of its n requests. */
  lemma EachMinuteAdmitsExactly(ts: seq<Time>, m: int)
    requires NonDecreasing(ts)
    ensures AdmittedIn(ts, m) == Min(RequestsIn(ts, m), REQUESTS_PER_MINUTE)
  {
    OrderedStampsFormOneRun(ts, m);
    AllowanceKeptExactly(ts, m);
    EveryMinuteAdmitsItsQuota(ts, m);
    QuotaBounds(ts, m);
  }

  /** Admitted requests stamped within the minute that starts at `from`, wherever that lies. */
  function AdmittedWithin(ts: seq<Time>, from: Time): nat {
    if ts == [] then 0
    else
      var t := ts[|ts| - 1];
      AdmittedWithin(ts[..|ts| - 1], from)
      + (if from <= t < from + MINUTE && Admit(RowAfter(ts[..|ts| - 1]), t).1 then 1 else 0)
  }

  lemma {:induction false} SpanTouchesTwoMinutes(ts: seq<Time>, from: Time)
    ensures AdmittedWithin(ts, from) <= AdmittedIn(ts, MinuteOf(from)) + AdmittedIn(ts, MinuteOf(from) + 1)
  {
    if ts != [] {
      SpanTouchesTwoMinutes(ts[..|ts| - 1], from);
      var t := ts[|ts| - 1];
      if from <= t < from + MINUTE {
        MinutesKeepOrder(from, t);
        assert MinuteOf(from + MINUTE) == MinuteOf(from) + 1;
        MinutesKeepOrder(t, from + MINUTE);
      }
    }
  }

  /** With non-decreasing stamps any sixty seconds admit at most two hundred requests. */
  lemma AnyMinuteLongSpanIsBounded(ts: seq<Time>, from: Time)
    requires NonDecreasing(ts)
    ensures AdmittedWithin(ts, from) <= 2 * REQUESTS_PER_MINUTE
  {
    SpanTouchesTwoMinutes(ts, from);
    EachMinuteAdmitsExactly(ts, MinuteOf(from));
    EachMinuteAdmitsExactly(ts, MinuteOf(from) + 1);
  }

  /** A hundred requests, one late request of an older minute, and a hundred more of the first. */
  function LateStamps(): seq<Time> {
    seq(201, i => if i == 100 then 0 else MINUTE)
  }

  /** One late, older stamp resets the row, and the minute admits two hundred. */
  lemma LateStampResets()
    ensures AdmittedIn(LateStamps(), 1) == 200
  {
    var ts := LateStamps();
    assert MinuteOf(MINUTE) == 1 && MinuteOf(0) == 0;
    assert ts[..201] == ts;
    StretchCounts(ts, 101, 201);
    RunAdmits(ts, 101, 201, 1);
    assert ts[..101][..100] == ts[..100];
    StretchCounts(ts, 0, 100);
    RunAdmits(ts, 0, 100, 1);
  }

  /** The admitted requests of a stretch of one minute add to those before it. */
  lemma {:induction false} StretchCounts(ts: seq<Time>, a: nat, b: nat)
    requires a <= b <= |ts| && SameMinute(ts, a, b, 1)
    ensures AdmittedIn(ts[..b], 1) == AdmittedIn(ts[..a], 1) + AdmittedBetween(ts, a, b)
    decreases b
  {
    if a < b {
      StretchCounts(ts, a, b - 1);
      assert ts[..b][..b - 1] == ts[..b - 1];
    }
  }
}
