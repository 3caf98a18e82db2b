/**
Planning of fetch work: splitting a date range into calendar-month units.

The plan is stated over a table of month starts; the service runs it over the
Gregorian one.
 */
module Planning {
  import opened Base
  import opened RateTypes
  import opened Calendar

  ghost predicate Distinct<T>(s: seq<T>) {
    forall i, j | 0 <= i < j < |s| :: s[i] != s[j]
  }

  // The day it is, and the month that day falls in.
  datatype Today = Today(day: Day, month: int)

  function MonthUnits(starts: int -> Day, series: seq<Series>, month: int, today: Today): seq<Unit> {
    var start, end := starts(month), starts(month + 1) - 1;
    var fetchTo := Min(end, today.day);
    if fetchTo < start then []
    else seq(|series|, i requires 0 <= i < |series| => MonthUnit(series[i], start, end, fetchTo, month < today.month))
  }

  function PlanMonths(starts: int -> Day, series: seq<Series>, month: int, last: int, today: Today): seq<Unit>
    decreases last - month
  {
    if month > last then []
    else MonthUnits(starts, series, month, today) + PlanMonths(starts, series, month + 1, last, today)
  }

  /** rangeUnits: the loop over months. */
  method RangeUnits(starts: int -> Day, series: seq<Series>, first: int, last: int, today: Today)
    returns (units: seq<Unit>)
    ensures units == PlanMonths(starts, series, first, last, today)
  {
    units := [];
    var month := first;
    while month <= last
      invariant first <= month
      invariant units + PlanMonths(starts, series, month, last, today) == PlanMonths(starts, series, first, last, today)
    {
      var added := UnitsOfMonth(starts, series, month, today);
      units := units + added;
      month := month + 1;
    }
  }

  /** rangeUnits: the loop over series within one month. */
  method UnitsOfMonth(starts: int -> Day, series: seq<Series>, month: int, today: Today) returns (units: seq<Unit>)
    ensures units == MonthUnits(starts, series, month, today)
  {
    units := [];
    var monthEnd := starts(month + 1) - 1;
    var fetchTo := monthEnd;
    if fetchTo > today.day {
      fetchTo := today.day;
    }
    if fetchTo < starts(month) {
      return;
    }
    for i := 0 to |series|
      invariant units == MonthUnits(starts, series, month, today)[..i]
    {
      units := units + [MonthUnit(series[i], starts(month), monthEnd, fetchTo, month < today.month)];
    }
  }

  /** The unit fetches day `d` of series `s`. */
  predicate Covers(u: Unit, s: Series, d: Day) {
    u.MonthUnit? && u.series == s && u.from <= d <= u.fetchTo
  }

  /** The unit is month `month` of a requested series, cut at today. */
  ghost predicate Planned(starts: int -> Day, u: Unit, series: seq<Series>, month: int, today: Today) {
    && u.MonthUnit? && u.series in series
    && u.from == starts(month) && u.to == starts(month + 1) - 1
    && u.fetchTo == Min(u.to, today.day) && u.from <= u.fetchTo
    && u.permanent == (month < today.month)
  }

  lemma {:induction false} PlanShape(
    starts: int -> Day, series: seq<Series>, month: int, last: int, today: Today, i: nat) returns (k: int)
    requires i < |PlanMonths(starts, series, month, last, today)|
    ensures month <= k <= last && Planned(starts, PlanMonths(starts, series, month, last, today)[i], series, k, today)
    decreases last - month
  {
    var head := MonthUnits(starts, series, month, today);
    if i < |head| {
      k := month;
    } else {
      k := PlanShape(starts, series, month + 1, last, today, i - |head|);
    }
  }

  /** Exactly one of the units covers day `d` of series `s`. */
  ghost predicate CoveredOnce(us: seq<Unit>, s: Series, d: Day) {
    exists i :: 0 <= i < |us| && Covers(us[i], s, d) && OnlyAt(us, s, d, i)
  }

  ghost predicate OnlyAt(us: seq<Unit>, s: Series, d: Day, i: int) {
    forall j | 0 <= j < |us| && Covers(us[j], s, d) :: j == i
  }

  lemma {:induction false} PlanCoversOnce(
    starts: int -> Day, series: seq<Series>, month: int, last: int, today: Today, s: Series, d: Day)
    requires Increasing(starts) && Distinct(series) && s in series
    requires starts(month) <= d < starts(last + 1) && d <= today.day && month <= last
    ensures CoveredOnce(PlanMonths(starts, series, month, last, today), s, d)
    decreases last - month
  {
    var head := MonthUnits(starts, series, month, today);
    var tail := PlanMonths(starts, series, month + 1, last, today);
    if d < starts(month + 1) {
      var i :| 0 <= i < |series| && series[i] == s;
      assert Covers(head[i], s, d);
      forall j | 0 <= j < |tail| ensures !Covers(tail[j], s, d) {
        var k := PlanShape(starts, series, month + 1, last, today, j);
      }
      assert OnlyAt(head, s, d, i);
      OnceOnTheLeft(head, tail, s, d, i);
    } else {
      PlanCoversOnce(starts, series, month + 1, last, today, s, d);
      OnceOnTheRight(head, tail, s, d);
    }
  }

  lemma OnceOnTheLeft(a: seq<Unit>, b: seq<Unit>, s: Series, d: Day, i: nat)
    requires i < |a| && Covers(a[i], s, d) && OnlyAt(a, s, d, i)
    requires forall j | 0 <= j < |b| :: !Covers(b[j], s, d)
    ensures CoveredOnce(a + b, s, d)
  {
    var c := a + b;
    assert Covers(c[i], s, d);
    assert OnlyAt(c, s, d, i);
  }

  lemma OnceOnTheRight(a: seq<Unit>, b: seq<Unit>, s: Series, d: Day)
    requires CoveredOnce(b, s, d)
    requires forall j | 0 <= j < |a| :: !Covers(a[j], s, d)
    ensures CoveredOnce(a + b, s, d)
  {
    var c := a + b;
    var i :| 0 <= i < |b| && Covers(b[i], s, d) && OnlyAt(b, s, d, i);
    assert c[|a| + i] == b[i];
    assert OnlyAt(c, s, d, |a| + i);
  }

  /**
  Planning is exact on the real calendar: each day of the requested range that
  is not after today is fetched by exactly one unit of each requested series.
   */
  lemma RangePlanIsExact(series: seq<Series>, from: Date, to: Date, today: Date, s: Series, d: Day)
    requires Distinct(series) && s in series && Valid(from) && Valid(to)
    requires Ordinal(from) <= d <= Ordinal(to) && d <= Ordinal(today)
    ensures CoveredOnce(PlanMonths(MonthStart, series, from.month, to.month, Today(Ordinal(today), today.month)), s, d)
  {
    GregorianIncreases();
    MonthFollows(to.month);
    DatesInOrder(from, to);
    PlanCoversOnce(MonthStart, series, from.month, to.month, Today(Ordinal(today), today.month), s, d);
  }

  lemma DatesInOrder(from: Date, to: Date)
    requires Valid(from) && Valid(to) && Ordinal(from) <= Ordinal(to)
    ensures from.month <= to.month
  {
    if to.month < from.month {
      MonthsApart(to.month, from.month);
    }
  }
}
