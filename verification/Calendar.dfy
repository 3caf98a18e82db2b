/** The proleptic Gregorian calendar, as the month arithmetic of time.Time uses it. */
module Calendar {
  import opened RateTypes

  // Years and months are counted from zero: year 0 is the calendar year 1.

  predicate Leap(y: int) {
    (y + 1) % 4 == 0 && ((y + 1) % 100 != 0 || (y + 1) % 400 == 0)
  }

  function YearStart(y: int): Day {
    365 * y + y / 4 - y / 100 + y / 400
  }

  function DaysBefore(month: int, leap: bool): int
    requires 0 <= month < 12
  {
    // Long and short months alternate but for February, which is short by two days, or by one in a leap year.
    30 * month + (if month <= 7 then (month + 1) / 2 else (month + 2) / 2)
    - (if month < 2 then 0 else if leap then 1 else 2)
  }

  /** The first day of a month; month `12 * y + k` is the k-th month of year `y`. */
  function MonthStart(month: int): Day {
    YearStart(month / 12) + DaysBefore(month % 12, Leap(month / 12))
  }

  function DaysIn(month: int): int {
    if month % 12 == 1 then (if Leap(month / 12) then 29 else 28)
    else if month % 12 in {3, 5, 8, 10} then 30
    else 31
  }

  datatype Date = Date(month: int, day: int)

  predicate Valid(d: Date) {
    1 <= d.day <= DaysIn(d.month)
  }

  function Ordinal(d: Date): Day {
    MonthStart(d.month) + d.day - 1
  }

  lemma YearFollows(y: int)
    ensures YearStart(y + 1) == YearStart(y) + (if Leap(y) then 366 else 365)
  {
    assert (y + 1) / 4 == y / 4 + (if (y + 1) % 4 == 0 then 1 else 0);
    assert (y + 1) / 100 == y / 100 + (if (y + 1) % 100 == 0 then 1 else 0);
    assert (y + 1) / 400 == y / 400 + (if (y + 1) % 400 == 0 then 1 else 0);
    assert (y + 1) % 400 == 0 ==> (y + 1) % 100 == 0;
    assert (y + 1) % 100 == 0 ==> (y + 1) % 4 == 0;
  }

  /** Months tile the day line, February of leap years included. */
  lemma MonthFollows(month: int)
    ensures MonthStart(month + 1) == MonthStart(month) + DaysIn(month)
  {
    var y, k := month / 12, month % 12;
    if k == 11 {
      assert (month + 1) / 12 == y + 1 && (month + 1) % 12 == 0;
      YearFollows(y);
    } else {
      assert (month + 1) / 12 == y && (month + 1) % 12 == k + 1;
    }
  }

  /** Every four hundred years have the same 146097 days. */
  lemma FourCenturies(y: int)
    ensures YearStart(y + 400) == YearStart(y) + 146_097
  {
    assert (y + 400) / 4 == y / 4 + 100;
    assert (y + 400) / 100 == y / 100 + 4;
    assert (y + 400) / 400 == y / 400 + 1;
  }

  /** Of the years 1900, 2000, 2023 and 2024 the second and the last have a 29th of February. */
  lemma LeapFebruaries()
    ensures !Leap(1899) && Leap(1999) && !Leap(2022) && Leap(2023)
    ensures DaysIn(22_789) == 28 && DaysIn(23_989) == 29
  {
    assert 22_789 % 12 == 1 && 22_789 / 12 == 1899;
    assert 23_989 % 12 == 1 && 23_989 / 12 == 1999;
  }

  /** 1 January 1970 is day 719162 after 1 January of year 1. */
  lemma UnixEpoch()
    ensures MonthStart(12 * 1969) == 719_162
  {
    MonthStartAt(1969, 0);
    assert YearStart(1969) == 719_162;
  }

  /** 1 March 2000 is day 730179. */
  lemma MarchOfLeapCentury(month: int)
    requires month == 12 * 1999 + 2
    ensures MonthStart(month) == 730_179
  {
    MonthStartAt(1999, 2);
    assert YearStart(1999) == 730_119;
    assert Leap(1999);
  }

  lemma MonthStartAt(y: int, k: int)
    requires 0 <= k < 12
    ensures MonthStart(12 * y + k) == YearStart(y) + DaysBefore(k, Leap(y))
  {
    assert (12 * y + k) / 12 == y && (12 * y + k) % 12 == k;
  }

  lemma MonthsAreLong(month: int)
    ensures DaysIn(month) >= 28
  {
  }

  /** In any table whose months have at least 28 days, later months start later. */
  lemma {:induction false} LongMonthsIncrease(starts: int -> Day, a: int, b: int)
    requires a <= b && forall m :: starts(m) + 28 <= starts(m + 1)
    ensures starts(a) + 28 * (b - a) <= starts(b)
    decreases b - a
  {
    if a < b {
      LongMonthsIncrease(starts, a, b - 1);
      assert starts(b - 1) + 28 <= starts(b - 1 + 1);
    }
  }

  lemma MonthsIncrease(a: int, b: int)
    requires a <= b
    ensures MonthStart(a) + 28 * (b - a) <= MonthStart(b)
  {
    forall m ensures MonthStart(m) + 28 <= MonthStart(m + 1) {
      MonthFollows(m);
      MonthsAreLong(m);
    }
    LongMonthsIncrease(MonthStart, a, b);
  }

  lemma MonthsApart(a: int, b: int)
    requires a < b
    ensures MonthStart(a) + DaysIn(a) <= MonthStart(b)
  {
    MonthFollows(a);
    MonthsIncrease(a + 1, b);
  }

  /** A table of month starts in which later months start later. */
  ghost predicate Increasing(starts: int -> Day) {
    forall a, b | a < b :: starts(a) < starts(b)
  }

  lemma GregorianIncreases()
    ensures Increasing(MonthStart)
  {
    forall a, b | a < b ensures MonthStart(a) < MonthStart(b) {
      MonthsIncrease(a, b);
    }
  }
}
