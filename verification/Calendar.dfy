/** The proleptic Gregorian calendar of Python's `datetime`, and the per-year read windows of the ingestion. */
module Calendar {

  const DAY: nat := 86_400_000_000
  const SECOND: nat := 1_000_000

  datatype Date = Date(year: nat, month: nat, day: nat)

  predicate IsLeap(year: nat) {
    year % 4 == 0 && (year % 100 != 0 || year % 400 == 0)
  }

  /** Days from 0001-01-01 to January 1st of `year`. */
  function YearStart(year: nat): (r: nat)
    requires year >= 1
  {
    var y := year - 1;
    365 * y + y / 4 - y / 100 + y / 400
  }

  lemma YearLength(year: nat)
    requires year >= 1
    ensures YearStart(year + 1) == YearStart(year) + (if IsLeap(year) then 366 else 365)
  {
    var y: nat := year - 1;
    DivisionSteps(y);
    CenturiesDivide(year);
  }

  lemma CenturiesDivide(year: nat)
    ensures year % 400 == 0 ==> year % 100 == 0
    ensures year % 100 == 0 ==> year % 4 == 0
  {
    var q, c := year / 400, year / 100;
    Multiples(4 * q, 25 * c);
    assert year == 400 * q + year % 400;
    assert year == 100 * c + year % 100;
    assert year % 400 == 0 ==> year == 100 * (4 * q);
    assert year % 100 == 0 ==> year == 4 * (25 * c);
  }

  lemma Multiples(h: nat, f: nat)
    ensures (100 * h) % 100 == 0 && (4 * f) % 4 == 0
  {
  }

  lemma DivisionSteps(y: nat)
    ensures (y + 1) / 4 == y / 4 + if (y + 1) % 4 == 0 then 1 else 0
    ensures (y + 1) / 100 == y / 100 + if (y + 1) % 100 == 0 then 1 else 0
    ensures (y + 1) / 400 == y / 400 + if (y + 1) % 400 == 0 then 1 else 0
  {
  }

  lemma {:induction false} YearStartMonotone(a: nat, b: nat)
    requires 1 <= a <= b
    ensures YearStart(a) + 365 * (b - a) <= YearStart(b)
  {
    if a < b {
      YearStartMonotone(a, b - 1);
      YearLength(b - 1);
    }
  }

  /** The year day number `n` falls in. */
  function YearOf(n: nat): (y: nat)
    ensures y >= 1 && YearStart(y) <= n < YearStart(y + 1)
  {
    YearFrom(n, 1)
  }

  function YearFrom(n: nat, from: nat): (y: nat)
    requires from >= 1 && YearStart(from) <= n
    ensures y >= 1 && YearStart(y) <= n < YearStart(y + 1)
    decreases n - YearStart(from)
  {
    YearLength(from);
    if n < YearStart(from + 1) then from else YearFrom(n, from + 1)
  }

  lemma YearOfUnique(n: nat, y: nat)
    requires y >= 1 && YearStart(y) <= n < YearStart(y + 1)
    ensures YearOf(n) == y
  {
    var z: nat, afterY: nat, afterZ: nat := YearOf(n), y + 1, YearOf(n) + 1;
    if y < z {
      YearStartMonotone(afterY, z);
    } else if z < y {
      YearStartMonotone(afterZ, y);
    }
  }

  lemma YearOfMonotone(m: nat, n: nat)
    requires m <= n
    ensures YearOf(m) <= YearOf(n)
  {
    var afterN: nat := YearOf(n) + 1;
    if YearOf(n) < YearOf(m) {
      YearStartMonotone(afterN, YearOf(m));
    }
  }

  function MonthLength(leap: bool, month: nat): nat
    requires 1 <= month <= 12
  {
    if month == 2 then (if leap then 29 else 28)
    else if month in {4, 6, 9, 11} then 30
    else 31
  }

  /** Days of the year before `month`; month 13 stands for the year's end. */
  function MonthStart(leap: bool, month: nat): nat
    requires 1 <= month <= 13
  {
    if month == 1 then 0 else MonthStart(leap, month - 1) + MonthLength(leap, month - 1)
  }

  /** Month and day of month of the `d`-th day after the start of month `from`. */
  function MonthAndDay(leap: bool, from: nat, d: nat): (r: (nat, nat))
    requires 1 <= from <= 12 && MonthStart(leap, from) + d < MonthStart(leap, 13)
    ensures from <= r.0 <= 12 && 1 <= r.1 <= MonthLength(leap, r.0)
    ensures MonthStart(leap, r.0) + r.1 - 1 == MonthStart(leap, from) + d
    decreases 12 - from
  {
    if d < MonthLength(leap, from) then (from, d + 1)
    else MonthAndDay(leap, from + 1, d - MonthLength(leap, from))
  }

  lemma MonthsFillTheYear(leap: bool)
    ensures MonthStart(leap, 13) == if leap then 366 else 365
  {
    assert MonthStart(leap, 2) == 31;
    assert MonthStart(leap, 3) == if leap then 60 else 59;
    assert MonthStart(leap, 5) == MonthStart(leap, 3) + 61;
    assert MonthStart(leap, 7) == MonthStart(leap, 5) + 61;
    assert MonthStart(leap, 9) == MonthStart(leap, 7) + 62;
    assert MonthStart(leap, 11) == MonthStart(leap, 9) + 61;
    assert MonthStart(leap, 13) == MonthStart(leap, 11) + 61;
  }

  /** The calendar date of day number `n`. */
  function DateOf(n: nat): (d: Date) {
    var y := YearOf(n);
    YearLength(y);
    MonthsFillTheYear(IsLeap(y));
    var md := MonthAndDay(IsLeap(y), 1, n - YearStart(y));
    Date(y, md.0, md.1)
  }

  predicate ValidDate(d: Date) {
    d.year >= 1 && 1 <= d.month <= 12 && 1 <= d.day <= MonthLength(IsLeap(d.year), d.month)
  }

  function DayNumber(d: Date): nat
    requires ValidDate(d)
  {
    YearStart(d.year) + MonthStart(IsLeap(d.year), d.month) + d.day - 1
  }

  /** Day numbers and dates are in bijection (with `DateOfDayNumber`). */
  lemma DayNumberOfDate(n: nat)
    ensures ValidDate(DateOf(n)) && DayNumber(DateOf(n)) == n
  {
    var y := YearOf(n);
    YearLength(y);
    MonthsFillTheYear(IsLeap(y));
    var md := MonthAndDay(IsLeap(y), 1, n - YearStart(y));
    assert DateOf(n) == Date(y, md.0, md.1);
  }

  lemma {:induction false} MonthStartMonotone(leap: bool, a: nat, b: nat)
    requires 1 <= a <= b <= 13
    ensures MonthStart(leap, a) <= MonthStart(leap, b)
  {
    if a < b {
      MonthStartMonotone(leap, a, b - 1);
    }
  }

  /** A day of the year has one month and day of month. */
  lemma MonthAndDayUnique(leap: bool, m: nat, d: nat, m': nat, d': nat)
    requires 1 <= m <= 12 && 1 <= d <= MonthLength(leap, m)
    requires 1 <= m' <= 12 && 1 <= d' <= MonthLength(leap, m')
    requires MonthStart(leap, m) + d == MonthStart(leap, m') + d'
    ensures m == m' && d == d'
  {
    if m < m' {
      MonthStartMonotone(leap, m + 1, m');
    } else if m' < m {
      MonthStartMonotone(leap, m' + 1, m);
    }
  }

  lemma DateWithinYear(d: Date)
    requires ValidDate(d)
    ensures DayNumber(d) < YearStart(d.year + 1)
  {
    MonthStartMonotone(IsLeap(d.year), d.month + 1, 13);
    MonthsFillTheYear(IsLeap(d.year));
    YearLength(d.year);
  }

  lemma DateOfDayNumber(d: Date)
    requires ValidDate(d)
    ensures DateOf(DayNumber(d)) == d
  {
    var n := DayNumber(d);
    DateWithinYear(d);
    YearOfUnique(n, d.year);
    DayNumberOfDate(n);
    var e := DateOf(n);
    assert e.year == d.year;
    MonthAndDayUnique(IsLeap(d.year), e.month, e.day, d.month, d.day);
  }

  /** Timestamps are microseconds since 0001-01-01 00:00:00. */
  function StampYear(t: nat): (y: nat)
    ensures y >= 1
  {
    YearOf(t / DAY)
  }

  function StampDate(t: nat): Date {
    DateOf(t / DAY)
  }

  /** The inclusive window read for `year`: January 1st 00:00:00 to December 31st 23:59:59. */
  predicate InWindow(t: nat, year: nat) {
    year >= 1 && YearStart(year) * DAY <= t <= YearStart(year + 1) * DAY - SECOND
  }

  /** Outside the open last second of its year. */
  predicate Covered(t: nat) {
    t <= YearStart(StampYear(t) + 1) * DAY - SECOND
  }

  lemma StampYearBounds(t: nat)
    ensures YearStart(StampYear(t)) * DAY <= t < YearStart(StampYear(t) + 1) * DAY
  {
  }

  /** A timestamp lies in exactly the window of its own year if it is covered, and in no window otherwise. */
  lemma WindowIffCovered(t: nat, year: nat)
    ensures InWindow(t, year) <==> Covered(t) && year == StampYear(t)
  {
    StampYearBounds(t);
    if InWindow(t, year) {
      assert YearStart(year) <= t / DAY < YearStart(year + 1);
      YearOfUnique(t / DAY, year);
    }
  }

  /** Every whole-second timestamp is covered, and what is lost is a proper fraction of a second. */
  lemma WholeSecondsAreCovered(t: nat)
    ensures t % SECOND == 0 ==> Covered(t)
    ensures !Covered(t) ==> t % SECOND != 0 && t % DAY > DAY - SECOND
  {
    StampYearBounds(t);
    var e := YearStart(StampYear(t) + 1);
    if !Covered(t) {
      assert t / DAY == e - 1;
      assert t % DAY == t - (e - 1) * DAY;
      assert t == (e - 1) * 86400 * SECOND + t % DAY;
      assert t % SECOND == (t % DAY) % SECOND;
    }
  }

  lemma DateDeterminesYear(t: nat)
    ensures StampDate(t).year == StampYear(t)
  {
  }

  /** The lengths of the months, with February 29 in years divisible by 4 but not by 100, or by 400. */
  const MONTH_LENGTHS: seq<nat> := [31, 28, 31, 30, 31, 30, 31, 31, 30, 31, 30, 31]

  predicate LastOfMonth(d: Date)
    requires 1 <= d.month <= 12
  {
    d.day == MONTH_LENGTHS[d.month - 1] +
             if d.month == 2 && d.year % 4 == 0 && (d.year % 100 != 0 || d.year % 400 == 0) then 1 else 0
  }

  /** The date one day later. */
  function NextDate(d: Date): Date
    requires 1 <= d.month <= 12
  {
    if !LastOfMonth(d) then d.(day := d.day + 1)
    else if d.month < 12 then Date(d.year, d.month + 1, 1)
    else Date(d.year + 1, 1, 1)
  }

  lemma MonthLengthsAgree(d: Date)
    requires ValidDate(d)
    ensures LastOfMonth(d) <==> d.day == MonthLength(IsLeap(d.year), d.month)
  {
  }

  lemma NextDateNumber(d: Date)
    requires ValidDate(d)
    ensures ValidDate(NextDate(d)) && DayNumber(NextDate(d)) == DayNumber(d) + 1
  {
    MonthLengthsAgree(d);
    if LastOfMonth(d) && d.month == 12 {
      MonthsFillTheYear(IsLeap(d.year));
      YearLength(d.year);
    }
    hide LastOfMonth, IsLeap;
  }

  /** The calendar starts on January 1st of year 1 and goes day by day: with this every date is determined. */
  lemma DatesInSequence(n: nat)
    ensures DateOf(0) == Date(1, 1, 1)
    ensures 1 <= DateOf(n).month <= 12 && DateOf(n + 1) == NextDate(DateOf(n))
  {
    hide DateOf, NextDate, DayNumber;
    FirstDate();
    DayNumberOfDate(n);
    NextDateNumber(DateOf(n));
    DateOfDayNumber(NextDate(DateOf(n)));
  }

  lemma FirstDate()
    ensures DateOf(0) == Date(1, 1, 1)
  {
    assert DayNumber(Date(1, 1, 1)) == 0;
    DateOfDayNumber(Date(1, 1, 1));
  }

  /** A timestamp's date is that of its day, 24 hours of 60 minutes of 60 seconds of a million microseconds. */
  lemma StampDateOfDay(t: nat)
    ensures StampDate(t) == DateOf(t / (24 * 60 * 60 * 1_000_000))
  {
  }

  lemma LastDayNumber(y: nat)
    requires y >= 1
    ensures ValidDate(Date(y, 12, 31)) && DayNumber(Date(y, 12, 31)) == YearStart(y + 1) - 1
  {
    MonthsFillTheYear(IsLeap(y));
    YearLength(y);
    hide IsLeap;
  }

  /** What is not covered is exactly what comes after 23:59:59 on a December 31st. */
  lemma UncoveredIff(t: nat)
    ensures !Covered(t) <==>
              StampDate(t).month == 12 && StampDate(t).day == 31 && t % DAY > (23 * 3600 + 59 * 60 + 59) * 1_000_000
  {
    var n, y, d := t / DAY, StampYear(t), StampDate(t);
    assert d.year == y && t == n * DAY + t % DAY;
    StampYearBounds(t);
    DayNumberOfDate(n);
    LastDayNumber(y);
    DateOfDayNumber(Date(y, 12, 31));
    assert d.month == 12 && d.day == 31 <==> d == Date(y, 12, 31);
    assert d == Date(y, 12, 31) <==> n == YearStart(y + 1) - 1;
    hide DateOf, YearOf, ValidDate, YearStart;
  }
}
