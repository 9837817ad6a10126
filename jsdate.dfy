/**
 * Proleptic Gregorian day arithmetic standing in for JavaScript `Date`.
 *
 * A `Date` at local midnight is represented by its day number: the Rata Die
 * count in which 0001-01-01 is day 1 (a Monday), so that `getDay()` is the day
 * number mod 7 with 0 for Sunday. `new Date(y, mi, d)` and `Date.UTC(y, mi, d)`
 * become `Construct`, which keeps the two quirks the library depends on: a
 * month index outside 0..11 carries into the year, a day outside the month
 * carries into neighbouring months, and a year 0..99 means 1900..1999.
 */
module JsDate {

  /** `{ y, m, d }`: a year, a month 1..12 and a day of that month. */
  datatype Parts = Parts(y: int, m: int, d: int)

  predicate IsLeapYear(y: int)
  {
    (y % 4 == 0 && y % 100 != 0) || y % 400 == 0
  }

  function YearLength(y: int): int
  {
    if IsLeapYear(y) then 366 else 365
  }

  function DaysInMonth(y: int, m: int): (n: int)
    requires 1 <= m <= 12
    ensures 28 <= n <= 31
  {
    if m == 2 then (if IsLeapYear(y) then 29 else 28)
    else if m == 4 || m == 6 || m == 9 || m == 11 then 30
    else 31
  }

  predicate IsValidDate(p: Parts)
  {
    1 <= p.m <= 12 && 1 <= p.d <= DaysInMonth(p.y, p.m)
  }

  /** Days from 0001-01-01 to January 1 of year `y`. */
  function DaysBeforeYear(y: int): int
  {
    var k := y - 1;
    365 * k + k / 4 - k / 100 + k / 400
  }

  /** Days from January 1 to the first day of month `m` in year `y`. */
  function DaysBeforeMonth(y: int, m: int): int
    requires 1 <= m <= 12
  {
    [0, 31, 59, 90, 120, 151, 181, 212, 243, 273, 304, 334][m - 1]
    + (if m > 2 && IsLeapYear(y) then 1 else 0)
  }

  /** Day number of day `d` of month `m`; `d` may lie outside the month. */
  function DayNumber(y: int, m: int, d: int): int
    requires 1 <= m <= 12
  {
    DaysBeforeYear(y) + DaysBeforeMonth(y, m) + d
  }

  lemma YearStep(y: int)
    ensures DaysBeforeYear(y + 1) == DaysBeforeYear(y) + YearLength(y)
  {
    var k := y - 1;
    DivStep4(k);
    DivStep100(k);
    DivStep400(k);
    assert k + 1 == y;
    LeapCount(y);
  }

  /** Leap years counted as multiples of 4, less multiples of 100, plus multiples of 400. */
  lemma LeapCount(y: int)
    ensures YearLength(y) == 365 + (if y % 4 == 0 then 1 else 0) - (if y % 100 == 0 then 1 else 0)
      + (if y % 400 == 0 then 1 else 0)
  {
    if y % 400 == 0 {
      MultipleOf100(4 * (y / 400));
      MultipleOf4(100 * (y / 400));
    } else if y % 100 == 0 {
      MultipleOf4(25 * (y / 100));
    }
  }

  lemma MultipleOf4(q: int)
    ensures (4 * q) % 4 == 0
  {
  }

  lemma MultipleOf100(q: int)
    ensures (100 * q) % 100 == 0
  {
  }

  /** Floor division by 4, 100 and 400 steps up exactly at multiples. */
  lemma DivStep4(k: int)
    ensures (k + 1) / 4 == k / 4 + (if (k + 1) % 4 == 0 then 1 else 0)
  {
  }

  lemma DivStep100(k: int)
    ensures (k + 1) / 100 == k / 100 + (if (k + 1) % 100 == 0 then 1 else 0)
  {
  }

  lemma DivStep400(k: int)
    ensures (k + 1) / 400 == k / 400 + (if (k + 1) % 400 == 0 then 1 else 0)
  {
  }

  lemma MonthStep(y: int, m: int)
    requires 1 <= m < 12
    ensures DaysBeforeMonth(y, m + 1) == DaysBeforeMonth(y, m) + DaysInMonth(y, m)
  {
  }

  lemma LastMonth(y: int)
    ensures DaysBeforeMonth(y, 12) + DaysInMonth(y, 12) == YearLength(y)
  {
  }

  /** Later years start later: the year `a` is over by the time year `b > a` starts. */
  lemma {:induction false} YearsOrdered(a: int, b: int)
    requires a < b
    ensures DaysBeforeYear(a + 1) <= DaysBeforeYear(b)
    decreases b - a
  {
    if a + 1 < b {
      YearsOrdered(a + 1, b);
      YearStep(a + 1);
    }
  }

  /** The year containing day `n`, searched upwards from year `y`. */
  function YearUp(n: int, y: int): (r: int)
    requires DaysBeforeYear(y) < n
    ensures DaysBeforeYear(r) < n <= DaysBeforeYear(r + 1)
    decreases n - DaysBeforeYear(y)
  {
    YearStep(y);
    if n <= DaysBeforeYear(y + 1) then y else YearUp(n, y + 1)
  }

  /** The year containing day `n`, searched downwards from year `y`. */
  function YearDown(n: int, y: int): (r: int)
    requires n <= DaysBeforeYear(y + 1)
    ensures DaysBeforeYear(r) < n <= DaysBeforeYear(r + 1)
    decreases DaysBeforeYear(y + 1) - n
  {
    YearStep(y);
    if DaysBeforeYear(y) < n then y else YearDown(n, y - 1)
  }

  /** The month containing day `r` of year `y`, searched from month `m`. */
  function MonthFrom(y: int, r: int, m: int): (res: int)
    requires 1 <= m <= 12 && DaysBeforeMonth(y, m) < r <= YearLength(y)
    ensures 1 <= res <= 12
    ensures DaysBeforeMonth(y, res) < r <= DaysBeforeMonth(y, res) + DaysInMonth(y, res)
    decreases 12 - m
  {
    LastMonth(y);
    if m == 12 then m
    else (MonthStep(y, m); if r <= DaysBeforeMonth(y, m + 1) then m else MonthFrom(y, r, m + 1))
  }

  /** `getFullYear()`, `getMonth() + 1` and `getDate()` of day `n`. */
  function FromDays(n: int): (p: Parts)
    ensures IsValidDate(p) && DayNumber(p.y, p.m, p.d) == n
  {
    var y := if n > 0 then YearUp(n, 1) else YearDown(n, 0);
    YearStep(y);
    var r := n - DaysBeforeYear(y);
    var m := MonthFrom(y, r, 1);
    Parts(y, m, r - DaysBeforeMonth(y, m))
  }

  /** A valid date lies inside its own year. */
  lemma DayInYear(p: Parts)
    requires IsValidDate(p)
    ensures DaysBeforeYear(p.y) < DayNumber(p.y, p.m, p.d) <= DaysBeforeYear(p.y + 1)
  {
    YearStep(p.y);
  }

  /** Different valid dates have different day numbers. */
  lemma DayNumberInjective(p: Parts, q: Parts)
    requires IsValidDate(p) && IsValidDate(q)
    requires DayNumber(p.y, p.m, p.d) == DayNumber(q.y, q.m, q.d)
    ensures p == q
  {
    DayInYear(p);
    DayInYear(q);
    if p.y < q.y {
      YearsOrdered(p.y, q.y);
    } else if q.y < p.y {
      YearsOrdered(q.y, p.y);
    }
    assert p.y == q.y;
    if p.m < q.m {
      MonthsOrdered(p.y, p.m, q.m);
    } else if q.m < p.m {
      MonthsOrdered(p.y, q.m, p.m);
    }
  }

  lemma MonthsOrdered(y: int, a: int, b: int)
    requires 1 <= a < b <= 12
    ensures DaysBeforeMonth(y, a) + DaysInMonth(y, a) <= DaysBeforeMonth(y, b)
  {
  }

  /** Reading a valid date back from its day number gives the same date. */
  lemma FromDayNumber(p: Parts)
    requires IsValidDate(p)
    ensures FromDays(DayNumber(p.y, p.m, p.d)) == p
  {
    DayNumberInjective(FromDays(DayNumber(p.y, p.m, p.d)), p);
  }

  /** Chronological order of valid dates is the order of their day numbers. */
  lemma DayNumberOrdered(p: Parts, q: Parts)
    requires IsValidDate(p) && IsValidDate(q)
    requires p.y < q.y || (p.y == q.y && (p.m < q.m || (p.m == q.m && p.d < q.d)))
    ensures DayNumber(p.y, p.m, p.d) < DayNumber(q.y, q.m, q.d)
  {
    DayInYear(p);
    DayInYear(q);
    if p.y < q.y {
      YearsOrdered(p.y, q.y);
    } else if p.m < q.m {
      MonthsOrdered(p.y, p.m, q.m);
    }
  }

  /** The year the `Date` constructor and `Date.UTC` use: 0..99 stand for 1900..1999. */
  function JsYear(y: int): (r: int)
    ensures 0 <= y <= 99 ==> r == 1900 + y
    ensures !(0 <= y <= 99) ==> r == y
  {
    if 0 <= y <= 99 then 1900 + y else y
  }

  /** `MakeDay(year, month, date)`: the month index carries into the year by floor division. */
  function MakeDay(year: int, monthIndex: int, date: int): int
  {
    DayNumber(year + monthIndex / 12, monthIndex % 12 + 1, date)
  }

  /** `new Date(y, mi, d)` (local midnight) and `Date.UTC(y, mi, d)`, as a day number. */
  function Construct(y: int, mi: int, d: int): int
  {
    MakeDay(JsYear(y), mi, d)
  }

  /** Within one month, `new Date(y, mi, d)` is `new Date(y, mi, 1)` plus `d - 1` days. */
  lemma ConstructAddsDays(y: int, mi: int, d: int)
    ensures Construct(y, mi, d) == Construct(y, mi, 1) + (d - 1)
  {
  }

  /** For a month 1..12, `new Date(y, m - 1, d)` is the plain day number in year `JsYear(y)`. */
  lemma ConstructInRange(y: int, m: int, d: int)
    requires 1 <= m <= 12
    ensures Construct(y, m - 1, d) == DayNumber(JsYear(y), m, d)
  {
    assert (m - 1) / 12 == 0 && (m - 1) % 12 == m - 1;
  }

  /** `getDay()`: 0 for Sunday through 6 for Saturday. */
  function Weekday(n: int): (w: int)
    ensures 0 <= w < 7
  {
    n % 7
  }

  /** Constructing a valid date and reading its parts back gives the date, in `JsYear` terms. */
  lemma ConstructRoundTrip(y: int, m: int, d: int)
    requires IsValidDate(Parts(JsYear(y), m, d))
    ensures FromDays(Construct(y, m - 1, d)) == Parts(JsYear(y), m, d)
  {
    ConstructInRange(y, m, d);
    FromDayNumber(Parts(JsYear(y), m, d));
  }

  /** The first day of the month after month `m` (1..12) of year `y`. */
  function NextMonthStart(y: int, m: int): Parts
    requires 1 <= m <= 12
  {
    if m == 12 then Parts(y + 1, 1, 1) else Parts(y, m + 1, 1)
  }

  /** Day `d` of month `m` is the first day of the next month plus `d - 1 - DaysInMonth`. */
  lemma MonthCarry(y: int, m: int, d: int)
    requires 1 <= m <= 12
    ensures var nx := NextMonthStart(y, m);
      DayNumber(y, m, d) == DayNumber(nx.y, nx.m, d - DaysInMonth(y, m))
  {
    if m == 12 {
      YearStep(y);
      LastMonth(y);
    } else {
      MonthStep(y, m);
    }
  }

  /** `new Date(y, m - 1, d)` with `d` past the month's end lands in the following month. */
  lemma ConstructOverflow(y: int, m: int, d: int)
    requires 1 <= m <= 12
    requires var nx := NextMonthStart(JsYear(y), m);
      DaysInMonth(JsYear(y), m) < d <= DaysInMonth(JsYear(y), m) + DaysInMonth(nx.y, nx.m)
    ensures var nx := NextMonthStart(JsYear(y), m);
      FromDays(Construct(y, m - 1, d)) == Parts(nx.y, nx.m, d - DaysInMonth(JsYear(y), m))
  {
    var jy := JsYear(y);
    var nx := NextMonthStart(jy, m);
    ConstructInRange(y, m, d);
    MonthCarry(jy, m, d);
    FromDayNumber(Parts(nx.y, nx.m, d - DaysInMonth(jy, m)));
  }

  /** `new Date(y, m, 0)`: day 0 of the next month is the last day of month `m`. */
  lemma DayZeroOfNextMonth(y: int, m: int)
    requires 1 <= m <= 12
    ensures FromDays(Construct(y, m, 0)) == Parts(JsYear(y), m, DaysInMonth(JsYear(y), m))
  {
    var jy := JsYear(y);
    MonthCarry(jy, m, DaysInMonth(jy, m));
    assert m / 12 == (if m == 12 then 1 else 0) && m % 12 == (if m == 12 then 0 else m);
    assert Construct(y, m, 0) == DayNumber(jy, m, DaysInMonth(jy, m));
    FromDayNumber(Parts(jy, m, DaysInMonth(jy, m)));
  }

  /** The day number of 1970-01-01 falls on a Thursday, as in JavaScript. */
  lemma EpochIsThursday()
    ensures Weekday(Construct(1970, 0, 1)) == 4
  {
    assert DaysBeforeYear(1970) == 719162;
    assert Construct(1970, 0, 1) == 719163;
  }
}
