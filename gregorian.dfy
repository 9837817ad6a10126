/**
 * `createGregorianAdapter`: the Gregorian calendar computed through `Date`,
 * here through the day numbers of `JsDate`.
 */
module Gregorian {
  import opened Wrappers
  import opened JsDate
  import opened Calendar

  const Id: string := "gregorian"

  const MonthsEn: seq<string> := ["January", "February", "March", "April", "May", "June",
    "July", "August", "September", "October", "November", "December"]
  const MonthsFa: seq<string> := ["ژانویه", "فوریه", "مارس", "آوریل", "مه", "ژوئن",
    "ژوئیه", "اوت", "سپتامبر", "اکتبر", "نوامبر", "دسامبر"]
  const WeekdaysEn: seq<string> := ["Su", "Mo", "Tu", "We", "Th", "Fr", "Sa"]
  const WeekdaysFa: seq<string> := ["ی", "د", "س", "چ", "پ", "ج", "ش"]

  /** `createGregorianAdapter({ locale = "en", weekStart })`; `weekStart ?? 1`. Never fails. */
  function Create(locale: Option<string>, weekStart: Option<int>): (s: Settings)
    ensures locale.Some? ==> s.locale == locale.value
    ensures locale.None? ==> s.locale == "en"
    ensures weekStart.Some? ==> s.weekStart == weekStart.value
    ensures weekStart.None? ==> s.weekStart == 1
  {
    Settings(locale.GetOr("en"), weekStart.GetOr(1))
  }

  /** `todayParts()` for the clock's current day `now`. */
  function TodayParts(now: int): (p: Parts)
    ensures IsValidDate(p) && DayNumber(p.y, p.m, p.d) == now
  {
    FromDays(now)
  }

  /** `new Date(y, m, 0).getDate()`. */
  function MonthLength(y: int, m: int): (n: int)
    ensures 1 <= m <= 12 ==> n == DaysInMonth(JsYear(y), m)
  {
    if 1 <= m <= 12 then DayZeroOfNextMonth(y, m); FromDays(Construct(y, m, 0)).d
    else FromDays(Construct(y, m, 0)).d
  }

  /** `new Date(y, m - 1, d)`. */
  function ToDateObject(y: int, m: int, d: int): (date: int)
    ensures 1 <= m <= 12 ==> date == DayNumber(JsYear(y), m, d)
  {
    if 1 <= m <= 12 then ConstructInRange(y, m, d); Construct(y, m - 1, d)
    else Construct(y, m - 1, d)
  }

  /** `{ y: getFullYear(), m: getMonth() + 1, d: getDate() }`. */
  function FromDateObject(date: int): (p: Parts)
    ensures IsValidDate(p)
    ensures ToDateObject(p.y, p.m, p.d) == date || 0 <= p.y <= 99
  {
    var p := FromDays(date);
    ConstructInRange(p.y, p.m, p.d);
    p
  }

  /** `new Date(y, m - 1, 1).getDay()`. */
  function FirstWeekdayOfMonth(y: int, m: int): (w: int)
    ensures 0 <= w <= 6
    ensures w == Weekday(ToDateObject(y, m, 1))
  {
    Weekday(Construct(y, m - 1, 1))
  }

  function LabelsOf(s: Settings): (l: Labels)
    ensures |l.months| == 12 && |l.weekdays| == 7 && l.weekStart == s.weekStart
    ensures s.locale == "fa" <==> l.months == MonthsFa
    ensures s.locale == "fa" <==> l.weekdays == WeekdaysFa
    ensures l.weekdays[0] == (if s.locale == "fa" then "ی" else "Su")
  {
    LabelsIn(s, Labels(MonthsFa, WeekdaysFa, 0), Labels(MonthsEn, WeekdaysEn, 0))
  }

  /** From year 100 on, month lengths follow the Gregorian leap-year rule. */
  lemma MonthLengthRule(y: int, m: int)
    requires y >= 100 && 1 <= m <= 12
    ensures m == 4 || m == 6 || m == 9 || m == 11 ==> MonthLength(y, m) == 30
    ensures m == 2 ==> MonthLength(y, m) == (if (y % 4 == 0 && y % 100 != 0) || y % 400 == 0 then 29 else 28)
    ensures m != 2 && m != 4 && m != 6 && m != 9 && m != 11 ==> MonthLength(y, m) == 31
  {
  }

  /** Years 0..99 are read as 1900..1999, so `monthLength(y, 2)` is February of 1900 + y. */
  lemma MonthLengthOfTwoDigitYear()
    ensures MonthLength(0, 2) == 28 && MonthLength(2000, 2) == 29
  {
    assert JsYear(0) == 1900 && JsYear(2000) == 2000;
    assert !IsLeapYear(1900) && IsLeapYear(2000);
  }

  /** `fromDateObject(toDateObject(y, m, d))` gives back any valid date of a year outside 0..99. */
  lemma RoundTrip(y: int, m: int, d: int)
    requires !(0 <= y <= 99) && IsValidDate(Parts(y, m, d))
    ensures FromDateObject(ToDateObject(y, m, d)) == Parts(y, m, d)
  {
    ConstructRoundTrip(y, m, d);
  }

  /** `toDateObject(fromDateObject(n))` gives back the day, for years outside 0..99. */
  lemma DateRoundTrip(date: int)
    requires !(0 <= FromDateObject(date).y <= 99)
    ensures ToDateObject(FromDateObject(date).y, FromDateObject(date).m, FromDateObject(date).d) == date
  {
  }

  /** A day past the month's end rolls into the next month (JavaScript `Date` overflow). */
  lemma Overflow(y: int, m: int, d: int)
    requires y >= 100 && 1 <= m <= 12
    requires var nx := NextMonthStart(y, m);
      MonthLength(y, m) < d <= MonthLength(y, m) + MonthLength(nx.y, nx.m)
    ensures var nx := NextMonthStart(y, m);
      FromDateObject(ToDateObject(y, m, d)) == Parts(nx.y, nx.m, d - MonthLength(y, m))
  {
    ConstructOverflow(y, m, d);
  }

  /** The first weekday of the next month is this month's advanced by its length. */
  lemma FirstWeekdayAdvances(y: int, m: int)
    requires y >= 100 && 1 <= m <= 12
    ensures var nx := NextMonthStart(y, m);
      FirstWeekdayOfMonth(nx.y, nx.m) == (FirstWeekdayOfMonth(y, m) + MonthLength(y, m)) % 7
  {
    var nx := NextMonthStart(y, m);
    NextStart(y, m);
    WeekdayAfter(y, m, nx.y, nx.m, MonthLength(y, m));
  }

  /** A month starting `len` days after month `m` of `y` starts `len` weekdays later. */
  lemma WeekdayAfter(y: int, m: int, y2: int, m2: int, len: int)
    requires y >= 100 && 1 <= m <= 12 && y2 >= 100 && 1 <= m2 <= 12
    requires DayNumber(y2, m2, 1) == DayNumber(y, m, 1) + len
    ensures FirstWeekdayOfMonth(y2, m2) == (FirstWeekdayOfMonth(y, m) + len) % 7
  {
    FirstWeekdayIs(y, m);
    FirstWeekdayIs(y2, m2);
    Advance(FirstWeekdayOfMonth(y, m), FirstWeekdayOfMonth(y2, m2), DayNumber(y, m, 1), len);
  }

  /** For years from 100 on, the first weekday is the day number of the 1st modulo 7. */
  lemma FirstWeekdayIs(y: int, m: int)
    requires y >= 100 && 1 <= m <= 12
    ensures FirstWeekdayOfMonth(y, m) == DayNumber(y, m, 1) % 7
  {
    ConstructInRange(y, m, 1);
  }

  /** The next month starts `MonthLength(y, m)` days after this one. */
  lemma NextStart(y: int, m: int)
    requires y >= 100 && 1 <= m <= 12
    ensures var nx := NextMonthStart(y, m);
      nx.y >= 100 && 1 <= nx.m <= 12 && DayNumber(nx.y, nx.m, 1) == DayNumber(y, m, 1) + MonthLength(y, m)
  {
    MonthCarry(y, m, MonthLength(y, m) + 1);
  }

  lemma ModAdd7(a: int, k: int)
    ensures (a + k) % 7 == (a % 7 + k) % 7
  {
  }

  /** Weekdays of two days `k` apart, taken modulo 7. */
  lemma Advance(w0: int, w1: int, a: int, k: int)
    requires w0 == a % 7 && w1 == (a + k) % 7
    ensures w1 == (w0 + k) % 7
  {
    ModAdd7(a, k);
  }

  /** 2024 is a leap year: February 2024 has 29 days. */
  lemma LeapFebruary2024()
    ensures MonthLength(2024, 2) == 29
  {
    assert IsLeapYear(2024);
  }

  /** 2024-03-15 was a Friday. */
  lemma Friday15March2024()
    ensures FirstWeekdayOfMonth(2024, 3) == 5 && Weekday(ToDateObject(2024, 3, 15)) == 5
  {
    ConstructInRange(2024, 3, 1);
    ConstructInRange(2024, 3, 15);
    var k := 2023;
    assert k / 4 == 505 && k / 100 == 20 && k / 400 == 5;
    assert DaysBeforeYear(2024) == 738885;
    assert IsLeapYear(2024);
    assert DaysBeforeMonth(2024, 3) == 60;
    assert ToDateObject(2024, 3, 1) == 738946;
    assert 738946 % 7 == 5;
    assert ToDateObject(2024, 3, 15) == 738960;
  }
}
