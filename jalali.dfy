/**
 * `createJalaliAdapter`: the Jalali (Solar Hijri) calendar, computed by the
 * jalaali-js library and pivoting through `Date` for weekdays.
 *
 * The library is a value of type `Lib` whose functions are not given here;
 * what it is relied on to do is the predicate `Lawful`, taken as a
 * precondition wherever it is needed.
 */
module Jalali {
  import opened Wrappers
  import opened JsDate
  import opened Calendar

  const Id: string := "jalali"

  /**
   * The jalaali-js functions the adapter calls: `toGregorian(jy, jm, jd)`
   * giving `{ gy, gm, gd }`, `toJalaali(gy, gm, gd)` giving `{ jy, jm, jd }`,
   * `jalaaliMonthLength(jy, jm)`, and the optional `isValidJalaaliDate`.
   */
  datatype Lib = Lib(
    toGregorian: (int, int, int) -> Parts,
    toJalaali: (int, int, int) -> Parts,
    jalaaliMonthLength: (int, int) -> int,
    isValidJalaaliDate: Option<(int, int, int) -> bool>)

  ghost predicate IsValidJalaali(lib: Lib, p: Parts)
  {
    1 <= p.m <= 12 && 1 <= p.d <= lib.jalaaliMonthLength(p.y, p.m)
  }

  /**
   * The library's contract: `toGregorian` and `toJalaali` are mutually inverse
   * bijections between valid Jalali dates and valid Gregorian dates, and
   * `isValidJalaaliDate`, when the library has it, tells valid dates apart.
   */
  ghost predicate Lawful(lib: Lib)
  {
    && (lib.isValidJalaaliDate.Some? ==>
          forall y, m, d :: lib.isValidJalaaliDate.value(y, m, d) <==> IsValidJalaali(lib, Parts(y, m, d)))
    && (forall p :: IsValidJalaali(lib, p) ==>
          var g := lib.toGregorian(p.y, p.m, p.d);
          IsValidDate(g) && lib.toJalaali(g.y, g.m, g.d) == p)
    && (forall g :: IsValidDate(g) ==>
          var p := lib.toJalaali(g.y, g.m, g.d);
          IsValidJalaali(lib, p) && lib.toGregorian(p.y, p.m, p.d) == g)
  }

  /** `jalaali || globalThis.jalaali`. */
  function Resolve(jalaali: Option<Lib>, global: Option<Lib>): (lib: Option<Lib>)
    ensures lib.Some? <==> jalaali.Some? || global.Some?
    ensures jalaali.Some? ==> lib == jalaali
  {
    if jalaali.Some? then jalaali else global
  }

  /** The adapter closes over its settings and the library it found. */
  datatype Instance = Instance(settings: Settings, lib: Lib)

  /**
   * `createJalaliAdapter({ locale = "fa", weekStart, jalaali })`: throws when
   * neither the option nor the global provides the library; `weekStart ?? 6`.
   */
  function Create(locale: Option<string>, weekStart: Option<int>,
                  jalaali: Option<Lib>, global: Option<Lib>): (r: Result<Instance>)
    ensures r.Err? <==> jalaali.None? && global.None?
    ensures r.Ok? ==> r.value.settings.locale == locale.GetOr("fa")
    ensures r.Ok? ==> r.value.settings.weekStart == weekStart.GetOr(6)
    ensures r.Ok? && jalaali.Some? ==> r.value.lib == jalaali.value
    ensures r.Ok? && jalaali.None? ==> r.value.lib == global.value
  {
    var lib := Resolve(jalaali, global);
    if lib.None? then
      Err("jalaali-js not found. Provide { jalaali } in options or include it via CDN (jalaali global).")
    else
      Ok(Instance(Settings(locale.GetOr("fa"), weekStart.GetOr(6)), lib.value))
  }

  const MonthsFa: seq<string> := ["فروردین", "اردیبهشت", "خرداد", "تیر", "مرداد", "شهریور",
    "مهر", "آبان", "آذر", "دی", "بهمن", "اسفند"]
  const MonthsEn: seq<string> := ["Farvardin", "Ordibehesht", "Khordad", "Tir", "Mordad", "Shahrivar",
    "Mehr", "Aban", "Azar", "Dey", "Bahman", "Esfand"]
  const WeekdaysFa: seq<string> := ["ش", "ی", "د", "س", "چ", "پ", "ج"]
  const WeekdaysEn: seq<string> := ["Sa", "Su", "Mo", "Tu", "We", "Th", "Fr"]

  /** `todayParts()`: the clock's current day `now` converted with `toJalaali`. */
  function TodayParts(lib: Lib, now: int): (p: Parts)
    ensures Lawful(lib) ==> IsValidJalaali(lib, p)
  {
    var g := FromDays(now);
    lib.toJalaali(g.y, g.m, g.d)
  }

  /** `lib.jalaaliMonthLength(y, m)`. */
  function MonthLength(lib: Lib, y: int, m: int): (n: int)
    ensures n == lib.jalaaliMonthLength(y, m)
  {
    lib.jalaaliMonthLength(y, m)
  }

  /** `new Date(gy, gm - 1, gd)` of `toGregorian(y, m, d)`. */
  function ToDateObject(lib: Lib, y: int, m: int, d: int): (date: int)
    ensures var g := lib.toGregorian(y, m, d);
      1 <= g.m <= 12 ==> date == DayNumber(JsYear(g.y), g.m, g.d)
  {
    var g := lib.toGregorian(y, m, d);
    Construct(g.y, g.m - 1, g.d)
  }

  /** `toJalaali` of the date's Gregorian parts. */
  function FromDateObject(lib: Lib, date: int): (p: Parts)
    ensures Lawful(lib) ==> IsValidJalaali(lib, p)
  {
    var g := FromDays(date);
    lib.toJalaali(g.y, g.m, g.d)
  }

  /** `new Date(gy, gm - 1, gd).getDay()` of `toGregorian(y, m, 1)`. */
  function FirstWeekdayOfMonth(lib: Lib, y: int, m: int): (w: int)
    ensures 0 <= w <= 6
    ensures w == Weekday(ToDateObject(lib, y, m, 1))
  {
    var g := lib.toGregorian(y, m, 1);
    Weekday(Construct(g.y, g.m - 1, g.d))
  }

  function LabelsOf(s: Settings): (l: Labels)
    ensures |l.months| == 12 && |l.weekdays| == 7 && l.weekStart == s.weekStart
    ensures s.locale == "fa" <==> l.months == MonthsFa
    ensures s.locale == "fa" <==> l.weekdays == WeekdaysFa
    ensures l.weekdays[0] == (if s.locale == "fa" then "ش" else "Sa")
  {
    LabelsIn(s, Labels(MonthsFa, WeekdaysFa, 0), Labels(MonthsEn, WeekdaysEn, 0))
  }

  /**
   * `fromDateObject(toDateObject(y, m, d))` gives back a valid Jalali date,
   * provided the library is lawful and the Gregorian year it maps to is not
   * one that `new Date` would read as 1900 + year.
   */
  lemma RoundTrip(lib: Lib, p: Parts)
    requires Lawful(lib) && IsValidJalaali(lib, p)
    requires !(0 <= lib.toGregorian(p.y, p.m, p.d).y <= 99)
    ensures FromDateObject(lib, ToDateObject(lib, p.y, p.m, p.d)) == p
  {
    var g := lib.toGregorian(p.y, p.m, p.d);
    ConstructRoundTrip(g.y, g.m, g.d);
  }

  /** `toDateObject(fromDateObject(n))` gives back the day, for Gregorian years outside 0..99. */
  lemma DateRoundTrip(lib: Lib, date: int)
    requires Lawful(lib) && !(0 <= FromDays(date).y <= 99)
    ensures var p := FromDateObject(lib, date);
      IsValidJalaali(lib, p) && ToDateObject(lib, p.y, p.m, p.d) == date
  {
    var g := FromDays(date);
    ConstructInRange(g.y, g.m, g.d);
  }

  /** The first weekday of a Jalali month is the Gregorian weekday of its first day. */
  lemma FirstWeekdayIsGregorian(lib: Lib, y: int, m: int)
    requires Lawful(lib) && IsValidJalaali(lib, Parts(y, m, 1))
    requires !(0 <= lib.toGregorian(y, m, 1).y <= 99)
    ensures var g := lib.toGregorian(y, m, 1);
      FirstWeekdayOfMonth(lib, y, m) == Weekday(DayNumber(g.y, g.m, g.d))
  {
    var g := lib.toGregorian(y, m, 1);
    assert IsValidDate(g);
    ConstructInRange(g.y, g.m, g.d);
  }
}
