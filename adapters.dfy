/**
 * The adapter contract the engine programs against, as a tagged union of the
 * two calendars, and `_setAdapter`, which builds one from a calendar id.
 */
module Adapters {
  import opened Wrappers
  import opened JsDate
  import opened Calendar
  import Gregorian
  import Jalali

  datatype Adapter =
    | GregorianAdapter(settings: Settings)
    | JalaliAdapter(settings: Settings, lib: Jalali.Lib)

  /** `adapter.id`. */
  function Id(a: Adapter): (id: string)
    ensures id == Gregorian.Id || id == Jalali.Id
    ensures a.GregorianAdapter? <==> id == Gregorian.Id
  {
    match a
    case GregorianAdapter(_) => Gregorian.Id
    case JalaliAdapter(_, _) => Jalali.Id
  }

  /** `_setAdapter(calendar)`: "gregorian" selects Gregorian, every other id Jalali. */
  function Make(calendar: string, locale: Option<string>, weekStart: Option<int>,
                jalaali: Option<Jalali.Lib>, global: Option<Jalali.Lib>): (r: Result<Adapter>)
    ensures calendar == Gregorian.Id ==> r == Ok(GregorianAdapter(Gregorian.Create(locale, weekStart)))
    ensures calendar != Gregorian.Id ==> (r.Err? <==> jalaali.None? && global.None?)
    ensures r.Ok? ==> Id(r.value) == (if calendar == Gregorian.Id then Gregorian.Id else Jalali.Id)
  {
    if calendar == Gregorian.Id then Ok(GregorianAdapter(Gregorian.Create(locale, weekStart)))
    else
      match Jalali.Create(locale, weekStart, jalaali, global)
      case Ok(inst) => Ok(JalaliAdapter(inst.settings, inst.lib))
      case Err(msg) => Err(msg)
  }

  function TodayParts(a: Adapter, now: int): (p: Parts)
    ensures Sound(a) ==> IsValidIn(a, p)
  {
    match a
    case GregorianAdapter(_) => Gregorian.TodayParts(now)
    case JalaliAdapter(_, lib) => Jalali.TodayParts(lib, now)
  }

  function MonthLength(a: Adapter, y: int, m: int): int
  {
    match a
    case GregorianAdapter(_) => Gregorian.MonthLength(y, m)
    case JalaliAdapter(_, lib) => Jalali.MonthLength(lib, y, m)
  }

  function ToDateObject(a: Adapter, y: int, m: int, d: int): (date: int)
    ensures a.GregorianAdapter? && 1 <= m <= 12 ==> date == DayNumber(JsYear(y), m, d)
    ensures a.JalaliAdapter? ==> var g := a.lib.toGregorian(y, m, d);
      1 <= g.m <= 12 ==> date == DayNumber(JsYear(g.y), g.m, g.d)
  {
    match a
    case GregorianAdapter(_) => Gregorian.ToDateObject(y, m, d)
    case JalaliAdapter(_, lib) => Jalali.ToDateObject(lib, y, m, d)
  }

  function FromDateObject(a: Adapter, date: int): (p: Parts)
    ensures Sound(a) ==> IsValidIn(a, p)
  {
    match a
    case GregorianAdapter(_) => Gregorian.FromDateObject(date)
    case JalaliAdapter(_, lib) => Jalali.FromDateObject(lib, date)
  }

  function FirstWeekdayOfMonth(a: Adapter, y: int, m: int): (w: int)
    ensures 0 <= w <= 6
  {
    match a
    case GregorianAdapter(_) => Gregorian.FirstWeekdayOfMonth(y, m)
    case JalaliAdapter(_, lib) => Jalali.FirstWeekdayOfMonth(lib, y, m)
  }

  function LabelsOf(a: Adapter): (l: Labels)
    ensures |l.months| == 12 && |l.weekdays| == 7 && l.weekStart == a.settings.weekStart
  {
    match a
    case GregorianAdapter(s) => Gregorian.LabelsOf(s)
    case JalaliAdapter(s, _) => Jalali.LabelsOf(s)
  }

  /** A date is a valid date of the adapter's own calendar. */
  ghost predicate IsValidIn(a: Adapter, p: Parts)
  {
    match a
    case GregorianAdapter(_) => IsValidDate(p)
    case JalaliAdapter(_, lib) => Jalali.IsValidJalaali(lib, p)
  }

  /** A Jalali adapter can rely on its library's contract. */
  ghost predicate Sound(a: Adapter)
  {
    a.JalaliAdapter? ==> Jalali.Lawful(a.lib)
  }

  /** `todayParts()` is the date `fromDateObject` reads from today's `Date`. */
  lemma TodayIsFromDateObject(a: Adapter, now: int)
    ensures TodayParts(a, now) == FromDateObject(a, now)
  {
  }

  /**
   * The pivot is lossless for every sound adapter: a day read as a date of the
   * adapter's calendar converts back to the same day (Gregorian years 0..99,
   * which `Date` reads as 1900..1999, excepted).
   */
  lemma PivotRoundTrip(a: Adapter, date: int)
    requires Sound(a) && !(0 <= FromDays(date).y <= 99)
    ensures var p := FromDateObject(a, date);
      IsValidIn(a, p) && ToDateObject(a, p.y, p.m, p.d) == date
  {
    match a
    case GregorianAdapter(_) =>
      Gregorian.DateRoundTrip(date);
    case JalaliAdapter(_, lib) =>
      Jalali.DateRoundTrip(lib, date);
  }
}
