/** What every calendar adapter is configured with and what its `labels()` returns. */
module Calendar {

  /** The options an adapter closes over, with its defaults already applied. */
  datatype Settings = Settings(locale: string, weekStart: int)

  /** `labels()`: month names, weekday names, and the first column's weekday (0 = Sunday). */
  datatype Labels = Labels(months: seq<string>, weekdays: seq<string>, weekStart: int)

  /** `labels()` of an adapter whose names are `fa` for the "fa" locale and `en` for any other. */
  function LabelsIn(s: Settings, fa: Labels, en: Labels): (l: Labels)
    ensures l.weekStart == s.weekStart
    ensures l.months == (if s.locale == "fa" then fa.months else en.months)
    ensures l.weekdays == (if s.locale == "fa" then fa.weekdays else en.weekdays)
  {
    var names := if s.locale == "fa" then fa else en;
    names.(weekStart := s.weekStart)
  }
}
