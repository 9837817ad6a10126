# RoozDatePicker engine, modelled in Dafny

RoozDatePicker is a JavaScript date picker that shows a month grid in either
the Gregorian or the Jalali (Persian) calendar. Its plugins add a `min`/`max`
policy, writing the selected date into a text input, and reading typed text
back as a date. This project models the part of it that is left once the DOM
and the system clock are taken away:

- the engine `RoozDatepicker` and its state;
- the event bus;
- the two calendar adapters;
- the digit, padding and trimming codecs;
- the three bundled plugins: constraints, format and parse.

Each member's contract states what the source or its design promises of it,
and the lemmas beside it prove how the members fit together. Where a contract
is deliberately weaker than the source's promise, "## Left out" says so, line
by line.

- **Dates** (`jsdate.dfy`). The JavaScript `Date` the adapters pivot through is
  a Rata Die day number. Day 1 is 0001-01-01 and `getDay()` is the day number
  modulo 7. The `Date` constructor's quirks are written out:
  - years 0..99 stand for 1900..1999;
  - month indexes carry into the year;
  - days past the end of a month roll over into the next.
- **Adapters** (`gregorian.dfy`, `jalali.dfy`, `adapters.dfy`).
  - The Gregorian adapter is proleptic Gregorian arithmetic over that pivot.
  - The Jalali adapter delegates to the jalaali-js library. The library is a
    value of function-typed fields. Its contract (`toGregorian` and
    `toJalaali` are inverse bijections between valid dates) is the predicate
    `Jalali.Lawful`, which the lemmas that need it require.
- **Month grid** (`monthview.dfy`). The grid `getMonthGrid` builds, and the
  month steps of `nextMonth`/`prevMonth`.
- **Event bus** (`emitter.dfy`). A class over a map from event name to an
  insertion-ordered, duplicate-free sequence of handlers.
- **Codecs** (`jstext.dfy`, `digits.dfy`): `String(n)`, `Number(s)`,
  `trim`, `replaceAll`, `pad2`, `clamp`, and the Persian/Latin digit scripts.
- **Patterns** (`pattern.dfy`). The regular expression the parse plugin builds
  is a list of steps: literal characters, and digit captures of a given
  width. It is matched by a function that follows JavaScript's backtracking
  order.
- **Plugins** (`constraints.dfy`, `format.dfy`, `parse.dfy`). Each is a set of
  pure functions.
- **Engine** (`engine.dfy`, `rooz.dfy`). The class `Rooz.Datepicker` holds:
  - the engine's fields;
  - the bound input's value;
  - a ghost log of every event emitted, in order;
  - what the bundled plugins' `install` leave on the engine (`Engine.Hooks`):
    - the number of `selectDay` wrappers;
    - `dp.isDisabledDay`;
    - `dp.formatValue`;
    - the input bindings.

  Every cleanup a plugin records undoes what that plugin left. `destroy` is
  proved to leave no hook behind.

"Today" is always a parameter (a day number). Nothing reads a clock.

Where the source and its description disagree, the model follows the source:
- `new Date(y, …)` reads the years 0..99 as 1900..1999, so `monthLength(0, 2)`
  is 28, and `isValidGregorian` turns every year 0..99 down. Both are modelled
  as written.
- The parse plugin reads its captures by position, whatever order the pattern
  puts its placeholders in (see "## Findings"). `Parse.HandleAsWritten` models
  that reading, and the engine's `Rooz.Datepicker.HandleInput` uses it. For
  the default pattern "YYYY/MM/DD" the positional reading and the by-field
  reading `Parse.Handle` give the same decision (`Parse.DefaultAsWritten`).
  For other placeholder orders they differ, and only the by-field reading is
  proved to read back what the format plugin writes.

## Model

| member | source | states |
|---|---|---|
| JsText.NatToString | src/core/utils.js:6 | `String(n)` of a natural is a non-empty run of ASCII digits with no leading zero |
| JsText.IntToString | src/plugins/constraints.js:6 | `String(n)` is non-empty: digits for a non-negative number, a leading `-` otherwise |
| JsText.DigitsValueOfNatToString | src/plugins/parse.js:98-100 | `Number` reads `String(n)` back as `n` |
| JsText.DigitsValueLeadingZero | src/plugins/parse.js:98-100 | a leading `0` does not change the number `Number` reads |
| JsText.DigitsValue | src/plugins/parse.js:98-100 | `Number` of a run of ASCII digits, read in base ten; `JsText.DigitsValueOfNatToString` proves it undoes `String(n)` |
| JsText.FourDigitYear | src/plugins/constraints.js:6 | years 1000..9999 print with exactly four digits |
| JsText.TrimStart | src/plugins/parse.js:84 | the result is a suffix of the input; everything dropped is whitespace; the result does not start with whitespace |
| JsText.TrimEnd | src/plugins/parse.js:84 | the result is a prefix of the input; everything dropped is whitespace; the result does not end with whitespace |
| JsText.Trim | src/plugins/parse.js:84 | `trim()` is the middle of the input with only whitespace dropped at either end, and leaves text without whitespace unchanged |
| JsText.ReplaceAllSkips | src/plugins/format.js:5-8 | text that cannot start an occurrence of the pattern passes through `replaceAll` untouched |
| JsText.ReplaceAll | src/plugins/format.js:5-8 | `replaceAll` with a string pattern: every non-overlapping occurrence, left to right; its properties are `JsText.ReplaceAllSkips` and `JsText.ReplaceAllAbsent` |
| JsText.ReplaceAllAbsent | src/plugins/format.js:5-8 | text without the pattern's first character is left unchanged by `replaceAll` |
| JsText.ReplaceAllShort | src/plugins/format.js:5-8 | text shorter than the pattern is unchanged by `replaceAll` |
| JsText.ReplaceAllFront | src/plugins/format.js:5-8 | an occurrence at the front is replaced and the rest is processed in turn |
| Utils.Clamp | src/core/utils.js:1-3 | when min <= max the result lies in [min, max], equals n if n is already in range, and is the nearer bound otherwise; when min > max it is min |
| Utils.Pad2 | src/core/utils.js:5-7 | `pad2(n)` has length max(2, len(String(n))), ends with `String(n)`, and any prefix added is zeros |
| Utils.Pad2TwoDigits | src/core/utils.js:5-7 | for 0..99, `pad2` gives exactly two digits that read back as n |
| Digits.PersianChar | src/core/digits.js:1-6 | an ASCII digit becomes the Persian digit of the same value; any other character is kept |
| Digits.LatinChar | src/core/digits.js:8-10 | a Persian digit becomes the ASCII digit of the same value; any other character is kept |
| Digits.ToPersianDigits | src/core/digits.js:4-6 | keeps the length and maps each character as `PersianChar` does |
| Digits.ToLatinDigits | src/core/digits.js:8-10 | keeps the length and maps each character as `LatinChar` does |
| Digits.PersianDigitsNormalForm | src/core/digits.js:4-6 | `toPersianDigits` leaves no ASCII digit and is idempotent |
| Digits.LatinAfterPersian | src/core/digits.js:1-10 | going to Persian and back restores a string that had no Persian digit |
| Digits.PersianAfterLatin | src/core/digits.js:1-10 | going to Latin and back restores a string that had no ASCII digit |
| Digits.LatinOfBothSpellings | src/core/digits.js:1-10 | a string and its Persian spelling read the same once made Latin |
| Digits.ResolveDigitsMode | src/core/digits.js:16-17 | an explicit mode is kept; "auto" (or no mode) becomes "persian" exactly when the locale (default "fa") is "fa", else "latin" |
| Digits.FormatDigits | src/core/digits.js:16-20 | the input in Persian digits when the mode resolves to "persian", otherwise the input unchanged |
| Digits.SpaceKept | src/core/digits.js:4-6 | switching a character to Persian neither makes nor removes whitespace |
| Digits.TrimStartPersian | src/core/digits.js:4-6 | trimming the front commutes with switching to Persian digits |
| Digits.TrimEndPersian | src/core/digits.js:4-6 | trimming the end commutes with switching to Persian digits |
| Digits.PersianPrefix | src/core/digits.js:4-6 | switching to Persian digits commutes with taking a prefix |
| Digits.TrimPersian | src/core/digits.js:4-6 | `trim` commutes with switching to Persian digits |
| JsDate.DaysInMonth | src/adapters/gregorian.js:15-17 | every month has 28 to 31 days |
| JsDate.YearStep | src/adapters/gregorian.js:19-21 | the day numbers of consecutive New Year's days differ by the length of the year |
| JsDate.LeapCount | src/adapters/gregorian.js:15-17 | the length of a year is 365, plus one for multiples of 4, less one for multiples of 100, plus one for multiples of 400 |
| JsDate.MonthStep | src/adapters/gregorian.js:19-21 | consecutive months start a month's length apart |
| JsDate.LastMonth | src/adapters/gregorian.js:19-21 | December ends where the year ends |
| JsDate.YearsOrdered | src/adapters/gregorian.js:19-21 | a later year starts after an earlier one is over |
| JsDate.YearUp | src/adapters/gregorian.js:23-25 | finds the year that contains a day, searching upwards |
| JsDate.YearDown | src/adapters/gregorian.js:23-25 | finds the year that contains a day, searching downwards |
| JsDate.MonthFrom | src/adapters/gregorian.js:23-25 | finds the month that contains a day of the year |
| JsDate.FromDays | src/adapters/gregorian.js:23-25 | `getFullYear`/`getMonth()+1`/`getDate` give a valid date whose day number is the given day |
| JsDate.DayInYear | src/adapters/gregorian.js:23-25 | a valid date lies inside its own year |
| JsDate.DayNumberInjective | src/plugins/constraints.js:13-15 | different valid dates have different day numbers |
| JsDate.MonthsOrdered | src/adapters/gregorian.js:19-21 | an earlier month of a year ends before a later month starts |
| JsDate.FromDayNumber | src/adapters/gregorian.js:19-25 | reading a valid date back from its day number gives the same date |
| JsDate.DayNumberOrdered | src/plugins/constraints.js:13-15 | the chronological order of valid dates is the order of their day numbers |
| JsDate.JsYear | src/adapters/gregorian.js:16 | the `Date` constructor reads years 0..99 as 1900..1999 and every other year as itself |
| JsDate.ConstructAddsDays | src/adapters/gregorian.js:19-21 | `new Date(y, mi, d)` is `new Date(y, mi, 1)` plus `d - 1` days |
| JsDate.ConstructInRange | src/adapters/gregorian.js:19-21 | for months 1..12, `new Date(y, m - 1, d)` is the day number of (JsYear(y), m, d) |
| JsDate.Weekday | src/adapters/gregorian.js:27-30 | `getDay()` lies in 0..6 |
| JsDate.ConstructRoundTrip | src/adapters/gregorian.js:19-25 | building a valid date and reading its parts gives the date back, in `JsYear` terms |
| JsDate.MonthCarry | src/adapters/gregorian.js:19-21 | a day of month m is the first of the next month plus `d - 1 - length` |
| JsDate.ConstructOverflow | src/adapters/gregorian.js:19-21 | `new Date(y, m - 1, d)` with d past the month's end lands on day `d - length` of the next month |
| JsDate.DayZeroOfNextMonth | src/adapters/gregorian.js:15-17 | `new Date(y, m, 0)` is the last day of month m |
| JsDate.EpochIsThursday | src/adapters/gregorian.js:27-30 | 1970-01-01 is a Thursday (`getDay()` 4), as in JavaScript |
| Gregorian.Create | src/adapters/gregorian.js:1-8 | the locale defaults to "en" and `weekStart` to 1; construction never fails |
| Gregorian.TodayParts | src/adapters/gregorian.js:10-13 | today's parts form the valid date of the given day |
| Gregorian.MonthLength | src/adapters/gregorian.js:15-17 | `new Date(y, m, 0).getDate()` is the length of month m of `JsYear(y)` |
| Gregorian.FromDateObject | src/adapters/gregorian.js:23-25 | reads a valid date, which `toDateObject` maps back to the same day unless its year is 0..99 |
| Gregorian.ToDateObject | src/adapters/gregorian.js:19-21 | for a month in 1..12, the day of (y, m, d), with a year 0..99 read as 1900 + y; `Gregorian.RoundTrip` proves `fromDateObject` undoes it |
| Gregorian.FirstWeekdayOfMonth | src/adapters/gregorian.js:27-30 | lies in 0..6 and is the weekday of `toDateObject(y, m, 1)` |
| Gregorian.LabelsOf | src/adapters/gregorian.js:32-38 | 12 month names and 7 weekday names starting at Sunday; the Persian names exactly when the locale is "fa"; `weekStart` as set |
| Gregorian.MonthLengthRule | src/adapters/gregorian.js:15-17 | from year 100 on: 30 days for April, June, September and November, 31 for the other months except February, and 29 for February exactly in leap years |
| Gregorian.MonthLengthOfTwoDigitYear | src/adapters/gregorian.js:16 | `monthLength(0, 2)` is February 1900 (28 days), while `monthLength(2000, 2)` is 29 |
| Gregorian.RoundTrip | src/adapters/gregorian.js:19-25 | `fromDateObject(toDateObject(y, m, d))` gives back every valid date of a year outside 0..99 |
| Gregorian.DateRoundTrip | src/adapters/gregorian.js:19-25 | `toDateObject(fromDateObject(n))` gives back the day, for years outside 0..99 |
| Gregorian.Overflow | src/adapters/gregorian.js:19-21 | a day past the month's end is read back as a day of the following month |
| Gregorian.FirstWeekdayAdvances | src/adapters/gregorian.js:27-30 | the next month's first weekday is this month's plus its length, modulo 7 |
| Gregorian.WeekdayAfter | src/adapters/gregorian.js:27-30 | a month starting `len` days later starts `len` weekdays later, modulo 7 |
| Gregorian.FirstWeekdayIs | src/adapters/gregorian.js:27-30 | from year 100 on, the first weekday is the day number of the 1st modulo 7 |
| Gregorian.NextStart | src/adapters/gregorian.js:19-21 | the next month starts `monthLength` days after this one |
| Gregorian.LeapFebruary2024 | src/adapters/gregorian.js:15-17 | February 2024 has 29 days |
| Gregorian.Friday15March2024 | src/adapters/gregorian.js:27-30 | March 2024 starts on a Friday, and 2024-03-15 is a Friday |
| Jalali.Resolve | src/adapters/jalali.js:2 | the `jalaali` option if given, else the global; none only when both are missing |
| Calendar.LabelsIn | src/adapters/gregorian.js:32-38 | `labels()`: the Persian names for the "fa" locale, the English names otherwise, and `weekStart` as set |
| Jalali.Create | src/adapters/jalali.js:1-15 | fails exactly when neither the option nor the global gives the library; locale defaults to "fa" and `weekStart` to 6; the option's library wins |
| Jalali.MonthLength | src/adapters/jalali.js:24-26 | exactly the library's `jalaaliMonthLength` |
| Jalali.TodayParts | src/adapters/jalali.js:17-22 | with a lawful library, today's parts form a valid Jalali date |
| Jalali.ToDateObject | src/adapters/jalali.js:28-31 | the day of the library's `toGregorian(y, m, d)`, with a year 0..99 read as 1900 + y |
| Jalali.FromDateObject | src/adapters/jalali.js:33-36 | with a lawful library, a valid Jalali date; `Jalali.RoundTrip` and `Jalali.DateRoundTrip` prove it and `toDateObject` undo each other |
| Jalali.FirstWeekdayOfMonth | src/adapters/jalali.js:38-41 | lies in 0..6 and is the weekday of `toDateObject(y, m, 1)` |
| Jalali.LabelsOf | src/adapters/jalali.js:43-49 | 12 month names and 7 weekday names starting at Saturday; the Persian names exactly when the locale is "fa"; `weekStart` as set |
| Jalali.RoundTrip | src/adapters/jalali.js:28-36 | with a lawful library, `fromDateObject(toDateObject(y, m, d))` gives back a valid Jalali date whose Gregorian year is outside 0..99 |
| Jalali.DateRoundTrip | src/adapters/jalali.js:28-36 | with a lawful library, `toDateObject(fromDateObject(n))` gives back the day as a valid Jalali date |
| Jalali.FirstWeekdayIsGregorian | src/adapters/jalali.js:38-41 | the first weekday of a Jalali month is the Gregorian weekday of `toGregorian(y, m, 1)` |
| Adapters.Id | src/adapters/gregorian.js:41 | the id is "gregorian" exactly for the Gregorian adapter, and "jalali" for the Jalali one |
| Adapters.Make | src/core/rooz.js:55-68 | "gregorian" builds the Gregorian adapter; any other id builds the Jalali adapter, which fails exactly when no library is found |
| Adapters.FirstWeekdayOfMonth | src/core/rooz.js:169 | the adapter's first weekday lies in 0..6 |
| Adapters.LabelsOf | src/core/rooz.js:168 | 12 month names, 7 weekday names, and the adapter's `weekStart` |
| Adapters.TodayIsFromDateObject | src/adapters/jalali.js:17-22 | `todayParts()` is `fromDateObject` of today's `Date`, in both adapters |
| Adapters.TodayParts | src/core/rooz.js:95 | for a sound adapter, today's parts form a valid date of its calendar |
| Adapters.ToDateObject | src/core/rooz.js:93-96 | the day of the date: in Gregorian for the Gregorian adapter, through `toGregorian` for the Jalali one, with a year 0..99 read as 1900 + y |
| Adapters.FromDateObject | src/core/rooz.js:101 | for a sound adapter, the date read is a valid date of its calendar |
| Adapters.PivotRoundTrip | src/core/rooz.js:91-101 | for a sound adapter, a day read as a date of its calendar is valid there and converts back to the same day |
| MonthView.JsRem | src/core/rooz.js:170 | JavaScript's truncating `%` agrees with the Euclidean one for non-negative operands and lies strictly between -b and b |
| MonthView.Blanks | src/core/rooz.js:174-176 | n blank cells, none when n is not positive |
| MonthView.Days | src/core/rooz.js:175 | the cells of days 1..n in order |
| MonthView.Padding | src/core/rooz.js:176 | fewer than 7 blanks, bringing the length to a whole number of weeks |
| MonthView.GridShape | src/core/rooz.js:166-179 | the grid is whole weeks: `leading` blanks, then days 1..`days` in order, then fewer than 7 blanks |
| MonthView.DaysInAppend | src/core/rooz.js:173-176 | the days shown by two grids put together are the days of the first, then those of the second |
| MonthView.DaysInBlanks | src/core/rooz.js:174 | blank cells show no day |
| MonthView.DaysInRun | src/core/rooz.js:175 | a run of consecutive day cells shows those days in order |
| MonthView.GridDays | src/core/rooz.js:166-179 | the non-blank cells are exactly 1..`monthLength`, once each, in order |
| MonthView.Grid | src/core/rooz.js:173-176 | blanks, the days, then blanks to the end of the week; its shape is stated by `MonthView.GridShape` and `MonthView.GridDays` |
| MonthView.MonthGrid | src/core/rooz.js:166-179 | `getMonthGrid` is whole weeks, and its non-blank cells are exactly the days 1..`monthLength(y, m)` of the adapter, once each, in order |
| MonthView.Leading | src/core/rooz.js:170 | with the first weekday and `weekStart` in 0..6, fewer than 7 blanks, after which the first day falls in the column of its weekday |
| MonthView.DaysUnderTheirWeekday | src/core/rooz.js:166-179 | in a Gregorian month every day's cell sits in the column of its own weekday |
| MonthView.ColumnWeekday | src/core/rooz.js:170 | k cells after the first day, the column's weekday is k days later |
| MonthView.Next | src/core/rooz.js:118-123 | the month goes up by one, from 12 to January of the next year, and stays in 1..12 |
| MonthView.Prev | src/core/rooz.js:125-130 | the month goes down by one, from 1 to December of the previous year, and stays in 1..12 |
| MonthView.StepsUndo | src/core/rooz.js:118-130 | `prevMonth` undoes `nextMonth`, and the other way round |
| MonthView.AdvanceCarries | src/core/rooz.js:118-123 | k `nextMonth` steps add k months, carrying into the year |
| MonthView.TwelveMonths | src/core/rooz.js:118-123 | twelve `nextMonth` steps from (Y, M) give (Y + 1, M) |
| Events.Added | src/core/emitter.js:8 | `set.add`: the handler is present once, nothing else changes, and a new handler goes last |
| Events.Removed | src/core/emitter.js:14 | `set.delete`: exactly the handler goes, the others keep their order, and an absent handler changes nothing |
| Events.RemovedUndoesAdded | src/core/emitter.js:6-17 | removing a handler that was just added restores the set |
| Events.AfterOn | src/core/emitter.js:6-10 | `on` adds the handler to its channel, creating it if missing; every other channel is unchanged |
| Events.AfterOff | src/core/emitter.js:12-17 | `off` removes only that handler from that channel, deletes the channel when it empties, and is a no-op for an unknown channel or handler |
| Events.OffUndoesOn | src/core/emitter.js:6-17 | `off` after `on` of a new handler restores the registry exactly |
| Events.Emitter.constructor | src/core/emitter.js:1-4 | a new emitter has no channel |
| Events.Emitter.On | src/core/emitter.js:6-10 | the registry becomes `AfterOn`, and the returned unsubscriber names that event and handler |
| Events.Emitter.Off | src/core/emitter.js:12-17 | the registry becomes `AfterOff` |
| Events.Emitter.Unsubscribe | src/core/emitter.js:9 | calling the function `on` returned is `off` of that event and handler |
| Events.Emitter.Emit | src/core/emitter.js:19-23 | each handler of the channel is called exactly once, in insertion order; none for an unknown channel |
| Events.Emitter.Clear | src/core/emitter.js:25-27 | no channel is left, so every channel has no handler |
| Pattern.EscapeRegExp | src/plugins/parse.js:3-5 | escaping at most doubles the length |
| Pattern.Lits | src/plugins/parse.js:9 | each character of the text as a literal step |
| Pattern.EscapedIsLiteral | src/plugins/parse.js:3-5 | the escaped pattern reads back as the pattern's own characters, each literally |
| Pattern.Token | src/plugins/parse.js:10-12 | every placeholder has at least two letters |
| Pattern.GroupFor | src/plugins/parse.js:10-12 | `YYYY` captures exactly 4 digits; `MM` and `DD` capture 1 or 2, exactly 2 when strict |
| Pattern.Groups | src/plugins/parse.js:13 | the captures of the expression, in order |
| Pattern.ReplaceFirst | src/plugins/parse.js:10-12 | `replace` with a string pattern changes only the first occurrence; steps without the pattern's first step are left unchanged |
| Pattern.BuildMatcher | src/plugins/parse.js:7-14 | a pattern without the letters Y, M and D becomes the steps spelling it literally; `Pattern.RenderLayout` and `Parse.DefaultPatternOrder` state what its placeholders become |
| Pattern.Match | src/plugins/parse.js:92 | a match is anchored at both ends: its captures are digit runs of the widths allowed, and they spell the whole text with the literals; `Pattern.MatchComplete` gives the converse |
| Pattern.MatchComplete | src/plugins/parse.js:92 | text spelled with any captures that fit their groups (digit runs of an allowed width) is matched: a non-strict `\d{1,2}` accepts one digit as well as two |
| Pattern.TryGroupReaches | src/plugins/parse.js:92 | trying a group from width k down finds a match when some width j <= k leaves a matching rest |
| Pattern.FitsHead | src/plugins/parse.js:92 | captures that fit a leading group split into that group's digit run and captures that fit the rest |
| Pattern.TryGroup | src/plugins/parse.js:92 | each capture a group tries gives captures that spell the whole text; `Pattern.TryGroupReaches` gives the converse |
| Pattern.ThreeGroups | src/plugins/parse.js:7-14 | three groups joined by one separator capture those three groups, in order |
| Pattern.ThreeRender | src/plugins/parse.js:7-14 | three captures are spelled joined by the separator |
| Pattern.SplitAtSeparator | src/plugins/parse.js:92 | a digit run followed by a non-digit separator is cut at that separator only |
| Pattern.ThreeSplit | src/plugins/parse.js:92 | with a fixed-width first run, two non-digit separators and a digit middle run, the three runs are determined by the text |
| Pattern.ThreeUnique | src/plugins/parse.js:92 | with a fixed-width first group and a non-digit separator, any two fitting captures that spell the same text are equal |
| Pattern.ThreeMatched | src/plugins/parse.js:92 | with a fixed-width first group and a non-digit separator, any captures that fit are read back exactly, padded or not |
| Pattern.GroupHit | src/plugins/parse.js:92 | a head group taking k digits, followed by a match of the rest, spells the text |
| Pattern.GroupStep | src/plugins/parse.js:13 | a fitting head capture followed by fitting captures fits the whole expression |
| Pattern.MatchRendered | src/plugins/parse.js:92 | text spelled with captures as wide as their groups allow is matched, and gives those captures back |
| Pattern.WidestLit | src/plugins/parse.js:13 | past a literal head, the same captures are widest for the rest |
| Pattern.WidestGroup | src/plugins/parse.js:13 | past a group head, the rest of the captures are widest for the rest |
| Pattern.LitMatched | src/plugins/parse.js:92 | a literal head that matches passes the rest of the text on |
| Pattern.GroupMatched | src/plugins/parse.js:92 | a group head tries its widest capture first, and keeps it when the rest matches |
| Pattern.ReplaceFirstSkips | src/plugins/parse.js:10-12 | `replace` leaves alone a prefix where no occurrence can start |
| Pattern.ReplaceFirstFront | src/plugins/parse.js:10-12 | `replace` replaces an occurrence at the front and nothing after it |
| Pattern.LitsOfSource | src/plugins/parse.js:9 | the pattern's characters are the steps with no placeholder replaced yet |
| Pattern.TokenLetters | src/plugins/parse.js:10-12 | each placeholder repeats one letter, Y, M or D, and the letters differ |
| Pattern.ReplaceFirstStep | src/plugins/parse.js:10-12 | each `replace` turns the single placeholder of its field into that field's capture |
| Pattern.NoPlaceholder | src/plugins/parse.js:10-12 | a placeholder that does not appear changes nothing |
| Pattern.BuildMatcherOfLayout | src/plugins/parse.js:7-14 | for a pattern with each placeholder once, the built expression has each placeholder replaced by its capture, in place |
| Pattern.FieldsOf | src/plugins/parse.js:10-12 | every field whose placeholder appears is listed |
| Pattern.CapsOf | src/plugins/format.js:3-9 | the values of the fields, in order |
| Pattern.GroupsFor | src/plugins/parse.js:10-12 | the captures of the fields, in order |
| Pattern.LitsPrefix | src/plugins/parse.js:9 | literal steps hold no capture and spell their own characters |
| Pattern.RenderLayout | src/plugins/parse.js:7-14 | the built expression captures the fields in the order they appear, and spells the filled pattern |
| Pattern.PickValue | src/plugins/parse.js:98-100 | the capture taken for a field is the value written for it |
| Pattern.MatchFilled | src/plugins/parse.js:7-14 | a pattern with each placeholder once matches itself filled with a four-digit year and a two-digit month and day, capturing them in order |
| Pattern.WidestCaps | src/plugins/parse.js:10-12 | a four-digit year and a two-digit month and day are the widest captures of their groups |
| Parse.ConstructReadsBack | src/plugins/parse.js:19-20 | `new Date(y, m - 1, d)` reads back as (y, m, d) exactly when d is within the month and y is outside 0..99 |
| Parse.IsValidGregorian | src/plugins/parse.js:16-21 | true exactly for a valid Gregorian date whose year is outside 0..99 |
| Parse.IsValidJalali | src/plugins/parse.js:27-41 | false without a library; the library's own check when it has one; a valid Jalali date whose Gregorian year is outside 0..99 is accepted |
| Parse.ResolveCalendar | src/plugins/parse.js:102 | "auto" resolves to the active calendar; any other option is kept |
| Parse.Check | src/plugins/parse.js:104-118 | "gregorian" applies exactly the valid Gregorian dates; any other calendar applies exactly the valid Jalali dates, as "jalali"; anything else is reported as invalid |
| Parse.HandleAsWritten | src/plugins/parse.js:81-119 | reading the captures by position: empty text is ignored when `allowEmpty` is set and invalid otherwise; an applied date is in the resolved calendar and valid there; an invalid report carries the trimmed text |
| Parse.CapturesAreDigits | src/plugins/parse.js:98-100 | every capture is a run of ASCII digits |
| Parse.PickIsCapture | src/plugins/parse.js:98-100 | the capture taken for a field is one of the captures |
| Parse.ReadFields | src/plugins/parse.js:98-118 | the captures either apply a date or report the text as invalid |
| Parse.Handle | src/plugins/parse.js:81-119 | empty text is ignored when `allowEmpty` is set and invalid otherwise; an applied date is in the resolved calendar and valid there; an invalid report carries the trimmed text |
| Parse.FieldOrder | src/plugins/parse.js:10-12 | one field per capture |
| Parse.FieldsInOrder | src/plugins/parse.js:98-100 | when the captures come as year, month, day, the fields' values are the captures by position |
| Parse.AgreeInOrder | src/plugins/parse.js:98-100 | when the captures come as year, month, day, reading them by position and by field give the same decision |
| Parse.DefaultAsWritten | src/plugins/parse.js:98-100 | with the default pattern "YYYY/MM/DD", reading the captures by position and by field give the same decision |
| Parse.DefaultItems | src/plugins/parse.js:7-14 | the default pattern builds a four-digit year, a month and a day capture, joined by "/" |
| Parse.DefaultReadsUnpadded | src/plugins/parse.js:81-119 | under the default pattern, "y/m/d" with a four-digit year and a month and day of one or two digits (two when strict) is read by position as those numbers, and the date check alone decides |
| Parse.DigitsAndSlashSettled | src/plugins/parse.js:84-92 | digits and slashes are left alone by `trim` and `toLatinDigits` |
| Parse.UnpaddedDateRead | src/plugins/parse.js:81-119 | "2024/3/5" under the default pattern, not strict, calendar "gregorian", is applied as 5 March 2024 |
| Parse.DefaultLayoutShape | src/plugins/parse.js:59 | the default pattern "YYYY/MM/DD" has year, month and day once each, in that order, and plain separators |
| Parse.ThreePlaceholders | src/plugins/parse.js:10-12 | three placeholders joined by one separator spell their tokens with it, in order, with each count as placed |
| Parse.Joined | src/plugins/parse.js:10-12 | the layout of three placeholders joined by a separator |
| Parse.ThreeSource | src/plugins/parse.js:10-12 | the text of three joined placeholders |
| Parse.ThreeFields | src/plugins/parse.js:10-12 | the fields of three joined placeholders, in order |
| Parse.ThreeCount | src/plugins/parse.js:10-12 | how often each field's placeholder appears among three joined placeholders |
| Parse.OnePiece | src/plugins/parse.js:10-12 | a piece put in front adds its text and its field |
| Parse.OneCount | src/plugins/parse.js:10-12 | a piece put in front adds its count |
| Parse.SlashIsPlain | src/plugins/parse.js:59 | `/` holds no placeholder letter, no whitespace and no Persian digit |
| Parse.DefaultPatternOrder | src/plugins/parse.js:7-14 | the default pattern captures four digits, then 1..2 (2 when strict) twice, as year, month, day |
| Parse.ReadFieldsRaw | src/plugins/parse.js:104-117 | the raw text only goes to `onInvalid`: the decision does not otherwise depend on it |
| Parse.PersianSpellingReadsAlike | src/plugins/parse.js:91-92 | a text and its Persian spelling are read as the same date by the by-field reading, up to the raw text an invalid report carries |
| Parse.PersianSpellingReadsAlikeAsWritten | src/plugins/parse.js:91-92 | a text and its Persian spelling are read as the same date by the positional reading the engine uses, up to the raw text an invalid report carries |
| Parse.AsWrittenRawBlind | src/plugins/parse.js:84-117 | two texts whose trimmed Latin spellings agree get the same positional decision, up to the raw text an invalid report carries |
| Parse.FilledSettled | src/plugins/format.js:3-9 | a plain pattern filled with digits holds no whitespace or Persian digit, and is at least as long as each value |
| Parse.ReadsFilled | src/plugins/parse.js:81-119 | text a plain pattern spells with a four-digit year and two-digit month and day reads back as those numbers, whatever order the placeholders come in |
| Parse.ReadFieldsFilled | src/plugins/parse.js:98-118 | the captures of a filled pattern read back as the values written into it |
| Parse.FilledIsRaw | src/plugins/parse.js:84-91 | a filled plain pattern is already trimmed, not empty and Latin |
| Parse.SettledUntouched | src/plugins/parse.js:84-91 | `trim` and `toLatinDigits` leave plain text as it is |
| Parse.SettledTrimmed | src/plugins/parse.js:84 | `trim` leaves plain text as it is |
| Parse.SettledLatin | src/plugins/parse.js:91 | `toLatinDigits` leaves plain text as it is |
| Parse.FieldValueFilled | src/plugins/parse.js:98-100 | in a filled pattern each field's capture reads as the value written for it |
| Parse.DayFirstLayoutShape | src/plugins/parse.js:10-12 | "DD/MM/YYYY" puts day, month and year in that order, with plain separators |
| Parse.DigitsOf15March2024 | src/plugins/parse.js:98-100 | "15", "03" and "2024" read as 15, 3 and 2024 |
| Parse.DayFirstText | src/plugins/format.js:3-9 | "DD/MM/YYYY" writes 15 March 2024 as "15/03/2024" |
| Parse.DayFirstReadByField | src/plugins/parse.js:81-119 | read field by field, "15/03/2024" under "DD/MM/YYYY" is 15 March 2024 |
| Parse.March15Valid | src/plugins/parse.js:16-21 | 2024-03-15 is a valid Gregorian date; year 15, month 3, day 2024 is not |
| Parse.DayFirstMatch | src/plugins/parse.js:92 | "15/03/2024" is plain text, and under "DD/MM/YYYY" it captures "15", "03", "2024" in that order |
| Parse.DayFirstCaps | src/plugins/parse.js:98-100 | the values of day, month and year, in that order |
| Parse.DayFirstReadByPosition | src/plugins/parse.js:98-100 | read by position, "15/03/2024" under "DD/MM/YYYY" is year 15, month 3, day 2024, and is turned down |
| Parse.DayFirstPatternMisread | src/plugins/parse.js:98-100 | the parse plugin as written turns down the text the format plugin writes for 15 March 2024 under "DD/MM/YYYY", while reading each capture as its own field selects that date |
| Format.Subst | src/plugins/format.js:5-8 | every placeholder of the field becomes the value; every other piece is kept |
| Format.SubstPlain | src/plugins/format.js:5-8 | writing a value without placeholder letters keeps the pattern free of them |
| Format.ReplaceAllPieces | src/plugins/format.js:5-8 | `replaceAll` of a placeholder writes its value wherever that placeholder stands |
| Format.NumbersHaveNoLetters | src/plugins/format.js:4-8 | `String(n)` and `pad2(n)` hold no placeholder letter |
| Format.SubstAll | src/plugins/format.js:5-8 | writing all three placeholders gives the pattern filled with the values |
| Format.FormatLayout | src/plugins/format.js:3-9 | for a pattern without stray placeholder letters, `formatFromParts` writes `String(y)`, `pad2(m)` and `pad2(d)` wherever their placeholders stand, and keeps the text between |
| Format.FormatFromParts | src/plugins/format.js:3-9 | a pattern without the letters Y, M and D is written unchanged; `Format.FormatLayout` states what is written for placeholders |
| Format.ChosenParts | src/plugins/format.js:29-34 | from a payload, the Jalali parts when the calendar resolves to "jalali", else the Gregorian; plain parts as given |
| Format.DigitsMode | src/plugins/format.js:24 | the plugin's digit mode, else the engine's, else "auto" |
| Format.FormatValue | src/plugins/format.js:23-40 | "" without parts; otherwise the filled pattern, in Persian digits when the mode is "persian", or "auto" with the locale (default "fa") "fa" |
| Format.ScriptOf | src/plugins/format.js:38-39 | the written text is the filled pattern in one of the two digit scripts |
| Format.FormatThenParse | src/plugins/format.js:23-40 | for a plain pattern with each placeholder once, the text written for a four-digit year is read by the corrected by-field reading (`Parse.Handle`) with the same pattern as that very year, month and day, in either script, strict or not |
| Format.ReadWritten | src/plugins/format.js:3-9 | the text written for a date reads back as that date, before any change of script |
| Format.DefaultRoundTrip | src/plugins/format.js:3-9 | with "YYYY/MM/DD", a valid Gregorian date of a four-digit year, written and then parsed as Gregorian, is selected again, by the positional reading the source uses as well as by the by-field one |
| Format.GregorianChecked | src/plugins/parse.js:104-110 | a valid Gregorian date of a year outside 0..99 is applied as Gregorian |
| Constraints.IsoFromGregorian | src/plugins/constraints.js:5-7 | `y-MM-DD`: the year, a dash, `pad2(m)`, a dash, `pad2(d)` |
| Constraints.DateKeyFromDate | src/plugins/constraints.js:17-22 | the key of a `Date` is its own day, unless its year is 0..99 |
| Constraints.DateKeyFromGregorian | src/plugins/constraints.js:13-15 | for a month in 1..12, the day of (y, m, d), with a year 0..99 read as 1900 + y, as `Date.UTC` reads it |
| Constraints.DateKeyOrdered | src/plugins/constraints.js:13-15 | later valid dates have larger keys |
| Constraints.DateKeyInjective | src/plugins/constraints.js:13-15 | two valid dates have the same key exactly when they are the same date |
| Constraints.ParseToDateKey | src/plugins/constraints.js:24-53 | none exactly for an absent or empty bound; a `Date` gives its own key; a string matching `YYYY-M-D` once trimmed gives the key of its numbers, and any other string is an error; an object with a zero field is an error; otherwise its calendar is its own, else the active one, else "gregorian": a Gregorian object gives the key of its fields, a Jalali one the key of its `toGregorian` date, or an error when there is no library; any other value is an error |
| Constraints.IsoGroups | src/plugins/constraints.js:33 | the ISO expression captures year, month and day in that order |
| Constraints.IsoRender | src/plugins/constraints.js:33 | the ISO expression spells its captures joined by dashes |
| Constraints.IsoUntrimmed | src/plugins/constraints.js:32 | the ISO text of a four-digit year holds no whitespace |
| Constraints.IsoRoundTrip | src/plugins/constraints.js:24-36 | the ISO text of a date with a four-digit year, given as a bound, reads back as that date's key |
| Constraints.IsoMatched | src/plugins/constraints.js:33 | the ISO text of a four-digit year matches, capturing `String(y)`, `pad2(m)`, `pad2(d)` |
| Constraints.IsoReadsUnpadded | src/plugins/constraints.js:30-36 | a bound "y-m-d" with a four-digit year and a month and day of one or two digits is read as that Gregorian date's key |
| Constraints.IsoBoundRead | src/plugins/constraints.js:31-35 | a string bound whose trimmed text matches the ISO expression is keyed by `Number` of its three captures as a Gregorian date |
| Constraints.IsoKeyOf | src/plugins/constraints.js:35 | the key of three captures is `dateKeyFromGregorian` of their numbers |
| Constraints.IsoUnpaddedMatched | src/plugins/constraints.js:33 | the ISO expression captures the three numbers of "y-m-d", padded or not |
| Constraints.IsoTextUntrimmed | src/plugins/constraints.js:32 | digits joined by dashes are left alone by `trim` |
| Constraints.IsoWidest | src/plugins/constraints.js:33 | those captures are the widest the ISO expression allows |
| Constraints.IsoWidestOf | src/plugins/constraints.js:33 | four digits, then two and two, are the widest captures of the ISO expression |
| Constraints.BuildInfo | src/plugins/constraints.js:55-98 | an error exactly for a non-Gregorian calendar without a library; otherwise `selected` is (y, m, d), the ISO text and key are those of the Gregorian date, which is (y, m, d) itself for "gregorian" (Jalali form only with a library) and `toGregorian(y, m, d)` otherwise (Jalali form (y, m, d)) |
| Constraints.MakePolicy | src/plugins/constraints.js:111-112 | both bounds are read; either failing makes the install fail |
| Constraints.IsDisabledDay | src/plugins/constraints.js:115-126 | an error exactly when the day's information cannot be built; otherwise disabled exactly when the key is below `min` or above `max`, or the predicate says so |
| Constraints.GregorianWindow | src/plugins/constraints.js:111-126 | with ISO bounds and no predicate, a valid Gregorian day of a four-digit year is disabled exactly when it is before `min` or after `max` |
| Constraints.KeyOrderIsDateOrder | src/plugins/constraints.js:13-15 | a key is smaller exactly when the date is earlier |
| Engine.MakeSound | src/core/rooz.js:55-68 | an adapter built from lawful libraries is sound |
| Engine.SwitchShowsToday | src/core/rooz.js:94-101 | with nothing selected, switching calendars shows today's month in the new calendar |
| Engine.Ignored | src/core/rooz.js:88-89 | `setCalendar` returns at once for an id other than "jalali" and "gregorian", and for the active calendar |
| Engine.Anchor | src/core/rooz.js:91-97 | the selected date, else today, as the old adapter's `Date`; for a sound adapter with nothing selected it is today itself |
| Engine.TodayRoundTrip | src/core/rooz.js:95-96 | for a sound adapter, `toDateObject(todayParts())` is today |
| Engine.SwitchKeepsSelectedDay | src/core/rooz.js:92-101 | with a date selected, switching calendars shows the month holding that same day |
| Engine.PayloadOf | src/core/rooz.js:137-158 | the payload's `selected` is (y, m, d) and its calendar the adapter's id; its `Date` is `toDateObject` and its Gregorian parts are read from that `Date`; `iso` is their ISO text; `jalali` is the selected date in the Jalali calendar, and in the Gregorian one is missing exactly when no library is found |
| Engine.GregorianPayload | src/core/rooz.js:137-148 | a valid Gregorian day is reported as itself, and its Jalali form is the valid Jalali date of the same day |
| Engine.JalaliPayload | src/core/rooz.js:137-142 | a valid Jalali day is reported with the Gregorian date the library maps it to |
| Engine.PayloadMatchesInfo | src/core/rooz.js:137-158 | the constraints plugin judges a day on the very Gregorian date, `Date`, ISO text and Jalali form that selecting it reports |
| Engine.GregorianMatchesInfo | src/plugins/constraints.js:57-78 | the same, for the Gregorian calendar |
| Engine.JalaliMatchesInfo | src/plugins/constraints.js:80-97 | the same, for the Jalali calendar |
| Engine.PayloadIsoReadsBack | src/core/rooz.js:157 | the ISO text of a change, given to the constraints plugin as a bound, reads back as that day |
| Engine.WriteBackStep | src/plugins/format.js:42-47 | delivering to one more handler rewrites the input exactly when that handler is a format writer with `writeToInput` set, the picker is bound to an input and the event is a change |
| Engine.OnlyChangesWrite | src/plugins/format.js:42 | only a change event can rewrite the input |
| Engine.WriteBack | src/plugins/format.js:42-47 | the input's value once a change is delivered to the handlers: the formatted payload when a handler writes, else the old value; `Engine.WriteBackStep` and `Engine.OnlyChangesWrite` prove its properties |
| Engine.Gate | src/plugins/constraints.js:134 | every day passes while no constraints wrapper is installed; otherwise the installed `isDisabledDay` decides, on the view's year and month and the active calendar |
| Engine.Unbind | src/plugins/parse.js:130-133 | the parse teardown removes exactly that installation's listeners |
| Engine.Teardown | src/plugins/constraints.js:138-141 | each cleanup removes only what its own plugin installed: the constraints teardown restores the wrapper count and deletes `isDisabledDay`, the format teardown deletes `formatValue` (src/plugins/format.js:53-56), the parse teardown unbinds its listeners (src/plugins/parse.js:130-133); every other hook is kept |
| Engine.TeardownLast | src/core/rooz.js:190 | running the newest cleanup leaves every hook accounted for by the older ones |
| Engine.NothingLeft | src/core/rooz.js:189-193 | with no cleanup left, no hook is left either |
| Engine.Recorded | src/core/rooz.js:72-75 | recording a plugin's cleanup with the hooks its install left keeps every hook accounted for |
| Engine.Reversed | src/core/rooz.js:190 | `reverse()` puts the i-th from the end at position i |
| Engine.PaddingReached | src/core/rooz.js:176 | the padding loop stops exactly at the padding |
| Engine.PaddingBelow | src/core/rooz.js:176 | short of the padding, the cells do not yet make whole weeks |
| Engine.FillGrid | src/core/rooz.js:173-178 | the three loops build exactly the month grid |
| Engine.PadToWeeks | src/core/rooz.js:176 | the last loop adds exactly the padding's blanks |
| Rooz.Datepicker.constructor | src/core/rooz.js:8-53 | the options are kept; the state is the adapter's id, the locale and today's year and month with nothing selected; no plugin, cleanup, hook or listener; `init` is emitted |
| Rooz.Datepicker.Lib | src/core/rooz.js:144 | the `jalaali` option if given, else the global; none only when both are missing |
| Rooz.Datepicker.Built | src/core/rooz.js:55-68 | "gregorian" always builds the Gregorian adapter; any other id builds the Jalali adapter, which fails exactly when no library is found |
| Rooz.Datepicker.Open | src/core/rooz.js:8-53 | the constructor fails exactly when the adapter cannot be built; otherwise the state is today's month of the new adapter and `init` is emitted |
| Rooz.Datepicker.Emit | src/core/rooz.js:83-85 | the channel's handlers run in order; the event is logged; the input holds what the format writers among them leave |
| Rooz.Datepicker.On | src/core/rooz.js:79-81 | the listener is added to the event's channel |
| Rooz.Datepicker.Unsubscribe | src/core/emitter.js:9 | the listener is removed from its channel |
| Rooz.Datepicker.GetMonthGrid | src/core/rooz.js:166-179 | the grid of the viewed month in the active calendar |
| Rooz.Datepicker.Render | src/core/rooz.js:181-187 | emits `render` with the state, the labels and the grid, and leaves the input alone |
| Rooz.Datepicker.SetView | src/core/rooz.js:111-116 | stores year and month as given, then emits `render` and `viewChange` |
| Rooz.Datepicker.NextMonth | src/core/rooz.js:118-123 | the view moves one month on, calendar and selection unchanged, then `render` and `viewChange` |
| Rooz.Datepicker.PrevMonth | src/core/rooz.js:125-130 | the view moves one month back, calendar and selection unchanged, then `render` and `viewChange` |
| Rooz.Datepicker.SetCalendar | src/core/rooz.js:87-109 | an unknown or active id changes nothing and emits nothing; a Jalali adapter without a library fails and changes nothing; otherwise the new adapter shows the month of the anchor day, the selection is cleared, then `render` and `calendarChange` |
| Rooz.Datepicker.Switch | src/core/rooz.js:99-108 | the new adapter shows the given month, the selection is cleared, then `render` and `calendarChange` |
| Rooz.Datepicker.OriginalSelectDay | src/core/rooz.js:132-164 | selects the day of the viewed month, then `render` and `change` with its payload; the input holds what the format writers leave |
| Rooz.Datepicker.Announce | src/core/rooz.js:160-161 | `render`, then `change` with the payload |
| Rooz.Datepicker.SelectDay | src/plugins/constraints.js:128-136 | a disabled day, or a check that throws, changes nothing and emits nothing; otherwise the engine's own `selectDay` runs |
| Rooz.Datepicker.Use | src/core/rooz.js:70-77 | a missing plugin changes nothing; otherwise the plugin is installed and recorded, and a returned function or `destroy` object becomes a cleanup; an install that throws changes nothing |
| Rooz.Datepicker.InstallConstraints | src/plugins/constraints.js:110-141 | both bounds are read first; then `isDisabledDay` is set, `selectDay` wrapped, and a teardown that restores them is recorded |
| Rooz.Datepicker.InstallFormat | src/plugins/format.js:22-57 | sets `formatValue`, subscribes a fresh `change` writer, and records a teardown |
| Rooz.Datepicker.InstallParse | src/plugins/parse.js:70-134 | binds `handle` to the input and records a teardown that unbinds it |
| Rooz.Datepicker.Destroy | src/core/rooz.js:189-193 | each cleanup runs once, newest first; no hook is left; the plugin and cleanup lists are emptied and every listener goes |
| Rooz.Datepicker.HandleInput | src/plugins/parse.js:81-119 | the decision is the source's positional reading `Parse.HandleAsWritten` of the input's value; text that does not read as a valid date changes nothing; a valid one switches to its calendar and month, and selects its day unless the constraints disable it |
| Rooz.Datepicker.ApplyParsed | src/plugins/parse.js:75-79 | `setCalendar`, `setView`, then `selectDay`: the calendar and month are those read, and the day is selected unless disabled |

## Left out

- The DOM: target lookup, the root element, `rooz:change` dispatch and `root.remove()` (src/core/rooz.js:22-35, 163, 194). `el` and `isInput` are DOM helpers. The bound input is its `value` string, and `isBoundToInput` is a flag.
- The system clock: `todayParts` takes today's day number as a parameter.
- Time zones, daylight saving time and milliseconds: `Date` and `Date.UTC` are day numbers. Keys are days, not milliseconds, which keeps their order.
- The popup and ui-basic plugins: DOM rendering and positioning.
- The internals of jalaali-js: the library is four function-typed fields, and its contract is the predicate `Jalali.Lawful`. A library that throws, or that lacks `toJalaali`, is not modelled. The `try`/`catch` of `isValidJalali` (src/plugins/parse.js:35-40) is therefore not modelled.
- `null` and `undefined` are not told apart. Both are `None`.
- Arbitrary plugins and event handlers run no code in the model. A handler only counts for what the format writer does to the input. Re-entrancy (a handler calling `on`, `off` or `setCalendar` during `emit`) is not modelled.
- `_roozSettingInputValue` and its `queueMicrotask` reset (src/plugins/format.js:46-50, src/plugins/parse.js:82): a write from the format plugin is not echoed back into the parse plugin, because event listeners are not modelled.
- The parse plugin's `keydown`/Enter listener and its `updateOn` event (src/plugins/parse.js:122-128) are not modelled. `HandleInput` is the call such a listener makes.
- `onInvalid` is a decision (`Parse.Invalid(raw)`), not a call.
- `this.formatDigits` on the engine (src/core/rooz.js:48-49) is `Digits.FormatDigits` with the engine's options. It is not a member of the class.
- Events other than those the engine emits: `emit` with an arbitrary name and payload is not modelled. The `init` payload `{ instance }` is the event `Init`.
- A writer installed by the format plugin when `formatValue` has since been deleted by another teardown: such a writer stops at the missing `formatValue` in the model.
- `Number` of a capture that is not present (a pattern missing a placeholder reads `NaN`): `NaN` is modelled as "no value", which no check accepts.
- The regular expressions are modelled as lists of literal and digit-capture steps with a backtracking matcher, not as a general engine. The placeholders are replaced in the pattern's literal steps rather than in the escaped source text. `Pattern.EscapedIsLiteral` proves that the escaped text reads as exactly those literal steps.
- JsDate.Construct, JsDate.FromDays, MonthView.MonthGrid: the range of a JavaScript `Date` (±8.64e15 ms, the years −271821 to 275760) is not modelled. Days are unbounded integers. Beyond that range the source's `Date` is invalid, its getters give `NaN`, and `getMonthGrid` returns no days; the model keeps computing dates there.
- MonthView.DaysUnderTheirWeekday: proved for the Gregorian adapter only. For the Jalali adapter the column test rests on the library's weekday, which `Jalali.FirstWeekdayIsGregorian` states.
- Rooz.Datepicker.HandleInput: does not state the events it emits. `ApplyParsed` is specified by the calendar, the view and the selection it leaves, not by the log of `render`/`calendarChange`/`viewChange`/`change` events.
- Rooz.Datepicker.ApplyParsed: does not state the events it emits, for the same reason.

## Findings

| source | as written | input that shows it | evidently intended | confidence | as-written member | corrected member |
|---|---|---|---|---|---|---|
| src/plugins/parse.js:98-100 | the captures are read by position, as year, month, day, whatever order the pattern puts the placeholders in | pattern "DD/MM/YYYY", calendar "gregorian", text "15/03/2024" (what the format plugin writes for 15 March 2024 with that pattern): read as year 15, month 3, day 2024, and turned down | each capture read as the field whose placeholder it replaced, so that any placeholder order the `pattern` option allows reads back | not executed | Parse.HandleAsWritten, Parse.DayFirstPatternMisread | Parse.Handle, Parse.ReadsFilled, Format.FormatThenParse |
