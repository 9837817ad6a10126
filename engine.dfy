/**
 * `RoozDatepicker`: the engine's state machine. The DOM is gone: the bound
 * input is its `value` string, the clock is the `today` day number callers
 * pass in, and the events the engine emits are recorded, in order, in a
 * ghost log. The three bundled plugins are modelled through what their
 * `install` leaves on the engine (the hooks); any other plugin only through
 * what its `install` returns.
 */
module Engine {
  import opened Wrappers
  import opened JsDate
  import opened Calendar
  import opened Adapters
  import opened MonthView
  import opened Events
  import Gregorian
  import Jalali
  import Constraints
  import Parse
  import Format

  /** `{ calendar: "jalali", locale: "fa", digits: "auto", weekStart, jalaali, ...options }`. */
  datatype Options = Options(calendar: string, locale: Option<string>, digits: Option<string>,
                             weekStart: Option<int>, jalaali: Option<Jalali.Lib>)

  const DefaultOptions: Options := Options("jalali", Some("fa"), Some("auto"), None, None)

  /** `this.state`; `selected` is a date of the active calendar. */
  datatype State = State(calendar: string, locale: Option<string>, viewYear: int, viewMonth: int,
                         selected: Option<Parts>)

  /** The `change` payload; `date` is the JavaScript `Date`, as a day number. */
  datatype Payload = Payload(calendar: string, selected: Parts, date: int, gregorian: Parts,
                             jalali: Option<Parts>, iso: string)

  /** The events the engine emits, each with its payload. */
  datatype Event =
    | Init
    | Rendered(state: State, labels: Labels, grid: seq<Option<int>>)
    | CalendarChanged(calendar: string)
    | ViewChanged(year: int, month: int)
    | Changed(payload: Payload)

  function Name(e: Event): string
  {
    match e
    case Init => "init"
    case Rendered(_, _, _) => "render"
    case CalendarChanged(_) => "calendarChange"
    case ViewChanged(_, _) => "viewChange"
    case Changed(_) => ChangeName
  }

  /**
   * The handlers on the bus: a caller's listener, named by the caller, or
   * the `change` handler of one installation of the format plugin.
   */
  datatype Handler = Listener(id: nat) | FormatWriter(serial: nat, writeToInput: bool)

  /** What a plugin's `install` returns: nothing, a function, or an object with `destroy`. */
  datatype Installed = NothingReturned | CleanupFunction | DestroyObject

  datatype Plugin =
    | ConstraintsPlugin(constraints: Constraints.ConstraintOptions)
    | FormatPlugin(format: Format.FormatOptions)
    | ParsePlugin(parse: Parse.ParseOptions)
    | OtherPlugin(name: string, installed: Installed)

  /** An entry of `_pluginCleanups`. */
  datatype Cleanup =
    | OtherCleanup(name: string, viaDestroy: bool)
    | ConstraintsTeardown(saved: nat)
    | FormatTeardown(writer: Handler)
    | ParseTeardown(id: nat)

  /** The input listeners of one installation of the parse plugin. */
  datatype Binding = Binding(id: nat, options: Parse.ParseOptions)

  /**
   * What the bundled plugins leave on the engine: how many constraint
   * wrappers sit around the original `selectDay` (each restores the count it
   * found), `dp.isDisabledDay`, `dp.formatValue`, and the bound parsers.
   */
  datatype Hooks = Hooks(layers: nat, isDisabledDay: Option<Constraints.Policy>,
                         formatValue: Option<Format.FormatOptions>, parsers: seq<Binding>)

  const Pristine: Hooks := Hooks(0, None, None, [])

  ghost predicate LawfulIfPresent(lib: Option<Jalali.Lib>)
  {
    lib.Some? ==> Jalali.Lawful(lib.value)
  }

  /** An adapter built from lawful libraries is sound. */
  lemma MakeSound(calendar: string, locale: Option<string>, weekStart: Option<int>,
                  jalaali: Option<Jalali.Lib>, global: Option<Jalali.Lib>)
    requires LawfulIfPresent(jalaali) && LawfulIfPresent(global)
    requires Make(calendar, locale, weekStart, jalaali, global).Ok?
    ensures Sound(Make(calendar, locale, weekStart, jalaali, global).value)
  {
  }

  /** The event the format plugin listens to. */
  const ChangeName: string := "change"

  /** `setCalendar` ignores ids other than "jalali" and "gregorian", and the active one. */
  predicate Ignored(calendar: string, a: Adapter)
  {
    (calendar != Jalali.Id && calendar != Gregorian.Id) || calendar == Id(a)
  }

  /** The day `setCalendar` keeps in view: the selected date, else today, as the old adapter's `Date`. */
  function Anchor(a: Adapter, s: State, today: int): (date: int)
    ensures Sound(a) && s.selected.None? && !(0 <= FromDays(today).y <= 99) ==> date == today
  {
    TodayRoundTrip(a, today);
    match s.selected
    case Some(p) => ToDateObject(a, p.y, p.m, p.d)
    case None => var t := TodayParts(a, today); ToDateObject(a, t.y, t.m, t.d)
  }

  /** Today's parts in a sound adapter convert back to today. */
  lemma TodayRoundTrip(a: Adapter, today: int)
    ensures Sound(a) && !(0 <= FromDays(today).y <= 99) ==>
      var t := TodayParts(a, today); ToDateObject(a, t.y, t.m, t.d) == today
  {
    if Sound(a) && !(0 <= FromDays(today).y <= 99) {
      TodayIsFromDateObject(a, today);
      PivotRoundTrip(a, today);
    }
  }

  /** With nothing selected, switching calendars shows today's month in the new calendar. */
  lemma SwitchShowsToday(a: Adapter, b: Adapter, s: State, today: int)
    requires Sound(a) && s.selected.None? && !(0 <= FromDays(today).y <= 99)
    ensures FromDateObject(b, Anchor(a, s, today)) == TodayParts(b, today)
  {
    TodayIsFromDateObject(b, today);
  }

  /** With a date selected, switching calendars shows the month holding that same day. */
  lemma SwitchKeepsSelectedDay(a: Adapter, b: Adapter, s: State, today: int)
    requires Sound(a) && Sound(b) && s.selected.Some? && IsValidIn(a, s.selected.value)
    requires !(0 <= FromDays(Anchor(a, s, today)).y <= 99)
    ensures var p := FromDateObject(b, Anchor(a, s, today));
      IsValidIn(b, p) && ToDateObject(b, p.y, p.m, p.d) == ToDateObject(a, s.selected.value.y, s.selected.value.m, s.selected.value.d)
  {
    PivotRoundTrip(b, Anchor(a, s, today));
  }

  /** The payload `selectDay` builds for day `d` of month `m` of year `y` in the adapter's calendar. */
  function PayloadOf(a: Adapter, lib: Option<Jalali.Lib>, y: int, m: int, d: int): (p: Payload)
    ensures p.selected == Parts(y, m, d) && p.calendar == Id(a)
    ensures p.date == ToDateObject(a, y, m, d) && p.gregorian == FromDays(p.date)
    ensures p.iso == Constraints.IsoFromGregorian(p.gregorian)
    ensures a.JalaliAdapter? ==> p.jalali == Some(Parts(y, m, d))
    ensures a.GregorianAdapter? ==> (p.jalali.None? <==> lib.None?)
  {
    var date := ToDateObject(a, y, m, d);
    var g := FromDays(date);
    var jalali := if a.JalaliAdapter? then Some(Parts(y, m, d))
                  else (match lib case Some(l) => Some(l.toJalaali(g.y, g.m, g.d)) case None => None);
    Payload(Id(a), Parts(y, m, d), date, g, jalali, Constraints.IsoFromGregorian(g))
  }

  /**
   * A valid Gregorian day is reported as itself, and its Jalali form, when a
   * lawful library gives one, is the valid Jalali date naming the same day.
   */
  lemma GregorianPayload(s: Settings, lib: Option<Jalali.Lib>, p: Parts)
    requires IsValidDate(p) && !(0 <= p.y <= 99) && LawfulIfPresent(lib)
    ensures var r := PayloadOf(GregorianAdapter(s), lib, p.y, p.m, p.d);
      && r.gregorian == p
      && (r.jalali.Some? ==>
            Jalali.IsValidJalaali(lib.value, r.jalali.value)
            && lib.value.toGregorian(r.jalali.value.y, r.jalali.value.m, r.jalali.value.d) == p)
  {
    ConstructRoundTrip(p.y, p.m, p.d);
  }

  /** A valid Jalali day is reported with the Gregorian date the library maps it to. */
  lemma JalaliPayload(s: Settings, lib: Jalali.Lib, lookup: Option<Jalali.Lib>, p: Parts)
    requires Jalali.Lawful(lib) && Jalali.IsValidJalaali(lib, p)
    requires !(0 <= lib.toGregorian(p.y, p.m, p.d).y <= 99)
    ensures var r := PayloadOf(JalaliAdapter(s, lib), lookup, p.y, p.m, p.d);
      r.gregorian == lib.toGregorian(p.y, p.m, p.d) && r.jalali == Some(p)
  {
    var g := lib.toGregorian(p.y, p.m, p.d);
    ConstructRoundTrip(g.y, g.m, g.d);
  }

  /** The Gregorian date a date of the adapter's calendar names. */
  function GregorianOf(a: Adapter, p: Parts): Parts
  {
    match a
    case GregorianAdapter(_) => p
    case JalaliAdapter(_, lib) => lib.toGregorian(p.y, p.m, p.d)
  }

  /**
   * The constraints plugin judges a day on the very Gregorian date, `Date`,
   * ISO text and Jalali form that selecting it reports.
   */
  lemma PayloadMatchesInfo(a: Adapter, lib: Option<Jalali.Lib>, p: Parts)
    requires Sound(a) && IsValidIn(a, p) && LawfulIfPresent(lib)
    requires a.JalaliAdapter? ==> lib == Some(a.lib)
    requires !(0 <= GregorianOf(a, p).y <= 99)
    ensures var r := PayloadOf(a, lib, p.y, p.m, p.d);
      var info := Constraints.BuildInfo(lib, Id(a), p.y, p.m, p.d);
      && info.Ok?
      && info.value.gregorian == r.gregorian && info.value.iso == r.iso
      && info.value.jalali == r.jalali && info.value.date == r.date
  {
    match a
    case GregorianAdapter(s) => GregorianMatchesInfo(s, lib, p);
    case JalaliAdapter(s, l) => JalaliMatchesInfo(s, l, p);
  }

  lemma GregorianMatchesInfo(s: Settings, lib: Option<Jalali.Lib>, p: Parts)
    requires IsValidDate(p) && LawfulIfPresent(lib)
    requires !(0 <= p.y <= 99)
    ensures var r := PayloadOf(GregorianAdapter(s), lib, p.y, p.m, p.d);
      var info := Constraints.BuildInfo(lib, Gregorian.Id, p.y, p.m, p.d);
      && info.Ok?
      && info.value.gregorian == r.gregorian && info.value.iso == r.iso
      && info.value.jalali == r.jalali && info.value.date == r.date
  {
    GregorianPayload(s, lib, p);
  }

  lemma JalaliMatchesInfo(s: Settings, l: Jalali.Lib, p: Parts)
    requires Jalali.Lawful(l) && Jalali.IsValidJalaali(l, p)
    requires !(0 <= l.toGregorian(p.y, p.m, p.d).y <= 99)
    ensures var r := PayloadOf(JalaliAdapter(s, l), Some(l), p.y, p.m, p.d);
      var info := Constraints.BuildInfo(Some(l), Jalali.Id, p.y, p.m, p.d);
      && info.Ok?
      && info.value.gregorian == r.gregorian && info.value.iso == r.iso
      && info.value.jalali == r.jalali && info.value.date == r.date
  {
    JalaliPayload(s, l, Some(l), p);
    var g := l.toGregorian(p.y, p.m, p.d);
    assert Jalali.Id != "gregorian";
    var info := Constraints.BuildInfo(Some(l), Jalali.Id, p.y, p.m, p.d);
    assert info.Ok? && info.value.gregorian == g;
    assert info.value.date == Construct(g.y, g.m - 1, g.d);
  }

  /**
   * The ISO text of a change on a day of a four-digit Gregorian year, handed
   * to the constraints plugin as a bound, reads back as that very day.
   */
  lemma PayloadIsoReadsBack(a: Adapter, lib: Option<Jalali.Lib>, current: string, y: int, m: int, d: int)
    requires 1000 <= PayloadOf(a, lib, y, m, d).gregorian.y <= 9999
    ensures var r := PayloadOf(a, lib, y, m, d);
      Constraints.ParseToDateKey(lib, current, Constraints.Str(r.iso)) == Ok(Some(r.date))
  {
    var r := PayloadOf(a, lib, y, m, d);
    var g := r.gregorian;
    assert IsValidDate(g);
    Constraints.IsoRoundTrip(lib, current, g);
    ConstructInRange(g.y, g.m, g.d);
    FromDayNumber(g);
    DayInYear(g);
  }

  /** Some handler among `handlers` is a format plugin's writer with `writeToInput` set. */
  predicate Writes(handlers: seq<Handler>)
  {
    exists i :: 0 <= i < |handlers| && handlers[i].FormatWriter? && handlers[i].writeToInput
  }

  /** `dp.formatValue(payload)` for a change event. */
  function Formatted(e: Event, fmt: Format.FormatOptions, opts: Options, current: string): string
    requires e.Changed?
  {
    Format.FormatValue(fmt, opts.digits, opts.locale, current, Format.PayloadIn(e.payload.gregorian, e.payload.jalali))
  }

  /**
   * What the format plugin's `change` handlers leave in the input after
   * event `e` was delivered to `handlers`: the formatted payload when `e` is a
   * change, the picker is bound to an input, `formatValue` is installed and
   * one of the handlers writes; otherwise the value as it was.
   */
  function WriteBack(value: string, e: Event, handlers: seq<Handler>, bound: bool,
                     fmt: Option<Format.FormatOptions>, opts: Options, current: string): string
  {
    if e.Changed? && bound && fmt.Some? && Writes(handlers) then Formatted(e, fmt.value, opts, current) else value
  }

  /** Delivering to one more handler. */
  lemma WriteBackStep(value: string, e: Event, handlers: seq<Handler>, h: Handler, bound: bool,
                      fmt: Option<Format.FormatOptions>, opts: Options, current: string)
    ensures WriteBack(value, e, handlers + [h], bound, fmt, opts, current)
      == if h.FormatWriter? && h.writeToInput && bound && e.Changed? && fmt.Some?
         then Formatted(e, fmt.value, opts, current)
         else WriteBack(value, e, handlers, bound, fmt, opts, current)
  {
    var hs := handlers + [h];
    if Writes(handlers) {
      var i :| 0 <= i < |handlers| && handlers[i].FormatWriter? && handlers[i].writeToInput;
      assert hs[i] == handlers[i];
    }
    if h.FormatWriter? && h.writeToInput {
      assert hs[|handlers|] == h;
    }
    if Writes(hs) && !(h.FormatWriter? && h.writeToInput) {
      var i :| 0 <= i < |hs| && hs[i].FormatWriter? && hs[i].writeToInput;
      assert i < |handlers| && handlers[i] == hs[i];
    }
  }

  /** Only a change event can rewrite the input. */
  lemma OnlyChangesWrite(value: string, e: Event, handlers: seq<Handler>, bound: bool,
                         fmt: Option<Format.FormatOptions>, opts: Options, current: string)
    requires !e.Changed?
    ensures WriteBack(value, e, handlers, bound, fmt, opts, current) == value
  {
  }

  /** The result of the (possibly wrapped) `selectDay`. */
  datatype Selection = Selected(payload: Payload) | Vetoed | Failed(message: string)

  /** The constraints wrapper's test: `dp.isDisabledDay?.(viewYear, viewMonth, day, calendar)`. */
  function Gate(h: Hooks, s: State, day: int): (r: Result<bool>)
    ensures h.layers == 0 || h.isDisabledDay.None? ==> r == Ok(false)
    ensures h.layers > 0 && h.isDisabledDay.Some? ==>
      r == Constraints.IsDisabledDay(h.isDisabledDay.value, s.viewYear, s.viewMonth, day, s.calendar)
  {
    if h.layers > 0 && h.isDisabledDay.Some?
    then Constraints.IsDisabledDay(h.isDisabledDay.value, s.viewYear, s.viewMonth, day, s.calendar)
    else Ok(false)
  }

  /** The constraint wrappers `cs` installs. */
  function Layers(cs: seq<Cleanup>): nat
  {
    if cs == [] then 0
    else Layers(cs[..|cs| - 1]) + (if cs[|cs| - 1].ConstraintsTeardown? then 1 else 0)
  }

  /** Each constraints teardown restores the wrapper count it found when it was installed. */
  ghost predicate Nested(cs: seq<Cleanup>)
  {
    forall i :: 0 <= i < |cs| && cs[i].ConstraintsTeardown? ==> cs[i].saved == Layers(cs[..i])
  }

  /** Every hook on the engine has a cleanup in `cs` that removes it. */
  ghost predicate Accounted(h: Hooks, cs: seq<Cleanup>)
  {
    && h.layers == Layers(cs)
    && (h.isDisabledDay.Some? ==> h.layers > 0)
    && (h.formatValue.Some? ==> exists i :: 0 <= i < |cs| && cs[i].FormatTeardown?)
    && (forall b :: b in h.parsers ==> ParseTeardown(b.id) in cs)
  }

  /** A parse plugin's teardown: its listeners are removed. */
  function Unbind(bs: seq<Binding>, id: nat): (r: seq<Binding>)
    ensures forall b :: b in r <==> b in bs && b.id != id
  {
    if bs == [] then [] else (if bs[0].id == id then [] else [bs[0]]) + Unbind(bs[1..], id)
  }

  /** What running a cleanup does to the hooks. */
  function Teardown(h: Hooks, c: Cleanup): (r: Hooks)
    ensures !c.ConstraintsTeardown? ==> r.layers == h.layers && r.isDisabledDay == h.isDisabledDay
    ensures !c.FormatTeardown? ==> r.formatValue == h.formatValue
    ensures !c.ParseTeardown? ==> r.parsers == h.parsers
    ensures c.ConstraintsTeardown? ==> r.layers == c.saved && r.isDisabledDay.None?
    ensures c.FormatTeardown? ==> r.formatValue.None?
    ensures c.ParseTeardown? ==> forall b :: b in r.parsers <==> b in h.parsers && b.id != c.id
  {
    match c
    case OtherCleanup(_, _) => h
    case ConstraintsTeardown(saved) => h.(layers := saved, isDisabledDay := None)
    case FormatTeardown(_) => h.(formatValue := None)
    case ParseTeardown(id) => h.(parsers := Unbind(h.parsers, id))
  }

  /** Running the last cleanup of `cs` leaves hooks accounted for by the rest. */
  lemma TeardownLast(h: Hooks, cs: seq<Cleanup>, k: nat)
    requires 0 < k <= |cs| && Nested(cs) && Accounted(h, cs[..k])
    ensures Accounted(Teardown(h, cs[k - 1]), cs[..k - 1])
  {
    assert cs[..k][..k - 1] == cs[..k - 1];
    assert cs[..k][k - 1] == cs[k - 1];
    var c := cs[k - 1];
    var h' := Teardown(h, c);
    if h'.formatValue.Some? {
      var i :| 0 <= i < k && cs[..k][i].FormatTeardown?;
      assert i != k - 1;
      assert cs[..k - 1][i] == cs[i];
    }
    forall b | b in h'.parsers
      ensures ParseTeardown(b.id) in cs[..k - 1]
    {
      assert ParseTeardown(b.id) in cs[..k];
      assert ParseTeardown(b.id) != c;
    }
  }

  /** With no cleanups left, no hook is left either. */
  lemma NothingLeft(h: Hooks)
    requires Accounted(h, [])
    ensures h == Pristine
  {
    if h.parsers != [] {
      HeadIn(h.parsers);
      assert false;
    }
  }

  lemma HeadIn<T>(s: seq<T>)
    requires s != []
    ensures s[0] in s
  {
  }

  /** Recording one more cleanup, with the hooks its install left. */
  lemma Recorded(h: Hooks, cs: seq<Cleanup>, h': Hooks, c: Cleanup)
    requires Nested(cs) && Accounted(h, cs)
    requires c.ConstraintsTeardown? ==> c.saved == h.layers && h' == h.(layers := h.layers + 1, isDisabledDay := h'.isDisabledDay)
    requires c.FormatTeardown? ==> h' == h.(formatValue := h'.formatValue)
    requires c.ParseTeardown? ==>
      (&& h'.layers == h.layers && h'.isDisabledDay == h.isDisabledDay && h'.formatValue == h.formatValue
       && forall b :: b in h'.parsers ==> b in h.parsers || b.id == c.id)
    requires c.OtherCleanup? ==> h' == h
    ensures Nested(cs + [c]) && Accounted(h', cs + [c])
  {
    var cs' := cs + [c];
    assert cs'[..|cs|] == cs;
    forall i | 0 <= i < |cs'| && cs'[i].ConstraintsTeardown?
      ensures cs'[i].saved == Layers(cs'[..i])
    {
      if i < |cs| {
        assert cs'[..i] == cs[..i];
      }
    }
    if h'.formatValue.Some? && !c.FormatTeardown? {
      var i :| 0 <= i < |cs| && cs[i].FormatTeardown?;
      assert cs'[i] == cs[i];
    }
    if c.FormatTeardown? {
      assert cs'[|cs|].FormatTeardown?;
    }
  }

  /** `_pluginCleanups.reverse()`. */
  function Reversed<T>(s: seq<T>): (r: seq<T>)
    ensures |r| == |s| && forall i :: 0 <= i < |s| ==> r[i] == s[|s| - 1 - i]
  {
    if s == [] then [] else Reversed(s[1..]) + [s[0]]
  }

  lemma BlanksStep(n: nat)
    ensures Blanks(n) + [None] == Blanks(n + 1)
  {
  }

  lemma DaysStep(n: nat)
    ensures Days(n) + [Some(n + 1)] == Days(n + 1)
  {
  }

  /** The blanks added until the length is a whole number of weeks are exactly the padding. */
  lemma PaddingReached(len: nat, k: nat)
    requires k <= Padding(len) && (len + k) % 7 == 0
    ensures k == Padding(len)
  {
  }

  /** Short of the padding, the cells do not yet make whole weeks. */
  lemma PaddingBelow(len: nat, k: nat)
    requires k <= Padding(len) && (len + k) % 7 != 0
    ensures k < Padding(len)
  {
  }

  /** The three loops of `getMonthGrid`: blanks, days, then blanks to a whole week. */
  method FillGrid(leading: int, days: int) returns (cells: seq<Option<int>>)
    ensures cells == Grid(leading, days)
  {
    cells := [];
    var i := 0;
    while i < leading
      invariant 0 <= i && (i <= leading || i == 0)
      invariant cells == Blanks(i)
    {
      BlanksStep(i);
      cells := cells + [None];
      i := i + 1;
    }
    assert cells == Blanks(leading);
    var d := 1;
    while d <= days
      invariant 1 <= d && (d <= days + 1 || d == 1)
      invariant cells == Blanks(leading) + Days(d - 1)
    {
      DaysStep(d - 1);
      cells := cells + [Some(d)];
      d := d + 1;
    }
    assert cells == Blanks(leading) + Days(days);
    cells := PadToWeeks(cells);
  }

  /** The last loop of `getMonthGrid`: blanks until the cells make whole weeks. */
  method PadToWeeks(base: seq<Option<int>>) returns (cells: seq<Option<int>>)
    ensures cells == base + Blanks(Padding(|base|))
  {
    cells := base;
    var k: nat := 0;
    while |cells| % 7 != 0
      invariant k <= Padding(|base|) && cells == base + Blanks(k)
      decreases Padding(|base|) - k
    {
      PaddingBelow(|base|, k);
      BlanksStep(k);
      assert cells + [None] == base + (Blanks(k) + [None]);
      cells := cells + [None];
      k := k + 1;
    }
    PaddingReached(|base|, k);
  }

  /** What the engine's fields keep true between calls. */
  ghost predicate Coherent(options: Options, globalLib: Option<Jalali.Lib>, adapter: Adapter, state: State,
                           cleanups: seq<Cleanup>, hooks: Hooks)
  {
    && state.calendar == Id(adapter)
    && LawfulIfPresent(options.jalaali) && LawfulIfPresent(globalLib)
    && Sound(adapter)
    && Nested(cleanups) && Accounted(hooks, cleanups)
  }
}
