module Rooz {
  import opened Wrappers
  import opened JsDate
  import opened Calendar
  import opened Adapters
  import opened MonthView
  import opened Events
  import Gregorian
  import Jalali
  import Constraints
  import Parse
  import Format

  import opened Engine

  class Datepicker {
    const options: Options
    /** `globalThis.jalaali`. */
    const globalLib: Option<Jalali.Lib>
    /** `isBoundToInput`. */
    const boundToInput: bool
    const emitter: Emitter<Handler>
    var adapter: Adapter
    var state: State
    var plugins: seq<Plugin>
    var cleanups: seq<Cleanup>
    var hooks: Hooks
    /** Tells the installations of the bundled plugins apart. */
    var serial: nat
    /** The bound input's `value`. */
    var inputValue: string
    /** Every event emitted so far, in order. */
    ghost var log: seq<Event>

    ghost predicate Valid()
      reads this`adapter, this`state, this`cleanups, this`hooks, emitter
    {
      && emitter.Valid()
      && Coherent(options, globalLib, adapter, state, cleanups, hooks)
    }

    /** `dp.options.jalaali || globalThis.jalaali`. */
    function Lib(): (lib: Option<Jalali.Lib>)
      ensures lib.Some? <==> options.jalaali.Some? || globalLib.Some?
      ensures options.jalaali.Some? ==> lib == options.jalaali
    {
      Jalali.Resolve(options.jalaali, globalLib)
    }

    /** The state initialisation of the constructor, once `_setAdapter` has built `a`. */
    constructor (options: Options, globalLib: Option<Jalali.Lib>, boundToInput: bool, value: string,
                 today: int, a: Adapter)
      requires Make(options.calendar, options.locale, options.weekStart, options.jalaali, globalLib) == Ok(a)
      requires LawfulIfPresent(options.jalaali) && LawfulIfPresent(globalLib)
      ensures Valid() && fresh(emitter)
      ensures this.options == options && this.globalLib == globalLib && this.boundToInput == boundToInput
      ensures adapter == a
      ensures state == State(Id(a), options.locale, TodayParts(a, today).y, TodayParts(a, today).m, None)
      ensures plugins == [] && cleanups == [] && hooks == Pristine && emitter.events == map[]
      ensures inputValue == value && log == [Init]
    {
      this.options := options;
      this.globalLib := globalLib;
      this.boundToInput := boundToInput;
      emitter := new Emitter();
      adapter := a;
      var t := TodayParts(a, today);
      state := State(Id(a), options.locale, t.y, t.m, None);
      plugins := [];
      cleanups := [];
      hooks := Pristine;
      serial := 0;
      inputValue := value;
      log := [Init];
      new;
      MakeSound(options.calendar, options.locale, options.weekStart, options.jalaali, globalLib);
      var invoked := emitter.Emit(Name(Init));
    }

    /** `new RoozDatepicker(target, options)`: throws when the Jalali adapter finds no library. */
    static method Open(options: Options, globalLib: Option<Jalali.Lib>, boundToInput: bool, value: string,
                       today: int) returns (r: Result<Datepicker>)
      requires LawfulIfPresent(options.jalaali) && LawfulIfPresent(globalLib)
      ensures var made := Make(options.calendar, options.locale, options.weekStart, options.jalaali, globalLib);
        && (r.Err? <==> made.Err?)
        && (r.Ok? ==>
              && fresh(r.value) && r.value.Valid() && r.value.adapter == made.value
              && r.value.state == State(Id(made.value), options.locale, TodayParts(made.value, today).y,
                                        TodayParts(made.value, today).m, None)
              && r.value.log == [Init] && r.value.hooks == Pristine)
    {
      var made := Make(options.calendar, options.locale, options.weekStart, options.jalaali, globalLib);
      if made.Err? {
        return Err(made.message);
      }
      var dp := new Datepicker(options, globalLib, boundToInput, value, today, made.value);
      return Ok(dp);
    }

    /** `emit(event, payload)`: the handlers run in order; the format plugin's write to the input. */
    method Emit(e: Event) returns (invoked: seq<Handler>)
      requires Valid()
      modifies this`inputValue, this`log
      ensures Valid()
      ensures invoked == Channel(emitter.events, Name(e))
      ensures log == old(log) + [e]
      ensures inputValue == WriteBack(old(inputValue), e, invoked, boundToInput, hooks.formatValue, options, state.calendar)
    {
      invoked := emitter.Emit(Name(e));
      log := log + [e];
      for i := 0 to |invoked|
        invariant log == old(log) + [e]
        invariant inputValue == WriteBack(old(inputValue), e, invoked[..i], boundToInput, hooks.formatValue, options, state.calendar)
      {
        var h := invoked[i];
        WriteBackStep(old(inputValue), e, invoked[..i], h, boundToInput, hooks.formatValue, options, state.calendar);
        if h.FormatWriter? && h.writeToInput && boundToInput && e.Changed? && hooks.formatValue.Some? {
          inputValue := Format.FormatValue(hooks.formatValue.value, options.digits, options.locale, state.calendar,
                                           Format.PayloadIn(e.payload.gregorian, e.payload.jalali));
        }
        assert invoked[..i + 1] == invoked[..i] + [h];
      }
      assert invoked[..|invoked|] == invoked;
    }

    /** `on(event, handler)` for a caller's listener. */
    method On(event: string, id: nat) returns (off: Subscription<Handler>)
      requires Valid()
      modifies emitter
      ensures Valid()
      ensures emitter.events == AfterOn(old(emitter.events), event, Listener(id))
      ensures off == Subscription(event, Listener(id))
    {
      off := emitter.On(event, Listener(id));
    }

    /** Calling the function `on` returned. */
    method Unsubscribe(off: Subscription<Handler>)
      requires Valid() && off.handler.Listener?
      modifies emitter
      ensures Valid()
      ensures emitter.events == AfterOff(old(emitter.events), off.event, off.handler)
    {
      emitter.Unsubscribe(off);
    }

    /** `getMonthGrid()`. */
    method GetMonthGrid() returns (cells: seq<Option<int>>)
      ensures cells == MonthGrid(adapter, state.viewYear, state.viewMonth)
    {
      var y, m := state.viewYear, state.viewMonth;
      var weekStart := LabelsOf(adapter).weekStart;
      var firstWd := FirstWeekdayOfMonth(adapter, y, m);
      var leading := Leading(firstWd, weekStart);
      var days := MonthLength(adapter, y, m);
      cells := FillGrid(leading, days);
    }

    /** `render()`: emits `render` with a copy of the state, the labels and the grid. */
    method Render()
      requires Valid()
      modifies this`inputValue, this`log
      ensures Valid()
      ensures log == old(log) + [Rendered(state, LabelsOf(adapter), MonthGrid(adapter, state.viewYear, state.viewMonth))]
      ensures inputValue == old(inputValue)
    {
      var grid := GetMonthGrid();
      var invoked := Emit(Rendered(state, LabelsOf(adapter), grid));
    }

    /** `setView(year, month)`: stored as given, then `render` and `viewChange`. */
    method SetView(year: int, month: int)
      requires Valid()
      modifies this`state, this`inputValue, this`log
      ensures Valid()
      ensures state == old(state).(viewYear := year, viewMonth := month)
      ensures log == old(log) + [Rendered(state, LabelsOf(adapter), MonthGrid(adapter, year, month)),
                                 ViewChanged(year, month)]
      ensures inputValue == old(inputValue)
    {
      state := state.(viewYear := year, viewMonth := month);
      Render();
      var invoked := Emit(ViewChanged(year, month));
    }

    /** `nextMonth()`. */
    method NextMonth()
      requires Valid()
      modifies this`state, this`inputValue, this`log
      ensures Valid()
      ensures View(state.viewYear, state.viewMonth) == Next(View(old(state).viewYear, old(state).viewMonth))
      ensures state.calendar == old(state).calendar && state.selected == old(state).selected
      ensures log == old(log) + [Rendered(state, LabelsOf(adapter), MonthGrid(adapter, state.viewYear, state.viewMonth)),
                                 ViewChanged(state.viewYear, state.viewMonth)]
      ensures inputValue == old(inputValue)
    {
      var y, m := state.viewYear, state.viewMonth;
      m := m + 1;
      if m > 12 {
        m := 1;
        y := y + 1;
      }
      SetView(y, m);
    }

    /** `prevMonth()`. */
    method PrevMonth()
      requires Valid()
      modifies this`state, this`inputValue, this`log
      ensures Valid()
      ensures View(state.viewYear, state.viewMonth) == Prev(View(old(state).viewYear, old(state).viewMonth))
      ensures state.calendar == old(state).calendar && state.selected == old(state).selected
      ensures log == old(log) + [Rendered(state, LabelsOf(adapter), MonthGrid(adapter, state.viewYear, state.viewMonth)),
                                 ViewChanged(state.viewYear, state.viewMonth)]
      ensures inputValue == old(inputValue)
    {
      var y, m := state.viewYear, state.viewMonth;
      m := m - 1;
      if m < 1 {
        m := 12;
        y := y - 1;
      }
      SetView(y, m);
    }

    /** `_setAdapter(calendar)`: the adapter it builds, or the error it throws. */
    function Built(calendar: string): (r: Result<Adapter>)
      ensures calendar == Gregorian.Id ==> r.Ok? && Id(r.value) == Gregorian.Id
      ensures calendar != Gregorian.Id ==> (r.Err? <==> Lib().None?) && (r.Ok? ==> Id(r.value) == Jalali.Id)
    {
      Make(calendar, options.locale, options.weekStart, options.jalaali, globalLib)
    }

    /**
     * `setCalendar(calendar)`: ignored unless it names the other calendar;
     * otherwise the new adapter shows the month holding the selected date (or
     * today), the selection is cleared, then `render` and `calendarChange`.
     * When the Jalali adapter finds no library nothing changes.
     */
    method SetCalendar(calendar: string, today: int) returns (r: Outcome)
      requires Valid()
      modifies this`adapter, this`state, this`inputValue, this`log
      ensures Valid()
      ensures Ignored(calendar, old(adapter)) ==>
        r == Pass && adapter == old(adapter) && state == old(state) && log == old(log) && inputValue == old(inputValue)
      ensures !Ignored(calendar, old(adapter)) && Built(calendar).Err? ==>
        r == Fail(Built(calendar).message) && adapter == old(adapter) && state == old(state)
        && log == old(log) && inputValue == old(inputValue)
      ensures !Ignored(calendar, old(adapter)) && Built(calendar).Ok? ==>
        var p := FromDateObject(Built(calendar).value, Anchor(old(adapter), old(state), today));
        && r == Pass && adapter == Built(calendar).value
        && state == old(state).(calendar := calendar, viewYear := p.y, viewMonth := p.m, selected := None)
        && log == old(log) + [Rendered(state, LabelsOf(adapter), MonthGrid(adapter, p.y, p.m)), CalendarChanged(calendar)]
        && inputValue == old(inputValue)
    {
      if calendar != Jalali.Id && calendar != Gregorian.Id {
        return Pass;
      }
      if Id(adapter) == calendar {
        return Pass;
      }
      var anchor := Anchor(adapter, state, today);
      var made := Make(calendar, options.locale, options.weekStart, options.jalaali, globalLib);
      if made.Err? {
        return Fail(made.message);
      }
      MakeSound(calendar, options.locale, options.weekStart, options.jalaali, globalLib);
      Switch(made.value, FromDateObject(made.value, anchor));
      r := Pass;
    }

    /** `setCalendar` once `_setAdapter` has built the new adapter `a`, which must show month `p`. */
    method Switch(a: Adapter, p: Parts)
      requires Valid() && Sound(a)
      modifies this`adapter, this`state, this`inputValue, this`log
      ensures Valid()
      ensures adapter == a
      ensures state == old(state).(calendar := Id(a), viewYear := p.y, viewMonth := p.m, selected := None)
      ensures log == old(log) + [Rendered(state, LabelsOf(a), MonthGrid(a, p.y, p.m)), CalendarChanged(Id(a))]
      ensures inputValue == old(inputValue)
    {
      adapter := a;
      state := state.(calendar := Id(adapter), viewYear := p.y, viewMonth := p.m, selected := None);
      Render();
      var invoked := Emit(CalendarChanged(Id(a)));
    }

    /**
     * The engine's own `selectDay(day)`: the day of the viewed month is
     * selected, then `render` and `change` with the payload.
     */
    method OriginalSelectDay(day: int) returns (payload: Payload)
      requires Valid()
      modifies this`state, this`inputValue, this`log
      ensures Valid()
      ensures payload == PayloadOf(adapter, Lib(), old(state).viewYear, old(state).viewMonth, day)
      ensures state == old(state).(selected := Some(Parts(old(state).viewYear, old(state).viewMonth, day)))
      ensures log == old(log) + [Rendered(state, LabelsOf(adapter), MonthGrid(adapter, state.viewYear, state.viewMonth)),
                                 Changed(payload)]
      ensures inputValue == WriteBack(old(inputValue), Changed(payload), Channel(emitter.events, Name(Changed(payload))),
                                      boundToInput, hooks.formatValue, options, state.calendar)
    {
      var y, m := state.viewYear, state.viewMonth;
      state := state.(selected := Some(Parts(y, m, day)));
      payload := PayloadOf(adapter, Lib(), y, m, day);
      Announce(payload);
    }

    /** The end of `selectDay`: `render`, then `change` with the payload. */
    method Announce(payload: Payload)
      requires Valid()
      modifies this`inputValue, this`log
      ensures Valid()
      ensures log == old(log) + [Rendered(state, LabelsOf(adapter), MonthGrid(adapter, state.viewYear, state.viewMonth)),
                                 Changed(payload)]
      ensures inputValue == WriteBack(old(inputValue), Changed(payload), Channel(emitter.events, Name(Changed(payload))),
                                      boundToInput, hooks.formatValue, options, state.calendar)
    {
      Render();
      var invoked := Emit(Changed(payload));
    }

    /**
     * `dp.selectDay(day)`, through the constraint wrappers when any are
     * installed: a disabled day is ignored, and an `isDisabledDay` that
     * throws stops the call; otherwise the engine's own `selectDay` runs.
     */
    method SelectDay(day: int) returns (r: Selection)
      requires Valid()
      modifies this`state, this`inputValue, this`log
      ensures Valid()
      ensures var g := Gate(hooks, old(state), day);
        && (g.Err? ==> r == Failed(g.message))
        && (g == Ok(true) ==> r == Vetoed)
        && (g.Ok? ==> (r.Selected? <==> !g.value))
      ensures !r.Selected? ==> state == old(state) && log == old(log) && inputValue == old(inputValue)
      ensures r.Selected? ==>
        && r.payload == PayloadOf(adapter, Lib(), old(state).viewYear, old(state).viewMonth, day)
        && state == old(state).(selected := Some(Parts(old(state).viewYear, old(state).viewMonth, day)))
        && log == old(log) + [Rendered(state, LabelsOf(adapter), MonthGrid(adapter, state.viewYear, state.viewMonth)),
                              Changed(r.payload)]
        && inputValue == WriteBack(old(inputValue), Changed(r.payload), Channel(emitter.events, Name(Changed(r.payload))),
                                   boundToInput, hooks.formatValue, options, state.calendar)
    {
      if hooks.layers > 0 && hooks.isDisabledDay.Some? {
        var disabled := Constraints.IsDisabledDay(hooks.isDisabledDay.value, state.viewYear, state.viewMonth,
                                                  day, state.calendar);
        if disabled.Err? {
          return Failed(disabled.message);
        }
        if disabled.value {
          return Vetoed;
        }
      }
      var payload := OriginalSelectDay(day);
      r := Selected(payload);
    }

    /**
     * `use(plugin)`: a missing plugin is ignored; otherwise it is installed,
     * a returned function (or an object with `destroy`) becomes a cleanup, and
     * the plugin is recorded. An install that throws stops the call first.
     */
    method Use(plugin: Option<Plugin>) returns (r: Outcome)
      requires Valid()
      modifies this`plugins, this`cleanups, this`hooks, this`serial, emitter
      ensures Valid()
      ensures plugin.None? || r.Fail? ==>
        && plugins == old(plugins) && cleanups == old(cleanups) && hooks == old(hooks)
        && serial == old(serial) && emitter.events == old(emitter.events)
      ensures r.Pass? && plugin.Some? ==> plugins == old(plugins) + [plugin.value]
      ensures r.Fail? <==> plugin.Some? && plugin.value.ConstraintsPlugin?
                           && Constraints.MakePolicy(plugin.value.constraints, Lib(), state.calendar).Err?
      ensures plugin.Some? && plugin.value.OtherPlugin? ==>
        && cleanups == old(cleanups) + (match plugin.value.installed
                                        case NothingReturned => []
                                        case CleanupFunction => [OtherCleanup(plugin.value.name, false)]
                                        case DestroyObject => [OtherCleanup(plugin.value.name, true)])
        && hooks == old(hooks) && serial == old(serial) && emitter.events == old(emitter.events)
      ensures plugin.Some? && plugin.value.ConstraintsPlugin? && r.Pass? ==>
        var policy := Constraints.MakePolicy(plugin.value.constraints, Lib(), state.calendar);
        && hooks == old(hooks).(layers := old(hooks).layers + 1, isDisabledDay := Some(policy.value))
        && cleanups == old(cleanups) + [ConstraintsTeardown(old(hooks).layers)]
        && serial == old(serial) && emitter.events == old(emitter.events)
      ensures plugin.Some? && plugin.value.FormatPlugin? ==>
        var w := FormatWriter(old(serial), plugin.value.format.writeToInput);
        && hooks == old(hooks).(formatValue := Some(plugin.value.format))
        && emitter.events == AfterOn(old(emitter.events), ChangeName, w)
        && cleanups == old(cleanups) + [FormatTeardown(w)] && serial == old(serial) + 1
      ensures plugin.Some? && plugin.value.ParsePlugin? && boundToInput ==>
        && hooks == old(hooks).(parsers := old(hooks).parsers + [Binding(old(serial), plugin.value.parse)])
        && cleanups == old(cleanups) + [ParseTeardown(old(serial))] && serial == old(serial) + 1
        && emitter.events == old(emitter.events)
      ensures plugin.Some? && plugin.value.ParsePlugin? && !boundToInput ==>
        && hooks == old(hooks) && cleanups == old(cleanups) && serial == old(serial)
        && emitter.events == old(emitter.events)
    {
      if plugin.None? {
        return Pass;
      }
      r := Pass;
      match plugin.value {
        case OtherPlugin(name, installed) =>
          if installed != NothingReturned {
            var c := OtherCleanup(name, installed == DestroyObject);
            Recorded(hooks, cleanups, hooks, c);
            cleanups := cleanups + [c];
          }
        case ConstraintsPlugin(opt) =>
          r := InstallConstraints(opt);
        case FormatPlugin(opt) =>
          InstallFormat(opt);
        case ParsePlugin(opt) =>
          if boundToInput {
            InstallParse(opt);
          }
      }
      if r.Pass? {
        plugins := plugins + [plugin.value];
      }
    }

    /**
     * The constraints plugin's `install`: both bounds are read first (either
     * may throw), then `dp.isDisabledDay` is set and `selectDay` wrapped; the
     * cleanup restores the wrapper it found.
     */
    method InstallConstraints(opt: Constraints.ConstraintOptions) returns (r: Outcome)
      requires Valid()
      modifies this`cleanups, this`hooks
      ensures Valid()
      ensures var policy := Constraints.MakePolicy(opt, Lib(), state.calendar);
        && (r.Fail? <==> policy.Err?)
        && (r.Fail? ==> r.message == policy.message && hooks == old(hooks) && cleanups == old(cleanups))
        && (r.Pass? ==>
              && hooks == old(hooks).(layers := old(hooks).layers + 1, isDisabledDay := Some(policy.value))
              && cleanups == old(cleanups) + [ConstraintsTeardown(old(hooks).layers)])
    {
      var policy := Constraints.MakePolicy(opt, Lib(), state.calendar);
      if policy.Err? {
        return Fail(policy.message);
      }
      var h := hooks.(layers := hooks.layers + 1, isDisabledDay := Some(policy.value));
      var c := ConstraintsTeardown(hooks.layers);
      Recorded(hooks, cleanups, h, c);
      hooks := h;
      cleanups := cleanups + [c];
      r := Pass;
    }

    /**
     * The format plugin's `install`: sets `dp.formatValue` and subscribes a
     * fresh `change` handler; the cleanup unsubscribes it and deletes
     * `dp.formatValue`.
     */
    method InstallFormat(opt: Format.FormatOptions)
      requires Valid()
      modifies this`cleanups, this`hooks, this`serial, emitter
      ensures Valid()
      ensures var w := FormatWriter(old(serial), opt.writeToInput);
        && hooks == old(hooks).(formatValue := Some(opt))
        && emitter.events == AfterOn(old(emitter.events), ChangeName, w)
        && cleanups == old(cleanups) + [FormatTeardown(w)] && serial == old(serial) + 1
    {
      var w := FormatWriter(serial, opt.writeToInput);
      var h := hooks.(formatValue := Some(opt));
      var c := FormatTeardown(w);
      Recorded(hooks, cleanups, h, c);
      hooks := h;
      cleanups := cleanups + [c];
      serial := serial + 1;
      var off := emitter.On(ChangeName, w);
    }

    /** The parse plugin's `install` on an input: binds `handle`; the cleanup unbinds it. */
    method InstallParse(opt: Parse.ParseOptions)
      requires Valid()
      modifies this`cleanups, this`hooks, this`serial
      ensures Valid()
      ensures hooks == old(hooks).(parsers := old(hooks).parsers + [Binding(old(serial), opt)])
      ensures cleanups == old(cleanups) + [ParseTeardown(old(serial))] && serial == old(serial) + 1
    {
      var h := hooks.(parsers := hooks.parsers + [Binding(serial, opt)]);
      var c := ParseTeardown(serial);
      Recorded(hooks, cleanups, h, c);
      hooks := h;
      cleanups := cleanups + [c];
      serial := serial + 1;
    }

    /**
     * `destroy()`: the cleanups run newest first, undoing every hook the
     * bundled plugins left; then the lists are emptied and every listener goes.
     */
    method Destroy() returns (called: seq<Cleanup>)
      requires Valid()
      modifies this`plugins, this`cleanups, this`hooks, emitter
      ensures Valid()
      ensures called == Reversed(old(cleanups))
      ensures hooks == Pristine
      ensures plugins == [] && cleanups == [] && emitter.events == map[]
    {
      called := [];
      var k := |cleanups|;
      assert cleanups[..k] == cleanups;
      while k > 0
        invariant 0 <= k <= |cleanups| && cleanups == old(cleanups)
        invariant called == Reversed(cleanups[k..])
        invariant Nested(cleanups) && Accounted(hooks, cleanups[..k])
        invariant emitter.Valid()
        decreases k
      {
        var c := cleanups[k - 1];
        TeardownLast(hooks, cleanups, k);
        if c.FormatTeardown? {
          emitter.Off(ChangeName, c.writer);
        }
        hooks := Teardown(hooks, c);
        assert cleanups[k - 1..][1..] == cleanups[k..];
        called := called + [c];
        k := k - 1;
      }
      assert cleanups[..0] == [];
      NothingLeft(hooks);
      cleanups := [];
      plugins := [];
      emitter.Clear();
    }

    /**
     * The parse plugin's `handle` for the `k`th binding, on the input's
     * value: text that reads as a valid date of the chosen calendar goes to
     * `applyParsed`; anything else changes nothing.
     */
    method HandleInput(k: nat, today: int) returns (d: Parse.Decision, s: Option<Selection>)
      requires Valid() && k < |hooks.parsers|
      modifies this`adapter, this`state, this`inputValue, this`log
      ensures Valid()
      ensures d == Parse.HandleAsWritten(hooks.parsers[k].options, Lib(), old(state).calendar, old(inputValue))
      ensures !d.Apply? ==>
        && s.None? && adapter == old(adapter) && state == old(state)
        && log == old(log) && inputValue == old(inputValue)
      ensures d.Apply? ==>
        && s.Some? && Id(adapter) == d.calendar && state.calendar == d.calendar
        && state.viewYear == d.y && state.viewMonth == d.m
        && (s.value.Selected? <==> Gate(hooks, state, d.d) == Ok(false))
      ensures d.Apply? && s.value.Selected? ==>
        && state.selected == Some(Parts(d.y, d.m, d.d))
        && s.value.payload == PayloadOf(adapter, Lib(), d.y, d.m, d.d)
    {
      var binding := hooks.parsers[k];
      d := Parse.HandleAsWritten(binding.options, Lib(), state.calendar, inputValue);
      s := None;
      if d.Apply? {
        var selection := ApplyParsed(d.calendar, d.y, d.m, d.d, today);
        s := Some(selection);
      }
    }

    /**
     * `applyParsed(parts, cal)`: `setCalendar(cal)`, `setView(y, m)`, then
     * `selectDay(d)`. The switch cannot fail: a Jalali date was only read
     * with the library at hand.
     */
    method ApplyParsed(calendar: string, y: int, m: int, day: int, today: int) returns (r: Selection)
      requires Valid()
      requires calendar == Gregorian.Id || (calendar == Jalali.Id && Lib().Some?)
      modifies this`adapter, this`state, this`inputValue, this`log
      ensures Valid()
      ensures Id(adapter) == calendar && state.calendar == calendar
      ensures state.viewYear == y && state.viewMonth == m
      ensures r.Selected? <==> Gate(hooks, state, day) == Ok(false)
      ensures r.Selected? ==>
        state.selected == Some(Parts(y, m, day)) && r.payload == PayloadOf(adapter, Lib(), y, m, day)
      ensures !r.Selected? ==>
        state.selected == (if Id(old(adapter)) == calendar then old(state).selected else None)
    {
      var switched := SetCalendar(calendar, today);
      SetView(y, m);
      r := SelectDay(day);
    }
  }
}
