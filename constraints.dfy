/**
 * The constraints plugin: date keys, reading the `min`/`max` bounds, the
 * information a day is judged on, and `isDisabledDay`. The `selectDay`
 * interception and its teardown live with the engine.
 */
module Constraints {
  import opened Wrappers
  import opened JsText
  import opened Utils
  import opened JsDate
  import opened Pattern
  import Jalali

  /** `isoFromGregorian({ y, m, d })`: `y-MM-DD`, month and day padded to two digits. */
  function IsoFromGregorian(p: Parts): (s: string)
    ensures |s| == |IntToString(p.y)| + |Pad2(p.m)| + |Pad2(p.d)| + 2
    ensures s[|IntToString(p.y)|] == '-' && s[|IntToString(p.y)| + 1 + |Pad2(p.m)|] == '-'
  {
    IntToString(p.y) + "-" + Pad2(p.m) + "-" + Pad2(p.d)
  }

  /**
   * `dateKeyFromGregorian(y, m, d)`, which is `Date.UTC(y, m - 1, d)`: kept
   * as a day number rather than milliseconds (the two differ by a factor of
   * 86400000, which keeps their order).
   */
  function DateKeyFromGregorian(y: int, m: int, d: int): (key: int)
    ensures 1 <= m <= 12 ==> key == DayNumber(JsYear(y), m, d)
  {
    if 1 <= m <= 12 then ConstructInRange(y, m, d); Construct(y, m - 1, d)
    else Construct(y, m - 1, d)
  }

  /** `dateKeyFromDate(date)`: the key of the date's own year, month and day. */
  function DateKeyFromDate(date: int): (key: int)
    ensures !(0 <= FromDays(date).y <= 99) ==> key == date
  {
    var p := FromDays(date);
    ConstructInRange(p.y, p.m, p.d);
    DateKeyFromGregorian(p.y, p.m, p.d)
  }

  /** Later valid dates have larger keys (years that `Date.UTC` reads as 1900 + year excepted). */
  lemma DateKeyOrdered(p: Parts, q: Parts)
    requires IsValidDate(p) && IsValidDate(q) && !(0 <= p.y <= 99) && !(0 <= q.y <= 99)
    requires p.y < q.y || (p.y == q.y && (p.m < q.m || (p.m == q.m && p.d < q.d)))
    ensures DateKeyFromGregorian(p.y, p.m, p.d) < DateKeyFromGregorian(q.y, q.m, q.d)
  {
    ConstructInRange(p.y, p.m, p.d);
    ConstructInRange(q.y, q.m, q.d);
    DayNumberOrdered(p, q);
  }

  /** Keys tell valid dates apart, in both directions of the order. */
  lemma DateKeyInjective(p: Parts, q: Parts)
    requires IsValidDate(p) && IsValidDate(q) && !(0 <= p.y <= 99) && !(0 <= q.y <= 99)
    ensures DateKeyFromGregorian(p.y, p.m, p.d) == DateKeyFromGregorian(q.y, q.m, q.d) <==> p == q
  {
    ConstructInRange(p.y, p.m, p.d);
    ConstructInRange(q.y, q.m, q.d);
    if DateKeyFromGregorian(p.y, p.m, p.d) == DateKeyFromGregorian(q.y, q.m, q.d) {
      DayNumberInjective(p, q);
    }
  }

  /** A `min` or `max` value: absent or falsy, a `Date`, a string, a `{ y, m, d, calendar }` object, or anything else. */
  datatype Bound =
    | Absent
    | DateValue(date: int)
    | Str(s: string)
    | Obj(y: int, m: int, d: int, calendar: Option<string>)
    | OtherValue

  /** `/^(\d{4})-(\d{1,2})-(\d{1,2})$/`. */
  const IsoItems: seq<Item> := [Group(4, 4, Year), Lit('-'), Group(1, 2, Month), Lit('-'), Group(1, 2, Day)]

  /**
   * `parseToDateKey(dp, input)`: null for an absent or falsy bound; the key
   * of a date, of a trimmed `YYYY-M-D` string, or of an object with non-zero
   * fields read in its own calendar (else the active one); an error for a
   * string of any other shape, for a Jalali object without the library and
   * for every other value.
   */
  function ParseToDateKey(lib: Option<Jalali.Lib>, current: string, input: Bound): (r: Result<Option<int>>)
    ensures input.Absent? || input == Str("") ==> r == Ok(None)
    ensures input.OtherValue? ==> r.Err?
    ensures input.Obj? && (input.y == 0 || input.m == 0 || input.d == 0) ==> r.Err?
    ensures input.Str? && input.s != "" ==> (r.Err? <==> Match(IsoItems, Trim(input.s)).None?)
    ensures r.Ok? && r.value.None? ==> input.Absent? || input == Str("")
    ensures input.DateValue? ==> r == Ok(Some(DateKeyFromDate(input.date)))
    ensures input.Str? && input.s != "" && Match(IsoItems, Trim(input.s)).Some? ==>
      r == Ok(Some(IsoKey(Match(IsoItems, Trim(input.s)).value)))
    ensures input.Obj? && input.y != 0 && input.m != 0 && input.d != 0 ==>
      var cal := if input.calendar.Some? && input.calendar.value != "" then input.calendar.value
                 else if current != "" then current else "gregorian";
      && (cal == "gregorian" ==> r == Ok(Some(DateKeyFromGregorian(input.y, input.m, input.d))))
      && (cal != "gregorian" && lib.None? ==> r.Err?)
      && (cal != "gregorian" && lib.Some? ==>
            var g := lib.value.toGregorian(input.y, input.m, input.d);
            r == Ok(Some(DateKeyFromGregorian(g.y, g.m, g.d))))
  {
    match input
    case Absent => Ok(None)
    case DateValue(date) => Ok(Some(DateKeyFromDate(date)))
    case Str(s) =>
      if s == "" then Ok(None)
      else
        (match Match(IsoItems, Trim(s))
         case None => Err("constraints: invalid date string \"" + s + "\" (expected YYYY-MM-DD)")
         case Some(caps) => Ok(Some(IsoKey(caps))))
    case Obj(y, m, d, calendar) =>
      if y == 0 || m == 0 || d == 0 then Err("constraints: unsupported min/max value")
      else
        var cal := if calendar.Some? && calendar.value != "" then calendar.value
                   else if current != "" then current else "gregorian";
        if cal == "gregorian" then Ok(Some(DateKeyFromGregorian(y, m, d)))
        else
          (match lib
           case None => Err("constraints: jalaali-js is required for jalali min/max")
           case Some(l) =>
             var g := l.toGregorian(y, m, d);
             Ok(Some(DateKeyFromGregorian(g.y, g.m, g.d))))
    case OtherValue => Err("constraints: unsupported min/max value")
  }

  /** The key of the captures of the ISO expression: `Number` of each, as year, month and day. */
  function IsoKey(caps: seq<string>): int
    requires Fits(IsoItems, caps)
  {
    IsoGroups();
    DateKeyFromGregorian(DigitsValue(caps[0]), DigitsValue(caps[1]), DigitsValue(caps[2]))
  }

  /** The ISO expression captures year, month and day, in that order. */
  lemma IsoGroups()
    ensures Groups(IsoItems) == [Group(4, 4, Year), Group(1, 2, Month), Group(1, 2, Day)]
  {
    var t := IsoItems;
    assert Groups(t[4..]) == [t[4]] by { assert t[4..][1..] == []; }
    assert Groups(t[3..]) == [t[4]] by { assert t[3..][1..] == t[4..]; }
    assert Groups(t[2..]) == [t[2], t[4]] by { assert t[2..][1..] == t[3..]; }
    assert Groups(t[1..]) == [t[2], t[4]] by { assert t[1..][1..] == t[2..]; }
    assert t[1..] == t[1..];
  }

  /** The ISO expression spells its three captures joined by dashes. */
  lemma IsoRender(a: string, b: string, c: string)
    ensures |Groups(IsoItems)| == 3 && Render(IsoItems, [a, b, c]) == a + "-" + b + "-" + c
  {
    IsoGroups();
    var t := IsoItems;
    assert Render(t[4..], [c]) == c by { assert t[4..][1..] == []; }
    assert Render(t[3..], [c]) == "-" + c by { assert t[3..][1..] == t[4..]; }
    assert Render(t[2..], [b, c]) == b + "-" + c by { assert t[2..][1..] == t[3..]; assert [b, c][1..] == [c]; }
    assert Render(t[1..], [b, c]) == "-" + b + "-" + c by { assert t[1..][1..] == t[2..]; }
    assert Render(t, [a, b, c]) == a + "-" + b + "-" + c by { assert [a, b, c][1..] == [b, c]; }
  }

  /** ISO text of a date with a four-digit year holds no whitespace. */
  lemma IsoUntrimmed(p: Parts)
    requires 1000 <= p.y <= 9999 && 0 <= p.m <= 99 && 0 <= p.d <= 99
    ensures Trim(IsoFromGregorian(p)) == IsoFromGregorian(p)
  {
    Pad2TwoDigits(p.m);
    Pad2TwoDigits(p.d);
    var s := IsoFromGregorian(p);
    forall i | 0 <= i < |s| ensures !IsJsSpace(s[i]) {
      assert IsDigit(s[i]) || s[i] == '-';
    }
  }

  /** The ISO text of a date with a four-digit year is read back as that date's key. */
  lemma IsoRoundTrip(lib: Option<Jalali.Lib>, current: string, p: Parts)
    requires 1000 <= p.y <= 9999 && 0 <= p.m <= 99 && 0 <= p.d <= 99
    ensures ParseToDateKey(lib, current, Str(IsoFromGregorian(p))) == Ok(Some(DateKeyFromGregorian(p.y, p.m, p.d)))
  {
    IsoMatched(p);
    IsoUntrimmed(p);
    DigitsValueOfNatToString(p.y);
    Pad2TwoDigits(p.m);
    Pad2TwoDigits(p.d);
  }

  /** The ISO text of a four-digit year matches the ISO expression, capturing its three numbers. */
  lemma IsoMatched(p: Parts)
    requires 1000 <= p.y <= 9999 && 0 <= p.m <= 99 && 0 <= p.d <= 99
    ensures Match(IsoItems, IsoFromGregorian(p)) == Some([IntToString(p.y), Pad2(p.m), Pad2(p.d)])
  {
    var caps := [IntToString(p.y), Pad2(p.m), Pad2(p.d)];
    IsoWidest(p);
    IsoRender(caps[0], caps[1], caps[2]);
    MatchRendered(IsoItems, caps);
  }

  /** Four year digits and two-digit month and day are the widest captures of the ISO expression. */
  lemma IsoWidest(p: Parts)
    requires 1000 <= p.y <= 9999 && 0 <= p.m <= 99 && 0 <= p.d <= 99
    ensures FitsWidest(IsoItems, [IntToString(p.y), Pad2(p.m), Pad2(p.d)])
  {
    FourDigitYear(p.y);
    Pad2TwoDigits(p.m);
    Pad2TwoDigits(p.d);
    IsoWidestOf(IntToString(p.y), Pad2(p.m), Pad2(p.d));
  }

  /** Four digits, then two and two, are the widest captures of the ISO expression. */
  lemma IsoWidestOf(a: string, b: string, c: string)
    requires |a| == 4 && |b| == 2 && |c| == 2 && AllDigits(a) && AllDigits(b) && AllDigits(c)
    ensures FitsWidest(IsoItems, [a, b, c])
  {
    IsoGroups();
    var caps, g := [a, b, c], Groups(IsoItems);
    forall i | 0 <= i < 3
      ensures AllDigits(caps[i]) && g[i].lo <= |caps[i]| == g[i].hi
    {
    }
  }

  /**
   * A bound "y-m-d" with a four-digit year and a month and day of one or
   * two digits is read as that Gregorian date: the ISO expression does not
   * ask for padding.
   */
  lemma IsoReadsUnpadded(lib: Option<Jalali.Lib>, current: string, y: string, m: string, d: string)
    requires AllDigits(y) && AllDigits(m) && AllDigits(d)
    requires |y| == 4 && 1 <= |m| <= 2 && 1 <= |d| <= 2
    ensures ParseToDateKey(lib, current, Str(IsoText(y, m, d)))
      == Ok(Some(DateKeyFromGregorian(DigitsValue(y), DigitsValue(m), DigitsValue(d))))
  {
    var s := IsoText(y, m, d);
    IsoUnpaddedMatched(y, m, d);
    IsoTextUntrimmed(y, m, d);
    assert |s| > 0;
    IsoBoundRead(lib, current, s, y, m, d);
  }

  /** A bound whose trimmed text matches the ISO expression has the Gregorian key of its captures' numbers. */
  lemma IsoBoundRead(lib: Option<Jalali.Lib>, current: string, s: string, y: string, m: string, d: string)
    requires AllDigits(y) && AllDigits(m) && AllDigits(d)
    requires s != "" && Match(IsoItems, Trim(s)) == Some([y, m, d])
    ensures ParseToDateKey(lib, current, Str(s)) == Ok(Some(DateKeyFromGregorian(DigitsValue(y), DigitsValue(m), DigitsValue(d))))
  {
    IsoKeyOf(y, m, d);
  }

  /** The key of three ISO captures is the Gregorian key of their numbers. */
  lemma IsoKeyOf(y: string, m: string, d: string)
    requires AllDigits(y) && AllDigits(m) && AllDigits(d) && Fits(IsoItems, [y, m, d])
    ensures IsoKey([y, m, d]) == DateKeyFromGregorian(DigitsValue(y), DigitsValue(m), DigitsValue(d))
  {
    assert [y, m, d][0] == y && [y, m, d][1] == m && [y, m, d][2] == d;
  }

  /** The ISO spelling "y-m-d" of three digit runs. */
  function IsoText(y: string, m: string, d: string): string { y + "-" + m + "-" + d }

  /** The ISO expression reads "y-m-d" as its three numbers, padded or not. */
  lemma IsoUnpaddedMatched(y: string, m: string, d: string)
    requires AllDigits(y) && AllDigits(m) && AllDigits(d)
    requires |y| == 4 && 1 <= |m| <= 2 && 1 <= |d| <= 2
    ensures Match(IsoItems, y + "-" + m + "-" + d) == Some([y, m, d])
    ensures Fits(IsoItems, [y, m, d])
  {
    var caps := [y, m, d];
    assert IsoItems == Three(Group(4, 4, Year), Group(1, 2, Month), Group(1, 2, Day), '-');
    IsoGroups();
    IsoRender(y, m, d);
    assert Fits(IsoItems, caps);
    ThreeMatched(Group(4, 4, Year), Group(1, 2, Month), Group(1, 2, Day), '-', caps);
  }

  /** Digits joined by dashes hold no whitespace. */
  lemma IsoTextUntrimmed(y: string, m: string, d: string)
    requires AllDigits(y) && AllDigits(m) && AllDigits(d)
    ensures Trim(y + "-" + m + "-" + d) == y + "-" + m + "-" + d
  {
    var s := y + "-" + m + "-" + d;
    forall i | 0 <= i < |s| ensures !IsJsSpace(s[i]) {
      assert IsDigit(s[i]) || s[i] == '-';
    }
  }

  /** What a day is judged on: `{ calendar, selected, gregorian, jalali, iso, date, key }`. */
  datatype Info = Info(calendar: string, selected: Parts, gregorian: Parts, jalali: Option<Parts>,
                       iso: string, date: int, key: int)

  /**
   * `buildInfo(dp, calendar, y, m, d)`: for "gregorian" the date itself (its
   * Jalali form only when the library is there); for any other calendar the
   * date read as Jalali through the library, which must then be there.
   */
  function BuildInfo(lib: Option<Jalali.Lib>, calendar: string, y: int, m: int, d: int): (r: Result<Info>)
    ensures r.Err? <==> calendar != "gregorian" && lib.None?
    ensures r.Ok? ==> r.value.selected == Parts(y, m, d) && r.value.calendar == calendar
    ensures r.Ok? ==> r.value.iso == IsoFromGregorian(r.value.gregorian)
    ensures r.Ok? ==> r.value.key == DateKeyFromGregorian(r.value.gregorian.y, r.value.gregorian.m, r.value.gregorian.d)
    ensures r.Ok? ==> r.value.date == r.value.key
    ensures r.Ok? && calendar == "gregorian" ==> r.value.gregorian == Parts(y, m, d)
    ensures r.Ok? && calendar == "gregorian" ==> (r.value.jalali.None? <==> lib.None?)
    ensures r.Ok? && calendar != "gregorian" ==>
      (r.value.jalali == Some(Parts(y, m, d)) && r.value.gregorian == lib.value.toGregorian(y, m, d))
  {
    if calendar == "gregorian" then
      var g := Parts(y, m, d);
      var jalali := match lib case None => None case Some(l) => Some(l.toJalaali(y, m, d));
      Ok(Info(calendar, Parts(y, m, d), g, jalali, IsoFromGregorian(g),
              Construct(y, m - 1, d), DateKeyFromGregorian(y, m, d)))
    else
      match lib
      case None => Err("constraints: jalaali-js is required for jalali calendar")
      case Some(l) =>
        var g := l.toGregorian(y, m, d);
        Ok(Info(calendar, Parts(y, m, d), g, Some(Parts(y, m, d)), IsoFromGregorian(g),
                Construct(g.y, g.m - 1, g.d), DateKeyFromGregorian(g.y, g.m, g.d)))
  }

  /** The plugin's options: `min`, `max` and the `isDisabled` predicate, when it is a function. */
  datatype ConstraintOptions = ConstraintOptions(min: Bound, max: Bound, isDisabled: Option<Info -> bool>)

  /** What `install` settles: both keys, the predicate, and the library the checks use. */
  datatype Policy = Policy(minKey: Option<int>, maxKey: Option<int>, isDisabled: Option<Info -> bool>,
                           lib: Option<Jalali.Lib>)

  /** The first half of `install`: both bounds are read, and either failing makes the whole install fail. */
  function MakePolicy(opt: ConstraintOptions, lib: Option<Jalali.Lib>, current: string): (r: Result<Policy>)
    ensures r.Ok? <==> ParseToDateKey(lib, current, opt.min).Ok? && ParseToDateKey(lib, current, opt.max).Ok?
    ensures r.Ok? ==>
      (&& r.value.minKey == ParseToDateKey(lib, current, opt.min).value
       && r.value.maxKey == ParseToDateKey(lib, current, opt.max).value
       && r.value.isDisabled == opt.isDisabled && r.value.lib == lib)
  {
    match ParseToDateKey(lib, current, opt.min)
    case Err(e) => Err(e)
    case Ok(minKey) =>
      match ParseToDateKey(lib, current, opt.max)
      case Err(e) => Err(e)
      case Ok(maxKey) => Ok(Policy(minKey, maxKey, opt.isDisabled, lib))
  }

  /** Outside the bounds that are set. */
  predicate OutOfBounds(policy: Policy, key: int)
  {
    (policy.minKey.Some? && key < policy.minKey.value) || (policy.maxKey.Some? && key > policy.maxKey.value)
  }

  /**
   * `dp.isDisabledDay(y, m, d, calendar)`: an error when the day's
   * information cannot be built; otherwise disabled exactly when it lies
   * outside the bounds or the predicate says so.
   */
  function IsDisabledDay(policy: Policy, y: int, m: int, d: int, calendar: string): (r: Result<bool>)
    ensures r.Err? <==> BuildInfo(policy.lib, calendar, y, m, d).Err?
    ensures r.Ok? ==> var info := BuildInfo(policy.lib, calendar, y, m, d).value;
      r.value <==> OutOfBounds(policy, info.key) || (policy.isDisabled.Some? && policy.isDisabled.value(info))
  {
    match BuildInfo(policy.lib, calendar, y, m, d)
    case Err(e) => Err(e)
    case Ok(info) =>
      if policy.minKey.Some? && info.key < policy.minKey.value then Ok(true)
      else if policy.maxKey.Some? && info.key > policy.maxKey.value then Ok(true)
      else (match policy.isDisabled
        case Some(f) => Ok(f(info))
        case None => Ok(false))
  }

  /**
   * With ISO bounds and no predicate, a valid Gregorian day of a four-digit
   * year is disabled exactly when it falls before `min` or after `max`.
   */
  lemma GregorianWindow(lib: Option<Jalali.Lib>, current: string, lo: Parts, hi: Parts, p: Parts)
    requires IsValidDate(lo) && IsValidDate(hi) && IsValidDate(p)
    requires 1000 <= lo.y <= 9999 && 1000 <= hi.y <= 9999 && 1000 <= p.y
    requires MakePolicy(ConstraintOptions(Str(IsoFromGregorian(lo)), Str(IsoFromGregorian(hi)), None), lib, current).Ok?
    ensures var policy := MakePolicy(ConstraintOptions(Str(IsoFromGregorian(lo)), Str(IsoFromGregorian(hi)), None), lib, current).value;
      IsDisabledDay(policy, p.y, p.m, p.d, "gregorian")
        == Ok(Before(p, lo) || Before(hi, p))
  {
    IsoRoundTrip(lib, current, lo);
    IsoRoundTrip(lib, current, hi);
    KeyOrderIsDateOrder(p, lo);
    KeyOrderIsDateOrder(hi, p);
  }

  /** Strictly earlier in the calendar. */
  predicate Before(p: Parts, q: Parts)
  {
    p.y < q.y || (p.y == q.y && (p.m < q.m || (p.m == q.m && p.d < q.d)))
  }

  lemma KeyOrderIsDateOrder(p: Parts, q: Parts)
    requires IsValidDate(p) && IsValidDate(q) && !(0 <= p.y <= 99) && !(0 <= q.y <= 99)
    ensures DateKeyFromGregorian(p.y, p.m, p.d) < DateKeyFromGregorian(q.y, q.m, q.d) <==> Before(p, q)
  {
    if Before(p, q) {
      DateKeyOrdered(p, q);
    } else if p == q {
    } else {
      DateKeyOrdered(q, p);
    }
  }
}
