/**
 * The parse plugin: reading the bound input's text back into a date with the
 * expression `buildRegexFromPattern` builds, the validity checks, and the
 * decision `handle` takes.
 */
module Parse {
  import opened Wrappers
  import opened JsText
  import opened JsDate
  import opened Digits
  import opened Pattern
  import Jalali

  /** The plugin's options after defaults; `updateOn` and `onInvalid` are event wiring. */
  datatype ParseOptions = ParseOptions(pattern: string, calendar: string, strict: bool, allowEmpty: bool)

  const DefaultOptions: ParseOptions := ParseOptions("YYYY/MM/DD", "auto", false, true)

  /** `new Date(y, m - 1, d)` reads back as `(y, m, d)` exactly for valid dates outside years 0..99. */
  lemma ConstructReadsBack(y: int, m: int, d: int)
    requires 1 <= m <= 12 && 1 <= d <= 31
    ensures FromDays(Construct(y, m - 1, d)) == Parts(y, m, d)
      <==> d <= DaysInMonth(y, m) && !(0 <= y <= 99)
  {
    ConstructInRange(y, m, d);
    if d <= DaysInMonth(y, m) && !(0 <= y <= 99) {
      FromDayNumber(Parts(y, m, d));
    } else if 0 <= y <= 99 && d <= DaysInMonth(y, m) {
      DayNumberOrdered(Parts(y, m, d), Parts(1900 + y, m, 1));
    }
  }

  /**
   * `isValidGregorian(y, m, d)`: month and day in range and the `Date` built
   * from them reads back the same, which fails for years 0..99 since `Date`
   * takes those as 1900..1999.
   */
  function IsValidGregorian(y: int, m: int, d: int): (b: bool)
    ensures b <==> IsValidDate(Parts(y, m, d)) && !(0 <= y <= 99)
  {
    if m < 1 || m > 12 then false
    else if d < 1 || d > 31 then false
    else
      ConstructReadsBack(y, m, d);
      FromDays(Construct(y, m - 1, d)) == Parts(y, m, d)
  }

  /**
   * `isValidJalali(dp, y, m, d)`: false without the library; the library's
   * own check when it has one; otherwise whether its Gregorian image is valid.
   */
  function IsValidJalali(lib: Option<Jalali.Lib>, y: int, m: int, d: int): (b: bool)
    ensures lib.None? ==> !b
    ensures lib.Some? && Jalali.Lawful(lib.value) && lib.value.isValidJalaaliDate.Some?
      ==> (b <==> Jalali.IsValidJalaali(lib.value, Parts(y, m, d)))
    ensures (lib.Some? && Jalali.Lawful(lib.value) && Jalali.IsValidJalaali(lib.value, Parts(y, m, d))
             && !(0 <= lib.value.toGregorian(y, m, d).y <= 99)) ==> b
  {
    match lib
    case None => false
    case Some(l) =>
      match l.isValidJalaaliDate
      case Some(check) => check(y, m, d)
      case None =>
        var g := l.toGregorian(y, m, d);
        IsValidGregorian(g.y, g.m, g.d)
  }

  /** What `handle` ends with: nothing, `onInvalid(raw)`, or `applyParsed`. */
  datatype Decision = Ignore | Invalid(raw: string) | Apply(calendar: string, y: int, m: int, d: int)

  /** `opt.calendar === "auto" ? dp.state.calendar : opt.calendar`. */
  function ResolveCalendar(option: string, current: string): (cal: string)
    ensures option == "auto" ==> cal == current
    ensures option != "auto" ==> cal == option
  {
    if option == "auto" then current else option
  }

  /** The date check once the numbers are read: "gregorian" is checked as Gregorian, anything else as Jalali. */
  function Check(lib: Option<Jalali.Lib>, cal: string, raw: string, y: int, m: int, d: int): (r: Decision)
    ensures r.Apply? || r == Invalid(raw)
    ensures r.Apply? ==> r == Apply(if cal == "gregorian" then "gregorian" else "jalali", y, m, d)
    ensures cal == "gregorian" ==> (r.Apply? <==> IsValidGregorian(y, m, d))
    ensures cal != "gregorian" ==> (r.Apply? <==> IsValidJalali(lib, y, m, d))
  {
    if cal == "gregorian" then
      if IsValidGregorian(y, m, d) then Apply("gregorian", y, m, d) else Invalid(raw)
    else if IsValidJalali(lib, y, m, d) then Apply("jalali", y, m, d) else Invalid(raw)
  }

  /**
   * `handle()` as written: the trimmed text, made Latin, must match the
   * expression; its captures are then read by position as year, month and
   * day, whatever order the pattern puts the placeholders in. A missing
   * capture reads as `NaN`, which no check accepts.
   */
  function HandleAsWritten(opt: ParseOptions, lib: Option<Jalali.Lib>, current: string, value: string): (r: Decision)
    ensures r.Ignore? <==> Trim(value) == [] && opt.allowEmpty
    ensures r.Invalid? ==> r.raw == Trim(value)
    ensures Trim(value) == [] && !opt.allowEmpty ==> r == Invalid([])
    ensures r.Apply? ==> r.calendar == (if ResolveCalendar(opt.calendar, current) == "gregorian" then "gregorian" else "jalali")
    ensures r.Apply? && r.calendar == "gregorian" ==> IsValidGregorian(r.y, r.m, r.d)
    ensures r.Apply? && r.calendar == "jalali" ==> IsValidJalali(lib, r.y, r.m, r.d)
  {
    var raw := Trim(value);
    if raw == [] then (if opt.allowEmpty then Ignore else Invalid(raw))
    else
      var items := BuildMatcher(opt.pattern, opt.strict);
      match Match(items, ToLatinDigits(raw))
      case None => Invalid(raw)
      case Some(caps) =>
        if |caps| < 3 then Invalid(raw)
        else
          CapturesAreDigits(items, caps);
          Check(lib, ResolveCalendar(opt.calendar, current), raw,
                DigitsValue(caps[0]), DigitsValue(caps[1]), DigitsValue(caps[2]))
  }

  lemma CapturesAreDigits(items: seq<Item>, caps: seq<string>)
    requires Fits(items, caps)
    ensures forall i :: 0 <= i < |caps| ==> AllDigits(caps[i])
  {
  }

  /** The number a field's capture reads as, if the expression captures that field. */
  function FieldValue(items: seq<Item>, caps: seq<string>, f: Field): (n: Option<int>)
    requires Fits(items, caps)
  {
    match Pick(Groups(items), caps, f)
    case Some(c) => PickIsCapture(Groups(items), caps, f); Some(DigitsValue(c))
    case None => None
  }

  /** A picked capture is one of the captures. */
  lemma {:induction false} PickIsCapture(groups: seq<Item>, caps: seq<string>, f: Field)
    requires |groups| == |caps|
    ensures Pick(groups, caps, f).Some? ==> Pick(groups, caps, f).value in caps
    decreases |groups|
  {
    if groups != [] && !(groups[0].Group? && groups[0].field == f) {
      PickIsCapture(groups[1..], caps[1..], f);
    }
  }

  /** The reading of the captures once matched: each field from its own capture. */
  function ReadFields(opt: ParseOptions, lib: Option<Jalali.Lib>, current: string, raw: string,
                      items: seq<Item>, caps: seq<string>): (r: Decision)
    requires Fits(items, caps)
    ensures r.Apply? || r == Invalid(raw)
  {
    match (FieldValue(items, caps, Year), FieldValue(items, caps, Month), FieldValue(items, caps, Day))
    case (Some(y), Some(m), Some(d)) => Check(lib, ResolveCalendar(opt.calendar, current), raw, y, m, d)
    case _ => Invalid(raw)
  }

  /**
   * `handle()` with each capture read as the field whose placeholder it
   * replaced, so that a pattern may put the year, month and day in any order.
   */
  function Handle(opt: ParseOptions, lib: Option<Jalali.Lib>, current: string, value: string): (r: Decision)
    ensures r.Ignore? <==> Trim(value) == [] && opt.allowEmpty
    ensures r.Invalid? ==> r.raw == Trim(value)
    ensures Trim(value) == [] && !opt.allowEmpty ==> r == Invalid([])
    ensures r.Apply? ==> r.calendar == (if ResolveCalendar(opt.calendar, current) == "gregorian" then "gregorian" else "jalali")
    ensures r.Apply? && r.calendar == "gregorian" ==> IsValidGregorian(r.y, r.m, r.d)
    ensures r.Apply? && r.calendar == "jalali" ==> IsValidJalali(lib, r.y, r.m, r.d)
  {
    var raw := Trim(value);
    if raw == [] then (if opt.allowEmpty then Ignore else Invalid(raw))
    else
      var items := BuildMatcher(opt.pattern, opt.strict);
      match Match(items, ToLatinDigits(raw))
      case None => Invalid(raw)
      case Some(caps) => ReadFields(opt, lib, current, raw, items, caps)
  }

  /** The fields of the captures, in order. */
  function FieldOrder(items: seq<Item>): (fs: seq<Field>)
    ensures |fs| == |Groups(items)|
  {
    var g := Groups(items);
    seq(|g|, i requires 0 <= i < |g| => g[i].field)
  }

  /** Captures in year, month, day order give the fields by position. */
  lemma FieldsInOrder(items: seq<Item>, caps: seq<string>)
    requires Fits(items, caps) && FieldOrder(items) == [Year, Month, Day]
    ensures |caps| == 3
    ensures FieldValue(items, caps, Year) == Some(DigitsValue(caps[0]))
    ensures FieldValue(items, caps, Month) == Some(DigitsValue(caps[1]))
    ensures FieldValue(items, caps, Day) == Some(DigitsValue(caps[2]))
  {
    var g := Groups(items);
    var fs := FieldOrder(items);
    assert fs[0] == g[0].field && fs[1] == g[1].field && fs[2] == g[2].field;
    assert g[0].Group? && g[1].Group? && g[2].Group?;
    assert Pick(g, caps, Year) == Some(caps[0]);
    assert Pick(g[1..], caps[1..], Month) == Some(caps[1]);
    assert Pick(g, caps, Month) == Some(caps[1]);
    assert Pick(g[2..], caps[2..], Day) == Some(caps[2]);
    assert Pick(g[1..], caps[1..], Day) == Some(caps[2]);
    assert Pick(g, caps, Day) == Some(caps[2]);
  }

  /** When the captures come as year, month, day, reading by position and by field agree. */
  lemma AgreeInOrder(opt: ParseOptions, lib: Option<Jalali.Lib>, current: string, value: string)
    requires FieldOrder(BuildMatcher(opt.pattern, opt.strict)) == [Year, Month, Day]
    ensures HandleAsWritten(opt, lib, current, value) == Handle(opt, lib, current, value)
  {
    var items := BuildMatcher(opt.pattern, opt.strict);
    var raw := Trim(value);
    if raw != [] {
      match Match(items, ToLatinDigits(raw))
      case None =>
      case Some(caps) =>
        FieldsInOrder(items, caps);
    }
  }

  /** The default pattern "YYYY/MM/DD" as placeholders and separators. */
  const DefaultLayout: seq<Piece> := [Tok(Year), Text("/"), Tok(Month), Text("/"), Tok(Day)]

  lemma DefaultLayoutShape()
    ensures Source(DefaultLayout) == "YYYY/MM/DD"
    ensures FieldsOf(DefaultLayout) == [Year, Month, Day]
    ensures Layout(DefaultLayout) && SettledLayout(DefaultLayout)
  {
    ThreePlaceholders(Year, Month, Day, "/");
    SlashIsPlain();
  }

  /** A layout of three placeholders joined by one separator. */
  lemma ThreePlaceholders(a: Field, b: Field, c: Field, sep: string)
    ensures var p := [Tok(a), Text(sep), Tok(b), Text(sep), Tok(c)];
      && Source(p) == Token(a) + sep + Token(b) + sep + Token(c)
      && FieldsOf(p) == [a, b, c]
      && forall f :: Count(p, f) == (if a == f then 1 else 0) + (if b == f then 1 else 0) + (if c == f then 1 else 0)
  {
    ThreeSource(a, b, c, sep);
    ThreeFields(a, b, c, sep);
    forall f ensures Count(Joined(a, b, c, sep), f)
      == (if a == f then 1 else 0) + (if b == f then 1 else 0) + (if c == f then 1 else 0)
    {
      ThreeCount(a, b, c, sep, f);
    }
  }

  /** The three-placeholder layout built one piece at a time. */
  function Joined(a: Field, b: Field, c: Field, sep: string): (p: seq<Piece>)
    ensures p == [Tok(a), Text(sep), Tok(b), Text(sep), Tok(c)]
  {
    [Tok(a)] + ([Text(sep)] + ([Tok(b)] + ([Text(sep)] + ([Tok(c)] + []))))
  }

  lemma ThreeSource(a: Field, b: Field, c: Field, sep: string)
    ensures Source(Joined(a, b, c, sep)) == Token(a) + sep + Token(b) + sep + Token(c)
  {
    var p4: seq<Piece> := [Tok(c)] + [];
    OnePiece(Tok(c), []);
    OnePiece(Text(sep), p4);
    OnePiece(Tok(b), [Text(sep)] + p4);
    OnePiece(Text(sep), [Tok(b)] + ([Text(sep)] + p4));
    OnePiece(Tok(a), [Text(sep)] + ([Tok(b)] + ([Text(sep)] + p4)));
    Regroup(Token(a), sep, Token(b), Token(c));
  }

  lemma ThreeFields(a: Field, b: Field, c: Field, sep: string)
    ensures FieldsOf(Joined(a, b, c, sep)) == [a, b, c]
  {
    var p4: seq<Piece> := [Tok(c)] + [];
    OnePiece(Tok(c), []);
    OnePiece(Text(sep), p4);
    OnePiece(Tok(b), [Text(sep)] + p4);
    OnePiece(Text(sep), [Tok(b)] + ([Text(sep)] + p4));
    OnePiece(Tok(a), [Text(sep)] + ([Tok(b)] + ([Text(sep)] + p4)));
  }

  lemma ThreeCount(a: Field, b: Field, c: Field, sep: string, f: Field)
    ensures Count(Joined(a, b, c, sep), f)
      == (if a == f then 1 else 0) + (if b == f then 1 else 0) + (if c == f then 1 else 0)
  {
    var p4: seq<Piece> := [Tok(c)] + [];
    OneCount(Tok(c), [], f);
    OneCount(Text(sep), p4, f);
    OneCount(Tok(b), [Text(sep)] + p4, f);
    OneCount(Text(sep), [Tok(b)] + ([Text(sep)] + p4), f);
    OneCount(Tok(a), [Text(sep)] + ([Tok(b)] + ([Text(sep)] + p4)), f);
  }

  /** Concatenation regrouped to the right. */
  lemma Regroup(a: string, s: string, b: string, c: string)
    ensures a + s + b + s + c == a + (s + (b + (s + c)))
  {
  }

  /** Putting one piece in front adds its text and its field. */
  lemma OnePiece(x: Piece, rest: seq<Piece>)
    ensures Source([x] + rest) == (match x case Text(t) => t case Tok(f) => Token(f)) + Source(rest)
    ensures FieldsOf([x] + rest) == (match x case Text(_) => [] case Tok(f) => [f]) + FieldsOf(rest)
  {
    assert ([x] + rest)[1..] == rest;
  }

  /** Putting one piece in front adds its count. */
  lemma OneCount(x: Piece, rest: seq<Piece>, f: Field)
    ensures Count([x] + rest, f) == (if x == Tok(f) then 1 else 0) + Count(rest, f)
  {
    assert ([x] + rest)[1..] == rest;
  }

  /** The separator `/` holds no placeholder letter, no whitespace and no Persian digit. */
  lemma SlashIsPlain()
    ensures NoTokenLetter("/") && Settled("/")
  {
  }

  /** The default pattern captures year, month and day in that order: four digits, then one or two (two when strict) twice. */
  lemma DefaultPatternOrder(strict: bool)
    ensures Groups(BuildMatcher("YYYY/MM/DD", strict))
      == [GroupFor(Year, strict), GroupFor(Month, strict), GroupFor(Day, strict)]
    ensures FieldOrder(BuildMatcher("YYYY/MM/DD", strict)) == [Year, Month, Day]
  {
    DefaultLayoutShape();
    BuildMatcherOfLayout(DefaultLayout, strict);
    RenderLayout(DefaultLayout, strict, Values("", "", ""));
    var g := GroupsFor([Year, Month, Day], strict);
    assert g == [GroupFor(Year, strict), GroupFor(Month, strict), GroupFor(Day, strict)];
  }

  /** With the default pattern, reading the captures by position is reading them by field. */
  lemma DefaultAsWritten(opt: ParseOptions, lib: Option<Jalali.Lib>, current: string, value: string)
    requires opt.pattern == "YYYY/MM/DD"
    ensures HandleAsWritten(opt, lib, current, value) == Handle(opt, lib, current, value)
  {
    DefaultPatternOrder(opt.strict);
    AgreeInOrder(opt, lib, current, value);
  }

  /** The default pattern is built into a year, a month and a day capture, separated by "/". */
  lemma DefaultItems(strict: bool)
    ensures BuildMatcher("YYYY/MM/DD", strict)
      == Three(GroupFor(Year, strict), GroupFor(Month, strict), GroupFor(Day, strict), '/')
  {
    DefaultLayoutShape();
    BuildMatcherOfLayout(DefaultLayout, strict);
    var all := {Year, Month, Day};
    var p := DefaultLayout;
    assert Lits("/") == [Lit('/')];
    assert p[1..][1..][1..][1..][1..] == [];
    assert StepsOf(p[1..][1..][1..][1..], strict, all) == [GroupFor(Day, strict)];
    assert StepsOf(p[1..][1..], strict, all) == [GroupFor(Month, strict), Lit('/'), GroupFor(Day, strict)];
  }

  /**
   * Under the default pattern, text "y/m/d" with a four-digit year and a
   * month and day of one or two digits (two when strict) is read by
   * position as those numbers; the date check alone then decides. So the
   * non-strict reading accepts unpadded months and days.
   */
  lemma DefaultReadsUnpadded(opt: ParseOptions, lib: Option<Jalali.Lib>, current: string,
                             y: string, m: string, d: string)
    requires opt.pattern == "YYYY/MM/DD"
    requires AllDigits(y) && AllDigits(m) && AllDigits(d) && |y| == 4
    requires 1 <= |m| <= 2 && 1 <= |d| <= 2 && (opt.strict ==> |m| == 2 && |d| == 2)
    ensures var s := y + "/" + m + "/" + d;
      HandleAsWritten(opt, lib, current, s)
        == Check(lib, ResolveCalendar(opt.calendar, current), s, DigitsValue(y), DigitsValue(m), DigitsValue(d))
  {
    var s := y + "/" + m + "/" + d;
    var gy, gm, gd := GroupFor(Year, opt.strict), GroupFor(Month, opt.strict), GroupFor(Day, opt.strict);
    var caps := [y, m, d];
    DefaultItems(opt.strict);
    ThreeRender(gy, gm, gd, '/', caps);
    assert Fits(Three(gy, gm, gd, '/'), caps);
    ThreeMatched(gy, gm, gd, '/', caps);
    DigitsAndSlashSettled(y, m, d);
    SettledUntouched(s);
  }

  /** Digits and slashes are left alone by `trim` and `toLatinDigits`. */
  lemma DigitsAndSlashSettled(y: string, m: string, d: string)
    requires AllDigits(y) && AllDigits(m) && AllDigits(d)
    ensures Settled(y + "/" + m + "/" + d)
  {
    var s := y + "/" + m + "/" + d;
    forall i | 0 <= i < |s|
      ensures !IsJsSpace(s[i]) && !IsPersianDigit(s[i])
    {
      assert IsDigit(s[i]) || s[i] == '/';
    }
  }

  /** "2024/3/5" under the default pattern, not strict, is 5 March 2024. */
  lemma UnpaddedDateRead(lib: Option<Jalali.Lib>, current: string)
    ensures HandleAsWritten(DefaultOptions.(calendar := "gregorian"), lib, current, "2024/3/5")
      == Apply("gregorian", 2024, 3, 5)
  {
    assert "2024"[..3] == "202" && "202"[..2] == "20" && "20"[..1] == "2";
    assert DigitsValue("2024") == 2024 && DigitsValue("3") == 3 && DigitsValue("5") == 5;
    assert "2024" + "/" + "3" + "/" + "5" == "2024/3/5";
    DefaultReadsUnpadded(DefaultOptions.(calendar := "gregorian"), lib, current, "2024", "3", "5");
    assert IsValidDate(Parts(2024, 3, 5));
  }

  /** The raw text only travels into `onInvalid`: the rest of the reading does not depend on it. */
  lemma ReadFieldsRaw(opt: ParseOptions, lib: Option<Jalali.Lib>, current: string, raw1: string, raw2: string,
                      items: seq<Item>, caps: seq<string>)
    requires Fits(items, caps)
    ensures var r := ReadFields(opt, lib, current, raw2, items, caps);
      ReadFields(opt, lib, current, raw1, items, caps) == if r.Invalid? then Invalid(raw1) else r
  {
  }

  /** Persian and Latin spellings of the same text are read as the same date. */
  lemma PersianSpellingReadsAlike(opt: ParseOptions, lib: Option<Jalali.Lib>, current: string, s: string)
    ensures var latin := Handle(opt, lib, current, s);
      Handle(opt, lib, current, ToPersianDigits(s))
        == if latin.Invalid? then Invalid(ToPersianDigits(Trim(s))) else latin
  {
    var t := Trim(s);
    var pt := ToPersianDigits(t);
    TrimPersian(s);
    LatinOfBothSpellings(t);
    assert Trim(ToPersianDigits(s)) == pt;
    assert ToLatinDigits(pt) == ToLatinDigits(t);
    assert pt == [] <==> t == [];
    if t != [] {
      var items := BuildMatcher(opt.pattern, opt.strict);
      match Match(items, ToLatinDigits(t))
      case None =>
      case Some(caps) =>
        ReadFieldsRaw(opt, lib, current, pt, t, items, caps);
    }
  }

  /**
   * The reading the engine uses is also blind to the digit spelling: text
   * with Persian digits decides as its Latin spelling, up to the raw text
   * an invalid decision carries.
   */
  lemma PersianSpellingReadsAlikeAsWritten(opt: ParseOptions, lib: Option<Jalali.Lib>, current: string, s: string)
    ensures var latin := HandleAsWritten(opt, lib, current, s);
      HandleAsWritten(opt, lib, current, ToPersianDigits(s))
        == if latin.Invalid? then Invalid(ToPersianDigits(Trim(s))) else latin
  {
    var t := Trim(s);
    var pt := ToPersianDigits(t);
    TrimPersian(s);
    LatinOfBothSpellings(t);
    assert Trim(ToPersianDigits(s)) == pt;
    assert pt == [] <==> t == [];
    if t != [] {
      AsWrittenRawBlind(opt, lib, current, ToPersianDigits(s), s);
    }
  }

  /** Two texts whose trimmed Latin spellings agree decide alike, up to the raw text. */
  lemma AsWrittenRawBlind(opt: ParseOptions, lib: Option<Jalali.Lib>, current: string, v1: string, v2: string)
    requires Trim(v1) != [] && Trim(v2) != []
    requires ToLatinDigits(Trim(v1)) == ToLatinDigits(Trim(v2))
    ensures var r := HandleAsWritten(opt, lib, current, v2);
      HandleAsWritten(opt, lib, current, v1) == if r.Invalid? then Invalid(Trim(v1)) else r
  {
    var items := BuildMatcher(opt.pattern, opt.strict);
    match Match(items, ToLatinDigits(Trim(v2)))
    case None =>
    case Some(caps) =>
  }

  /** Text that `trim` and `toLatinDigits` leave alone: no whitespace, no Persian digit. */
  predicate Settled(s: string)
  {
    forall i :: 0 <= i < |s| ==> !IsJsSpace(s[i]) && !IsPersianDigit(s[i])
  }

  /** A pattern's literal text is settled. */
  predicate SettledLayout(pieces: seq<Piece>)
  {
    Layout(pieces) && forall i :: 0 <= i < |pieces| && pieces[i].Text? ==> Settled(pieces[i].s)
  }

  /** Filling a settled layout with digits gives settled text, at least as long as each value. */
  lemma {:induction false} FilledSettled(pieces: seq<Piece>, v: Values)
    requires forall i :: 0 <= i < |pieces| && pieces[i].Text? ==> Settled(pieces[i].s)
    requires AllDigits(v.y) && AllDigits(v.m) && AllDigits(v.d)
    ensures Settled(Filled(pieces, v))
    ensures forall f :: Count(pieces, f) > 0 ==> |ValueOf(v, f)| <= |Filled(pieces, v)|
    decreases |pieces|
  {
    if pieces != [] {
      FilledSettled(pieces[1..], v);
      var head := match pieces[0] case Text(t) => t case Tok(f) => ValueOf(v, f);
      assert Settled(head);
      assert Filled(pieces, v) == head + Filled(pieces[1..], v);
    }
  }

  /**
   * Text a settled pattern spells with a four-digit year and two-digit month
   * and day reads back as those numbers, whatever order the placeholders
   * come in; the date check alone then decides.
   */
  lemma ReadsFilled(opt: ParseOptions, lib: Option<Jalali.Lib>, current: string, pieces: seq<Piece>, v: Values)
    requires SettledLayout(pieces) && opt.pattern == Source(pieces) && WidestValues(v)
    ensures var s := Filled(pieces, v);
      Handle(opt, lib, current, s)
        == Check(lib, ResolveCalendar(opt.calendar, current), s, DigitsValue(v.y), DigitsValue(v.m), DigitsValue(v.d))
  {
    var s := Filled(pieces, v);
    FilledIsRaw(pieces, v);
    var items := BuildMatcher(opt.pattern, opt.strict);
    var caps := CapsOf(FieldsOf(pieces), v);
    MatchFilled(pieces, opt.strict, v);
    assert Match(items, ToLatinDigits(s)) == Some(caps);
    ReadFieldsFilled(opt, lib, current, s, pieces, v);
  }

  /** Reading the captures of a filled layout gives the values written into it. */
  lemma ReadFieldsFilled(opt: ParseOptions, lib: Option<Jalali.Lib>, current: string, raw: string,
                         pieces: seq<Piece>, v: Values)
    requires Layout(pieces) && opt.pattern == Source(pieces) && WidestValues(v)
    ensures var items := BuildMatcher(opt.pattern, opt.strict);
      var caps := CapsOf(FieldsOf(pieces), v);
      Fits(items, caps)
      && ReadFields(opt, lib, current, raw, items, caps)
        == Check(lib, ResolveCalendar(opt.calendar, current), raw, DigitsValue(v.y), DigitsValue(v.m), DigitsValue(v.d))
  {
    FieldValueFilled(pieces, opt.strict, v, Year);
    FieldValueFilled(pieces, opt.strict, v, Month);
    FieldValueFilled(pieces, opt.strict, v, Day);
  }

  /** A filled settled layout is already trimmed, not empty, and Latin. */
  lemma FilledIsRaw(pieces: seq<Piece>, v: Values)
    requires SettledLayout(pieces) && WidestValues(v)
    ensures var s := Filled(pieces, v);
      Trim(s) == s && s != [] && ToLatinDigits(s) == s
  {
    var s := Filled(pieces, v);
    FilledSettled(pieces, v);
    SettledUntouched(s);
    assert Count(pieces, Year) > 0;
    assert |ValueOf(v, Year)| == 4;
  }

  /** `trim` and `toLatinDigits` leave settled text as it is. */
  lemma SettledUntouched(s: string)
    requires Settled(s)
    ensures Trim(s) == s && ToLatinDigits(s) == s
  {
    SettledTrimmed(s);
    SettledLatin(s);
  }

  lemma SettledTrimmed(s: string)
    requires Settled(s)
    ensures Trim(s) == s
  {
    assert forall i :: 0 <= i < |s| ==> !IsJsSpace(s[i]);
  }

  lemma SettledLatin(s: string)
    requires Settled(s)
    ensures ToLatinDigits(s) == s
  {
    var r := ToLatinDigits(s);
    forall i | 0 <= i < |s|
      ensures r[i] == s[i]
    {
      assert !IsPersianDigit(s[i]);
    }
  }

  /** In a filled layout each field's capture reads as the value written for it. */
  lemma FieldValueFilled(pieces: seq<Piece>, strict: bool, v: Values, f: Field)
    requires Layout(pieces) && WidestValues(v)
    ensures var items := BuildMatcher(Source(pieces), strict);
      var caps := CapsOf(FieldsOf(pieces), v);
      Fits(items, caps) && FieldValue(items, caps, f) == Some(DigitsValue(ValueOf(v, f)))
  {
    var items := BuildMatcher(Source(pieces), strict);
    var caps := CapsOf(FieldsOf(pieces), v);
    MatchFilled(pieces, strict, v);
    assert Count(pieces, f) == 1 by {
      match f
      case Year =>
      case Month =>
      case Day =>
    }
    PickValue(FieldsOf(pieces), strict, v, f);
    assert Pick(Groups(items), caps, f) == Some(ValueOf(v, f));
  }

  /** The pattern "DD/MM/YYYY", day first, as placeholders and separators. */
  const DayFirstLayout: seq<Piece> := [Tok(Day), Text("/"), Tok(Month), Text("/"), Tok(Year)]

  lemma DayFirstLayoutShape()
    ensures Source(DayFirstLayout) == "DD/MM/YYYY"
    ensures FieldsOf(DayFirstLayout) == [Day, Month, Year]
    ensures SettledLayout(DayFirstLayout)
  {
    ThreePlaceholders(Day, Month, Year, "/");
    SlashIsPlain();
  }

  lemma DigitsOf15March2024()
    ensures AllDigits("15") && DigitsValue("15") == 15
    ensures AllDigits("03") && DigitsValue("03") == 3
    ensures AllDigits("2024") && DigitsValue("2024") == 2024
  {
    assert "15"[..1] == "1" && "03"[..1] == "0";
    assert "2024"[..3] == "202" && "202"[..2] == "20" && "20"[..1] == "2";
  }

  /** The date written by the pattern "DD/MM/YYYY" for 15 March 2024. */
  lemma DayFirstText()
    ensures Filled(DayFirstLayout, Values("2024", "03", "15")) == "15/03/2024"
    ensures WidestValues(Values("2024", "03", "15"))
  {
    var p := DayFirstLayout;
    assert p[1..][1..][1..][1..][1..] == [];
  }

  /** Read by field, "15/03/2024" under "DD/MM/YYYY" is 15 March 2024. */
  lemma DayFirstReadByField(lib: Option<Jalali.Lib>, current: string)
    ensures Handle(ParseOptions("DD/MM/YYYY", "gregorian", false, true), lib, current, "15/03/2024")
      == Apply("gregorian", 2024, 3, 15)
  {
    var v := Values("2024", "03", "15");
    DayFirstLayoutShape();
    DayFirstText();
    DigitsOf15March2024();
    ReadsFilled(ParseOptions("DD/MM/YYYY", "gregorian", false, true), lib, current, DayFirstLayout, v);
    March15Valid();
  }

  lemma March15Valid()
    ensures IsValidGregorian(2024, 3, 15) && !IsValidGregorian(15, 3, 2024)
  {
    assert IsValidDate(Parts(2024, 3, 15));
  }

  /** Under "DD/MM/YYYY", "15/03/2024" is plain text whose captures come day first. */
  lemma DayFirstMatch()
    ensures Trim("15/03/2024") == "15/03/2024" && ToLatinDigits("15/03/2024") == "15/03/2024"
    ensures Match(BuildMatcher("DD/MM/YYYY", false), "15/03/2024") == Some(["15", "03", "2024"])
  {
    var v := Values("2024", "03", "15");
    DayFirstLayoutShape();
    DayFirstText();
    FilledIsRaw(DayFirstLayout, v);
    MatchFilled(DayFirstLayout, false, v);
    DayFirstCaps(v);
  }

  lemma DayFirstCaps(v: Values)
    requires v == Values("2024", "03", "15")
    ensures CapsOf([Day, Month, Year], v) == ["15", "03", "2024"]
  {
    var c := CapsOf([Day, Month, Year], v);
    assert |c| == 3 && c[0] == v.d && c[1] == v.m && c[2] == v.y;
  }

  /** Read by position, "15/03/2024" under "DD/MM/YYYY" is day 2024 of month 3 of year 15, and is turned down. */
  lemma DayFirstReadByPosition(lib: Option<Jalali.Lib>, current: string)
    ensures HandleAsWritten(ParseOptions("DD/MM/YYYY", "gregorian", false, true), lib, current, "15/03/2024")
      == Invalid("15/03/2024")
  {
    DayFirstMatch();
    DigitsOf15March2024();
    March15Valid();
  }

  /**
   * With the pattern "DD/MM/YYYY" the text of 15 March 2024 is turned down
   * when the captures are read by position, and read as 15 March 2024 when
   * each capture is read as its own field.
   */
  lemma DayFirstPatternMisread(lib: Option<Jalali.Lib>, current: string)
    ensures var opt := ParseOptions("DD/MM/YYYY", "gregorian", false, true);
      && HandleAsWritten(opt, lib, current, "15/03/2024") == Invalid("15/03/2024")
      && Handle(opt, lib, current, "15/03/2024") == Apply("gregorian", 2024, 3, 15)
  {
    DayFirstReadByField(lib, current);
    DayFirstReadByPosition(lib, current);
  }
}
