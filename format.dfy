/**
 * The format plugin: writing a date into a display pattern, choosing which
 * calendar's parts to write, and the digit script of the result.
 */
module Format {
  import opened Wrappers
  import opened JsText
  import opened Utils
  import opened JsDate
  import opened Digits
  import opened Pattern
  import Jalali
  import Parse

  /** `formatFromParts({ y, m, d }, pattern)`: every `YYYY`, then every `MM`, then every `DD`. */
  function FormatFromParts(p: Parts, pattern: string): (s: string)
    ensures (forall i :: 0 <= i < |pattern| ==> pattern[i] != 'Y' && pattern[i] != 'M' && pattern[i] != 'D') ==> s == pattern
  {
    var withYear := ReplaceAll(pattern, "YYYY", IntToString(p.y));
    var withMonth := ReplaceAll(withYear, "MM", Pad2(p.m));
    ReplaceAllAbsent(pattern, "YYYY", IntToString(p.y));
    ReplaceAllAbsent(withYear, "MM", Pad2(p.m));
    ReplaceAllAbsent(withMonth, "DD", Pad2(p.d));
    ReplaceAll(withMonth, "DD", Pad2(p.d))
  }

  /** The pattern with the placeholders of `f` turned into the text `val`. */
  function Subst(pieces: seq<Piece>, f: Field, val: string): (r: seq<Piece>)
    ensures |r| == |pieces|
    ensures forall i :: 0 <= i < |pieces| ==> r[i] == if pieces[i] == Tok(f) then Text(val) else pieces[i]
    decreases |pieces|
  {
    if pieces == [] then []
    else [if pieces[0] == Tok(f) then Text(val) else pieces[0]] + Subst(pieces[1..], f, val)
  }

  /** Literal text free of placeholder letters. */
  predicate PlainPieces(pieces: seq<Piece>)
  {
    forall i :: 0 <= i < |pieces| && pieces[i].Text? ==> NoTokenLetter(pieces[i].s)
  }

  lemma SubstPlain(pieces: seq<Piece>, f: Field, val: string)
    requires PlainPieces(pieces) && NoTokenLetter(val)
    ensures PlainPieces(Subst(pieces, f, val))
  {
    var r := Subst(pieces, f, val);
    forall i | 0 <= i < |r| && r[i].Text?
      ensures NoTokenLetter(r[i].s)
    {
      if pieces[i] != Tok(f) {
        assert r[i] == pieces[i];
      }
    }
  }

  /** `replaceAll` of one placeholder writes its value wherever that placeholder stands. */
  lemma {:induction false} ReplaceAllPieces(pieces: seq<Piece>, f: Field, val: string)
    requires PlainPieces(pieces)
    ensures ReplaceAll(Source(pieces), Token(f), val) == Source(Subst(pieces, f, val))
    decreases |pieces|
  {
    if pieces == [] {
      ReplaceAllShort([], Token(f), val);
    } else {
      var rest := Source(pieces[1..]);
      ReplaceAllPieces(pieces[1..], f, val);
      assert Subst(pieces, f, val)[1..] == Subst(pieces[1..], f, val);
      match pieces[0]
      case Text(t) =>
        ReplaceAllSkips(t, rest, Token(f), val);
      case Tok(g) =>
        if g == f {
          ReplaceAllFront(rest, Token(f), val);
        } else {
          TokenLetters(f, g);
          ReplaceAllSkips(Token(g), rest, Token(f), val);
        }
    }
  }

  /** Text `String` and `pad2` produce holds no placeholder letter. */
  lemma NumbersHaveNoLetters(n: int)
    ensures NoTokenLetter(IntToString(n)) && NoTokenLetter(Pad2(n))
  {
    var t := IntToString(n);
    if n < 0 {
      assert t[1..] == NatToString(-n);
      assert forall i :: 1 <= i < |t| ==> t[i] == t[1..][i - 1];
    }
  }

  /** Writing all three placeholders gives the pattern filled with the values. */
  lemma {:induction false} SubstAll(pieces: seq<Piece>, v: Values)
    ensures Source(Subst(Subst(Subst(pieces, Year, v.y), Month, v.m), Day, v.d)) == Filled(pieces, v)
    decreases |pieces|
  {
    if pieces != [] {
      var s1 := Subst(pieces, Year, v.y);
      var s2 := Subst(s1, Month, v.m);
      var s3 := Subst(s2, Day, v.d);
      assert s1[1..] == Subst(pieces[1..], Year, v.y);
      assert s2[1..] == Subst(s1[1..], Month, v.m);
      assert s3[1..] == Subst(s2[1..], Day, v.d);
      SubstAll(pieces[1..], v);
    }
  }

  /** The values `formatFromParts` writes for a date. */
  function Written(p: Parts): Values
  {
    Values(IntToString(p.y), Pad2(p.m), Pad2(p.d))
  }

  /**
   * For a pattern whose literal text holds no placeholder letter,
   * `formatFromParts` writes the year, month and day at every place their
   * placeholders stand, and leaves the text between them as it is.
   */
  lemma FormatLayout(p: Parts, pieces: seq<Piece>)
    requires PlainPieces(pieces)
    ensures FormatFromParts(p, Source(pieces)) == Filled(pieces, Written(p))
  {
    var v := Written(p);
    NumbersHaveNoLetters(p.y);
    NumbersHaveNoLetters(p.m);
    NumbersHaveNoLetters(p.d);
    ReplaceAllPieces(pieces, Year, v.y);
    var s1 := Subst(pieces, Year, v.y);
    SubstPlain(pieces, Year, v.y);
    ReplaceAllPieces(s1, Month, v.m);
    var s2 := Subst(s1, Month, v.m);
    SubstPlain(s1, Month, v.m);
    ReplaceAllPieces(s2, Day, v.d);
    SubstAll(pieces, v);
    calc {
      FormatFromParts(p, Source(pieces));
      ReplaceAll(ReplaceAll(Source(s1), "MM", v.m), "DD", v.d);
      ReplaceAll(Source(s2), "DD", v.d);
      Source(Subst(s2, Day, v.d));
      Filled(pieces, v);
    }
  }

  /** The plugin's options after defaults. */
  datatype FormatOptions = FormatOptions(pattern: string, calendar: string, digits: Option<string>, writeToInput: bool)

  const DefaultOptions: FormatOptions := FormatOptions("YYYY/MM/DD", "auto", None, true)

  /** What `formatValue` is given: a `change` payload (its Gregorian parts always present), or parts, possibly null. */
  datatype Input = PayloadIn(gregorian: Parts, jalali: Option<Parts>) | PartsIn(parts: Option<Parts>)

  /** The parts `formatValue` writes: from a payload, the Jalali parts when the calendar resolves to "jalali", else the Gregorian. */
  function ChosenParts(opt: FormatOptions, current: string, input: Input): (p: Option<Parts>)
    ensures input.PartsIn? ==> p == input.parts
    ensures input.PayloadIn? && Parse.ResolveCalendar(opt.calendar, current) == "jalali" ==> p == input.jalali
    ensures input.PayloadIn? && Parse.ResolveCalendar(opt.calendar, current) != "jalali" ==> p == Some(input.gregorian)
  {
    match input
    case PartsIn(parts) => parts
    case PayloadIn(g, j) => if Parse.ResolveCalendar(opt.calendar, current) == "jalali" then j else Some(g)
  }

  /** `opt.digits ?? dp.options.digits ?? "auto"`. */
  function DigitsMode(opt: FormatOptions, engineDigits: Option<string>): (mode: string)
    ensures opt.digits.Some? ==> mode == opt.digits.value
    ensures opt.digits.None? && engineDigits.Some? ==> mode == engineDigits.value
    ensures opt.digits.None? && engineDigits.None? ==> mode == "auto"
  {
    opt.digits.GetOr(engineDigits.GetOr("auto"))
  }

  /**
   * `dp.formatValue(payloadOrParts)`: "" when there are no parts to write;
   * otherwise the pattern filled in, in Persian digits when the digit mode
   * asks for them ("auto" does so for the locale "fa", the default).
   */
  function FormatValue(opt: FormatOptions, engineDigits: Option<string>, engineLocale: Option<string>,
                       current: string, input: Input): (r: string)
    ensures ChosenParts(opt, current, input).None? ==> r == ""
    ensures var p := ChosenParts(opt, current, input);
      var mode := DigitsMode(opt, engineDigits);
      (p.Some? && (mode == "persian" || (mode == "auto" && engineLocale.GetOr("fa") == "fa"))) ==>
        r == ToPersianDigits(FormatFromParts(p.value, opt.pattern))
    ensures var p := ChosenParts(opt, current, input);
      var mode := DigitsMode(opt, engineDigits);
      (p.Some? && mode != "persian" && !(mode == "auto" && engineLocale.GetOr("fa") == "fa")) ==>
        r == FormatFromParts(p.value, opt.pattern)
  {
    match ChosenParts(opt, current, input)
    case None => ""
    case Some(p) =>
      FormatDigits(FormatFromParts(p, opt.pattern), Some(engineLocale.GetOr("fa")), Some(DigitsMode(opt, engineDigits)))
  }

  /** `formatFromParts` is either the text itself or its Persian spelling. */
  lemma ScriptOf(opt: FormatOptions, engineDigits: Option<string>, engineLocale: Option<string>,
                 current: string, input: Input)
    requires ChosenParts(opt, current, input).Some?
    ensures var x := FormatFromParts(ChosenParts(opt, current, input).value, opt.pattern);
      var r := FormatValue(opt, engineDigits, engineLocale, current, input);
      r == x || r == ToPersianDigits(x)
  {
  }

  /**
   * Round trip: for a pattern with each placeholder once and literal text free
   * of placeholder letters, whitespace and Persian digits, the text
   * `formatValue` writes for a year of four digits and a month and day in
   * 0..99 is read by the parse plugin with the same pattern as exactly that
   * year, month and day, in either digit script, strict or not. The date
   * check of the parse plugin alone then decides.
   */
  lemma FormatThenParse(opt: FormatOptions, engineDigits: Option<string>, engineLocale: Option<string>,
                        current: string, input: Input, popt: Parse.ParseOptions, lib: Option<Jalali.Lib>,
                        pieces: seq<Piece>)
    requires Parse.SettledLayout(pieces) && opt.pattern == Source(pieces) && popt.pattern == opt.pattern
    requires var p := ChosenParts(opt, current, input);
      p.Some? && 1000 <= p.value.y <= 9999 && 0 <= p.value.m <= 99 && 0 <= p.value.d <= 99
    ensures var p := ChosenParts(opt, current, input).value;
      var s := FormatValue(opt, engineDigits, engineLocale, current, input);
      Parse.Handle(popt, lib, current, s)
        == Parse.Check(lib, Parse.ResolveCalendar(popt.calendar, current), Trim(s), p.y, p.m, p.d)
  {
    var p := ChosenParts(opt, current, input).value;
    var x := FormatFromParts(p, opt.pattern);
    var s := FormatValue(opt, engineDigits, engineLocale, current, input);
    FormatLayout(p, pieces);
    ReadWritten(popt, lib, current, pieces, p);
    ScriptOf(opt, engineDigits, engineLocale, current, input);
    if s != x {
      Parse.PersianSpellingReadsAlike(popt, lib, current, x);
      TrimPersian(x);
    }
  }

  /** The written text of a date reads back as that date, before any change of script. */
  lemma ReadWritten(popt: Parse.ParseOptions, lib: Option<Jalali.Lib>, current: string,
                    pieces: seq<Piece>, p: Parts)
    requires Parse.SettledLayout(pieces) && popt.pattern == Source(pieces)
    requires 1000 <= p.y <= 9999 && 0 <= p.m <= 99 && 0 <= p.d <= 99
    ensures var s := Filled(pieces, Written(p));
      Trim(s) == s
      && Parse.Handle(popt, lib, current, s) == Parse.Check(lib, Parse.ResolveCalendar(popt.calendar, current), s, p.y, p.m, p.d)
  {
    var v := Written(p);
    FourDigitYear(p.y);
    DigitsValueOfNatToString(p.y);
    Pad2TwoDigits(p.m);
    Pad2TwoDigits(p.d);
    assert WidestValues(v);
    Parse.ReadsFilled(popt, lib, current, pieces, v);
    Parse.FilledIsRaw(pieces, v);
  }

  /**
   * With the default pattern "YYYY/MM/DD", a valid Gregorian date of a
   * four-digit year, formatted and parsed as Gregorian, is selected again,
   * by the positional reading as well as by the by-field one.
   */
  lemma DefaultRoundTrip(p: Parts, engineDigits: Option<string>, engineLocale: Option<string>,
                         current: string, strict: bool, lib: Option<Jalali.Lib>)
    requires IsValidDate(p) && 1000 <= p.y <= 9999
    ensures var opt := DefaultOptions.(calendar := "gregorian");
      var s := FormatValue(opt, engineDigits, engineLocale, current, PartsIn(Some(p)));
      Parse.Handle(Parse.DefaultOptions.(calendar := "gregorian", strict := strict), lib, current, s)
        == Parse.Apply("gregorian", p.y, p.m, p.d)
    ensures var opt := DefaultOptions.(calendar := "gregorian");
      var s := FormatValue(opt, engineDigits, engineLocale, current, PartsIn(Some(p)));
      Parse.HandleAsWritten(Parse.DefaultOptions.(calendar := "gregorian", strict := strict), lib, current, s)
        == Parse.Apply("gregorian", p.y, p.m, p.d)
  {
    var opt := DefaultOptions.(calendar := "gregorian");
    var popt := Parse.DefaultOptions.(calendar := "gregorian", strict := strict);
    Parse.DefaultLayoutShape();
    FormatThenParse(opt, engineDigits, engineLocale, current, PartsIn(Some(p)), popt, lib, Parse.DefaultLayout);
    GregorianChecked(lib, current, Trim(FormatValue(opt, engineDigits, engineLocale, current, PartsIn(Some(p)))), p);
    Parse.DefaultAsWritten(popt, lib, current, FormatValue(opt, engineDigits, engineLocale, current, PartsIn(Some(p))));
  }

  /** A valid Gregorian date of a year outside 0..99, checked as Gregorian, is applied. */
  lemma GregorianChecked(lib: Option<Jalali.Lib>, current: string, raw: string, p: Parts)
    requires IsValidDate(p) && !(0 <= p.y <= 99)
    ensures Parse.Check(lib, Parse.ResolveCalendar("gregorian", current), raw, p.y, p.m, p.d)
      == Parse.Apply("gregorian", p.y, p.m, p.d)
  {
    assert Parse.IsValidGregorian(p.y, p.m, p.d);
  }
}
