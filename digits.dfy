/**
 * Digit scripts: ASCII digits and Extended Arabic-Indic ("Persian") digits
 * U+06F0..U+06F9, converted one character at a time through fixed tables.
 */
module Digits {
  import opened Wrappers
  import opened JsText

  /** `faMap`: ASCII digit to Persian digit. */
  const FaMap: map<char, char> := map[
    '0' := '۰', '1' := '۱', '2' := '۲', '3' := '۳', '4' := '۴',
    '5' := '۵', '6' := '۶', '7' := '۷', '8' := '۸', '9' := '۹']

  /** `enMap`: Persian digit to ASCII digit. */
  const EnMap: map<char, char> := map[
    '۰' := '0', '۱' := '1', '۲' := '2', '۳' := '3', '۴' := '4',
    '۵' := '5', '۶' := '6', '۷' := '7', '۸' := '8', '۹' := '9']

  predicate IsPersianDigit(c: char) { '۰' <= c <= '۹' }

  /** The replacement callback of `toPersianDigits` for one character. */
  function PersianChar(c: char): (p: char)
    ensures IsDigit(c) ==> IsPersianDigit(p) && p as int - '۰' as int == c as int - '0' as int
    ensures !IsDigit(c) ==> p == c
  {
    if c in FaMap then FaMap[c] else c
  }

  /** The replacement callback of `toLatinDigits` for one character. */
  function LatinChar(c: char): (p: char)
    ensures IsPersianDigit(c) ==> IsDigit(p) && p as int - '0' as int == c as int - '۰' as int
    ensures !IsPersianDigit(c) ==> p == c
  {
    if c in EnMap then EnMap[c] else c
  }

  /** `toPersianDigits`: `String(input).replace(/[0-9]/g, d => faMap[d])`. */
  function ToPersianDigits(s: string): (r: string)
    ensures |r| == |s|
    ensures forall i :: 0 <= i < |s| ==> r[i] == PersianChar(s[i])
    decreases |s|
  {
    if s == [] then [] else [PersianChar(s[0])] + ToPersianDigits(s[1..])
  }

  /** `toLatinDigits`: `String(input).replace(/[۰-۹]/g, d => enMap[d])`. */
  function ToLatinDigits(s: string): (r: string)
    ensures |r| == |s|
    ensures forall i :: 0 <= i < |s| ==> r[i] == LatinChar(s[i])
    decreases |s|
  {
    if s == [] then [] else [LatinChar(s[0])] + ToLatinDigits(s[1..])
  }

  /** `toPersianDigits` leaves no ASCII digit behind and is idempotent. */
  lemma PersianDigitsNormalForm(s: string)
    ensures forall i :: 0 <= i < |s| ==> !IsDigit(ToPersianDigits(s)[i])
    ensures ToPersianDigits(ToPersianDigits(s)) == ToPersianDigits(s)
  {
  }

  /** Converting to Persian and back restores a string that had no Persian digits. */
  lemma LatinAfterPersian(s: string)
    requires forall i :: 0 <= i < |s| ==> !IsPersianDigit(s[i])
    ensures ToLatinDigits(ToPersianDigits(s)) == s
  {
    var r := ToLatinDigits(ToPersianDigits(s));
    forall i | 0 <= i < |s| ensures r[i] == s[i] {
      var c := s[i];
      assert r[i] == LatinChar(PersianChar(c));
      if IsDigit(c) {
        assert PersianChar(c) as int - '۰' as int == c as int - '0' as int;
      }
    }
  }

  /** Converting to Latin and back restores a string that had no ASCII digits. */
  lemma PersianAfterLatin(s: string)
    requires forall i :: 0 <= i < |s| ==> !IsDigit(s[i])
    ensures ToPersianDigits(ToLatinDigits(s)) == s
  {
    var r := ToPersianDigits(ToLatinDigits(s));
    forall i | 0 <= i < |s| ensures r[i] == s[i] {
      var c := s[i];
      assert r[i] == PersianChar(LatinChar(c));
      if IsPersianDigit(c) {
        assert LatinChar(c) as int - '0' as int == c as int - '۰' as int;
      }
    }
  }

  /** A Persian spelling and its Latin spelling read the same once made Latin. */
  lemma LatinOfBothSpellings(s: string)
    ensures ToLatinDigits(ToPersianDigits(s)) == ToLatinDigits(s)
  {
  }

  /** The mode `formatDigits` settles on: "auto" becomes "persian" for locale "fa", else "latin". */
  function ResolveDigitsMode(locale: Option<string>, digits: Option<string>): (mode: string)
    ensures digits.GetOr("auto") != "auto" ==> mode == digits.value
    ensures digits.GetOr("auto") == "auto" ==> (mode == "persian" <==> locale.GetOr("fa") == "fa")
    ensures digits.GetOr("auto") == "auto" ==> (mode == "persian" || mode == "latin")
  {
    var d := digits.GetOr("auto");
    if d == "auto" then (if locale.GetOr("fa") == "fa" then "persian" else "latin") else d
  }

  /** `formatDigits(input, { locale, digits })`; `None` stands for an omitted option. */
  function FormatDigits(input: string, locale: Option<string>, digits: Option<string>): (r: string)
    ensures ResolveDigitsMode(locale, digits) == "persian" ==> r == ToPersianDigits(input)
    ensures ResolveDigitsMode(locale, digits) != "persian" ==> r == input
  {
    if ResolveDigitsMode(locale, digits) == "persian" then ToPersianDigits(input) else input
  }

  /** Switching to Persian digits turns no character into whitespace or out of it. */
  lemma SpaceKept(c: char)
    ensures IsJsSpace(PersianChar(c)) == IsJsSpace(c)
  {
    if IsDigit(c) {
      assert IsPersianDigit(PersianChar(c));
    }
  }

  /** `trim` removes the same characters before and after the switch to Persian digits. */
  lemma {:induction false} TrimStartPersian(s: string)
    ensures TrimStart(ToPersianDigits(s)) == ToPersianDigits(TrimStart(s))
    decreases |s|
  {
    if s != [] {
      var p := ToPersianDigits(s);
      assert p[0] == PersianChar(s[0]) && p[1..] == ToPersianDigits(s[1..]);
      SpaceKept(s[0]);
      if IsJsSpace(s[0]) {
        assert TrimStart(p) == TrimStart(p[1..]);
        assert TrimStart(s) == TrimStart(s[1..]);
        TrimStartPersian(s[1..]);
      } else {
        assert TrimStart(p) == p;
        assert TrimStart(s) == s;
      }
    }
  }

  lemma {:induction false} TrimEndPersian(s: string)
    ensures TrimEnd(ToPersianDigits(s)) == ToPersianDigits(TrimEnd(s))
    decreases |s|
  {
    if s != [] {
      var p := ToPersianDigits(s);
      var k := |s| - 1;
      PersianPrefix(s, k);
      SpaceKept(s[k]);
      if IsJsSpace(s[k]) {
        assert TrimEnd(p) == TrimEnd(p[..k]);
        assert TrimEnd(s) == TrimEnd(s[..k]);
        TrimEndPersian(s[..k]);
      } else {
        assert TrimEnd(p) == p;
        assert TrimEnd(s) == s;
      }
    }
  }

  /** Spelling in Persian commutes with taking a prefix. */
  lemma {:induction false} PersianPrefix(s: string, k: nat)
    requires k <= |s|
    ensures ToPersianDigits(s)[..k] == ToPersianDigits(s[..k])
    decreases k
  {
    if k > 0 {
      var t := s[..k];
      assert t[1..] == s[1..][..k - 1];
      PersianPrefix(s[1..], k - 1);
    }
  }

  lemma TrimPersian(s: string)
    ensures Trim(ToPersianDigits(s)) == ToPersianDigits(Trim(s))
  {
    TrimStartPersian(s);
    TrimEndPersian(TrimStart(s));
  }
}
