/**
 * `escapeRegExp` and `buildRegexFromPattern` of the parse plugin, and what the
 * built expression matches. The expression is kept as the list of steps it is
 * made of (a literal character, or a capture of a run of ASCII digits) rather
 * than as regular-expression source text; `ReadLiterals` ties the escaped
 * pattern text to its literal steps.
 */
module Pattern {
  import opened Wrappers
  import opened JsText

  /** The characters `escapeRegExp` puts a backslash in front of. */
  predicate IsRegExpSpecial(c: char)
  {
    c == '.' || c == '*' || c == '+' || c == '?' || c == '^' || c == '$' || c == '{' || c == '}'
    || c == '(' || c == ')' || c == '|' || c == '[' || c == ']' || c == '\\'
  }

  /** `escapeRegExp(s)`: a backslash before each special character, every other character as is. */
  function EscapeRegExp(s: string): (r: string)
    ensures |s| <= |r| <= 2 * |s|
    decreases |s|
  {
    if s == [] then []
    else (if IsRegExpSpecial(s[0]) then ['\\', s[0]] else [s[0]]) + EscapeRegExp(s[1..])
  }

  datatype Field = Year | Month | Day

  /** A step of the expression: one literal character, or a capture `(\d{lo,hi})` standing for `field`. */
  datatype Item = Lit(c: char) | Group(lo: nat, hi: nat, field: Field)

  /** Every character of `s` as a literal step. */
  function Lits(s: string): (r: seq<Item>)
    ensures |r| == |s| && forall i :: 0 <= i < |s| ==> r[i] == Lit(s[i])
  {
    seq(|s|, i requires 0 <= i < |s| => Lit(s[i]))
  }

  /**
   * How regular-expression source made only of literal text reads: an
   * escaped special character stands for itself, a plain character for
   * itself, and anything else (an unescaped special, a class escape such as
   * `\d`) is not literal text.
   */
  function ReadLiterals(re: string): Option<seq<Item>>
    decreases |re|
  {
    if re == [] then Some([])
    else if re[0] == '\\' then
      if |re| < 2 || !IsRegExpSpecial(re[1]) then None
      else match ReadLiterals(re[2..])
        case Some(rest) => Some([Lit(re[1])] + rest)
        case None => None
    else if IsRegExpSpecial(re[0]) then None
    else match ReadLiterals(re[1..])
      case Some(rest) => Some([Lit(re[0])] + rest)
      case None => None
  }

  /** The escaped pattern reads back as the pattern's own characters, each literally. */
  lemma {:induction false} EscapedIsLiteral(s: string)
    ensures ReadLiterals(EscapeRegExp(s)) == Some(Lits(s))
    decreases |s|
  {
    if s != [] {
      EscapedIsLiteral(s[1..]);
      var e := EscapeRegExp(s);
      if IsRegExpSpecial(s[0]) {
        assert e[2..] == EscapeRegExp(s[1..]);
      } else {
        assert e[1..] == EscapeRegExp(s[1..]);
      }
      assert Lits(s) == [Lit(s[0])] + Lits(s[1..]);
    }
  }

  /** `String.prototype.replace(pat, rep)` with a string pattern: the first occurrence only. */
  function ReplaceFirst(items: seq<Item>, pat: seq<Item>, rep: seq<Item>): (r: seq<Item>)
    requires pat != []
    ensures (forall i :: 0 <= i < |items| ==> items[i] != pat[0]) ==> r == items
    decreases |items|
  {
    if |items| < |pat| then items
    else if items[..|pat|] == pat then assert items[0] == items[..|pat|][0]; rep + items[|pat|..]
    else [items[0]] + ReplaceFirst(items[1..], pat, rep)
  }

  /** The placeholder text of each field in a pattern. */
  function Token(f: Field): (t: string)
    ensures 2 <= |t|
  {
    match f
    case Year => "YYYY"
    case Month => "MM"
    case Day => "DD"
  }

  /** The capture a placeholder becomes: `(\d{4})`, `(\d{1,2})`, or `(\d{2})` when strict. */
  function GroupFor(f: Field, strict: bool): (g: Item)
    ensures g.Group? && g.field == f && 1 <= g.lo <= g.hi
    ensures f == Year ==> g.lo == 4 && g.hi == 4
    ensures f != Year ==> g.hi == 2 && (g.lo == 2 <==> strict)
  {
    if f == Year then Group(4, 4, Year) else if strict then Group(2, 2, f) else Group(1, 2, f)
  }

  /** `buildRegexFromPattern(pattern, strict)`: the first `YYYY`, then the first `MM`, then the first `DD`. */
  function BuildMatcher(pattern: string, strict: bool): (items: seq<Item>)
    ensures (forall i :: 0 <= i < |pattern| ==> pattern[i] != 'Y' && pattern[i] != 'M' && pattern[i] != 'D') ==>
      items == Lits(pattern)
  {
    var withYear := ReplaceFirst(Lits(pattern), Lits(Token(Year)), [GroupFor(Year, strict)]);
    var withMonth := ReplaceFirst(withYear, Lits(Token(Month)), [GroupFor(Month, strict)]);
    ReplaceFirst(withMonth, Lits(Token(Day)), [GroupFor(Day, strict)])
  }

  /** The captures of `items`, in the order they appear. */
  function Groups(items: seq<Item>): (g: seq<Item>)
    ensures |g| <= |items|
    ensures forall i :: 0 <= i < |g| ==> g[i].Group? && g[i] in items
  {
    if items == [] then []
    else (if items[0].Group? then [items[0]] else []) + Groups(items[1..])
  }

  /** Each capture is a run of ASCII digits whose length its group allows. */
  predicate Fits(items: seq<Item>, caps: seq<string>)
  {
    var g := Groups(items);
    |caps| == |g| && forall i :: 0 <= i < |g| ==> AllDigits(caps[i]) && g[i].lo <= |caps[i]| <= g[i].hi
  }

  /** The text the expression spells with `caps` filling its captures. */
  function Render(items: seq<Item>, caps: seq<string>): string
    requires |caps| == |Groups(items)|
    decreases |items|
  {
    if items == [] then []
    else match items[0]
      case Lit(c) => [c] + Render(items[1..], caps)
      case Group(_, _, _) => caps[0] + Render(items[1..], caps[1..])
  }

  /**
   * `s.match(new RegExp("^" + re + "$"))`: the captures, in order, of the
   * match JavaScript's backtracking finds (a capture takes as many digits as
   * it may and gives them back one at a time), or no match.
   */
  function Match(items: seq<Item>, s: string): (r: Option<seq<string>>)
    ensures r.Some? ==> Fits(items, r.value) && Render(items, r.value) == s
    decreases |items|, 1
  {
    if items == [] then (if s == [] then Some([]) else None)
    else match items[0]
      case Lit(c) =>
        if s != [] && s[0] == c then
          match Match(items[1..], s[1..])
          case Some(caps) =>
            assert Groups(items) == Groups(items[1..]);
            assert [c] + s[1..] == s;
            Some(caps)
          case None => None
        else None
      case Group(lo, hi, _) => TryGroup(items, s, hi)
  }

  /** The capture of the group at the head of `items` tries `k` digits, then fewer, down to its `lo`. */
  function TryGroup(items: seq<Item>, s: string, k: nat): (r: Option<seq<string>>)
    requires items != [] && items[0].Group? && k <= items[0].hi
    ensures r.Some? ==> Fits(items, r.value) && Render(items, r.value) == s
    decreases |items| - 1, k + 2
  {
    if k < items[0].lo then None
    else if k <= |s| && AllDigits(s[..k]) then
      match Match(items[1..], s[k..])
      case Some(caps) =>
        GroupHit(items, s, k, caps);
        Some([s[..k]] + caps)
      case None => if k == 0 then None else TryGroup(items, s, k - 1)
    else if k == 0 then None
    else TryGroup(items, s, k - 1)
  }

  /** The head group takes the first `k` digits and the rest matches what follows them. */
  lemma GroupHit(items: seq<Item>, s: string, k: nat, caps: seq<string>)
    requires items != [] && items[0].Group? && items[0].lo <= k <= items[0].hi
    requires k <= |s| && AllDigits(s[..k])
    requires Fits(items[1..], caps) && Render(items[1..], caps) == s[k..]
    ensures Fits(items, [s[..k]] + caps) && Render(items, [s[..k]] + caps) == s
  {
    GroupStep(items, s[..k], caps);
    assert s[..k] + s[k..] == s;
  }

  /** A capture that fits the head group, followed by captures that fit the rest. */
  lemma GroupStep(items: seq<Item>, cap: string, caps: seq<string>)
    requires items != [] && items[0].Group?
    requires AllDigits(cap) && items[0].lo <= |cap| <= items[0].hi
    requires Fits(items[1..], caps)
    ensures Fits(items, [cap] + caps)
    ensures Render(items, [cap] + caps) == cap + Render(items[1..], caps)
  {
    assert Groups(items) == [items[0]] + Groups(items[1..]);
    assert ([cap] + caps)[1..] == caps;
  }

  /**
   * The matcher is complete: text spelled by captures that fit their groups
   * is matched (with those captures, or with others the backtracking finds
   * first).
   */
  lemma {:induction false} MatchComplete(items: seq<Item>, caps: seq<string>)
    requires Fits(items, caps)
    ensures Match(items, Render(items, caps)).Some?
    decreases |items|
  {
    if items != [] {
      var s := Render(items, caps);
      match items[0]
      case Lit(c) =>
        assert Groups(items) == Groups(items[1..]);
        MatchComplete(items[1..], caps);
        assert s == [c] + Render(items[1..], caps);
        assert s[1..] == Render(items[1..], caps);
      case Group(lo, hi, f) =>
        FitsHead(items, caps);
        MatchComplete(items[1..], caps[1..]);
        var w := |caps[0]|;
        assert s == caps[0] + Render(items[1..], caps[1..]);
        assert s[..w] == caps[0] && s[w..] == Render(items[1..], caps[1..]);
        TryGroupReaches(items, s, hi, w);
    }
  }

  /** Captures that fit a group head: the first fits the head, the rest fit the tail. */
  lemma FitsHead(items: seq<Item>, caps: seq<string>)
    requires Fits(items, caps) && items != [] && items[0].Group?
    ensures |caps| > 0 && AllDigits(caps[0]) && items[0].lo <= |caps[0]| <= items[0].hi
    ensures Fits(items[1..], caps[1..])
    ensures Render(items, caps) == caps[0] + Render(items[1..], caps[1..])
  {
    assert Groups(items) == [items[0]] + Groups(items[1..]);
    var rest := caps[1..];
    forall i | 0 <= i < |rest|
      ensures AllDigits(rest[i]) && Groups(items[1..])[i].lo <= |rest[i]| <= Groups(items[1..])[i].hi
    {
      assert rest[i] == caps[i + 1];
      assert Groups(items[1..])[i] == Groups(items)[i + 1];
    }
  }

  /**
   * Trying widths from `k` down, the head group reaches width `j` unless a
   * wider one succeeds first; at `j` the rest matches, so the try succeeds.
   */
  lemma {:induction false} TryGroupReaches(items: seq<Item>, s: string, k: nat, j: nat)
    requires items != [] && items[0].Group? && items[0].lo <= j <= k <= items[0].hi
    requires j <= |s| && AllDigits(s[..j]) && Match(items[1..], s[j..]).Some?
    ensures TryGroup(items, s, k).Some?
    decreases k - j
  {
    if k > j && !(k <= |s| && AllDigits(s[..k]) && Match(items[1..], s[k..]).Some?) {
      TryGroupReaches(items, s, k - 1, j);
    }
  }

  /** Three captures, one literal separator character between each two. */
  function Three(g1: Item, g2: Item, g3: Item, sep: char): seq<Item>
  {
    [g1, Lit(sep), g2, Lit(sep), g3]
  }

  lemma ThreeGroups(g1: Item, g2: Item, g3: Item, sep: char)
    requires g1.Group? && g2.Group? && g3.Group?
    ensures Groups(Three(g1, g2, g3, sep)) == [g1, g2, g3]
  {
    var l := Lit(sep);
    assert [g3][1..] == [];
    assert Groups([g3]) == [g3];
    assert [l, g3][1..] == [g3];
    assert Groups([l, g3]) == [g3];
    assert [g2, l, g3][1..] == [l, g3];
    assert Groups([g2, l, g3]) == [g2, g3];
    assert [l, g2, l, g3][1..] == [g2, l, g3];
    assert Groups([l, g2, l, g3]) == [g2, g3];
    assert Three(g1, g2, g3, sep)[1..] == [l, g2, l, g3];
  }

  /** What three captures spell: each capture, the separator between. */
  lemma ThreeRender(g1: Item, g2: Item, g3: Item, sep: char, caps: seq<string>)
    requires g1.Group? && g2.Group? && g3.Group? && |caps| == 3
    ensures Groups(Three(g1, g2, g3, sep)) == [g1, g2, g3]
    ensures Render(Three(g1, g2, g3, sep), caps) == caps[0] + [sep] + caps[1] + [sep] + caps[2]
  {
    ThreeGroups(g1, g2, g3, sep);
    var l := Lit(sep);
    var c3 := caps[2..];
    var c2 := caps[1..];
    assert c3 == [caps[2]] && c3[1..] == [];
    assert [g3][1..] == [];
    assert Render([g3], c3) == caps[2];
    assert [l, g3][1..] == [g3];
    assert Render([l, g3], c3) == [sep] + caps[2];
    assert [g2, l, g3][1..] == [l, g3] && c2[1..] == c3;
    assert Render([g2, l, g3], c2) == caps[1] + [sep] + caps[2];
    assert [l, g2, l, g3][1..] == [g2, l, g3];
    assert Render([l, g2, l, g3], c2) == [sep] + caps[1] + [sep] + caps[2];
    assert Three(g1, g2, g3, sep)[1..] == [l, g2, l, g3];
  }

  /** Runs of digits followed by a non-digit separator split a text at the same place. */
  lemma SplitAtSeparator(a: string, b: string, c: string, d: string, sep: char)
    requires !IsDigit(sep) && AllDigits(a) && AllDigits(c) && a + [sep] + b == c + [sep] + d
    ensures a == c && b == d
  {
    var s := a + [sep] + b;
    assert forall i :: 0 <= i < |a| ==> s[i] == a[i] != sep;
    assert forall i :: 0 <= i < |c| ==> s[i] == c[i] != sep;
    assert s[|a|] == sep && s[|c|] == sep;
    assert a == s[..|a|] && c == s[..|c|];
    assert b == s[|a| + 1..] && d == s[|c| + 1..];
  }

  /**
   * With a fixed-width first capture and a non-digit separator, three
   * captures that fit their groups are matched back exactly, whatever their
   * widths: no other captures spell the same text.
   */
  lemma ThreeMatched(g1: Item, g2: Item, g3: Item, sep: char, caps: seq<string>)
    requires g1.Group? && g2.Group? && g3.Group? && g1.lo == g1.hi && !IsDigit(sep)
    requires Fits(Three(g1, g2, g3, sep), caps)
    ensures Match(Three(g1, g2, g3, sep), Render(Three(g1, g2, g3, sep), caps)) == Some(caps)
  {
    var items := Three(g1, g2, g3, sep);
    MatchComplete(items, caps);
    var r := Match(items, Render(items, caps)).value;
    ThreeUnique(g1, g2, g3, sep, r, caps);
  }

  /** Under the same conditions, captures that fit are determined by the text they spell. */
  lemma ThreeUnique(g1: Item, g2: Item, g3: Item, sep: char, r: seq<string>, caps: seq<string>)
    requires g1.Group? && g2.Group? && g3.Group? && g1.lo == g1.hi && !IsDigit(sep)
    requires Fits(Three(g1, g2, g3, sep), r) && Fits(Three(g1, g2, g3, sep), caps)
    requires Render(Three(g1, g2, g3, sep), r) == Render(Three(g1, g2, g3, sep), caps)
    ensures r == caps
  {
    ThreeGroups(g1, g2, g3, sep);
    ThreeRender(g1, g2, g3, sep, caps);
    ThreeRender(g1, g2, g3, sep, r);
    assert |r[0]| == g1.lo == |caps[0]|;
    assert AllDigits(r[1]) && AllDigits(caps[1]);
    ThreeSplit(r[0], r[1], r[2], caps[0], caps[1], caps[2], sep);
    assert r == [r[0], r[1], r[2]] && caps == [caps[0], caps[1], caps[2]];
  }

  /** Text written as a fixed-width head, a run of digits and a tail, separated alike, splits alike. */
  lemma ThreeSplit(a0: string, a1: string, a2: string, b0: string, b1: string, b2: string, sep: char)
    requires |a0| == |b0| && AllDigits(a1) && AllDigits(b1) && !IsDigit(sep)
    requires a0 + [sep] + a1 + [sep] + a2 == b0 + [sep] + b1 + [sep] + b2
    ensures a0 == b0 && a1 == b1 && a2 == b2
  {
    var s := a0 + [sep] + a1 + [sep] + a2;
    var k := |a0| + 1;
    assert a0 == s[..|a0|] && b0 == s[..|b0|];
    var t := s[k..];
    assert t == a1 + [sep] + a2 by {
      assert |t| == |a1 + [sep] + a2|;
      forall i | 0 <= i < |t| ensures t[i] == (a1 + [sep] + a2)[i] {
        assert t[i] == s[k + i];
      }
    }
    assert t == b1 + [sep] + b2 by {
      assert |t| == |b1 + [sep] + b2|;
      forall i | 0 <= i < |t| ensures t[i] == (b1 + [sep] + b2)[i] {
        assert t[i] == s[k + i];
      }
    }
    SplitAtSeparator(a1, a2, b1, b2, sep);
  }

  /** Captures as wide as their groups allow, the first thing the backtracking tries. */
  predicate FitsWidest(items: seq<Item>, caps: seq<string>)
  {
    Fits(items, caps) && forall i :: 0 <= i < |caps| ==> |caps[i]| == Groups(items)[i].hi
  }

  /** Text spelled with widest captures is matched, and gives those captures back. */
  lemma {:induction false} MatchRendered(items: seq<Item>, caps: seq<string>)
    requires FitsWidest(items, caps)
    ensures Match(items, Render(items, caps)) == Some(caps)
    decreases |items|
  {
    if items != [] {
      match items[0]
      case Lit(c) =>
        WidestLit(items, caps);
        MatchRendered(items[1..], caps);
        LitMatched(items, Render(items[1..], caps), caps);
      case Group(lo, hi, f) =>
        WidestGroup(items, caps);
        MatchRendered(items[1..], caps[1..]);
        GroupMatched(items, caps[0], caps[1..]);
        assert [caps[0]] + caps[1..] == caps;
    }
  }

  /** Past a literal head, the same captures are still widest for the rest. */
  lemma WidestLit(items: seq<Item>, caps: seq<string>)
    requires FitsWidest(items, caps) && items != [] && items[0].Lit?
    ensures FitsWidest(items[1..], caps)
    ensures Render(items, caps) == [items[0].c] + Render(items[1..], caps)
  {
    assert Groups(items) == Groups(items[1..]);
  }

  /** Past a group head, the remaining captures are widest for the rest. */
  lemma WidestGroup(items: seq<Item>, caps: seq<string>)
    requires FitsWidest(items, caps) && items != [] && items[0].Group?
    ensures |caps| > 0 && AllDigits(caps[0]) && items[0].lo <= |caps[0]| == items[0].hi
    ensures FitsWidest(items[1..], caps[1..])
    ensures Render(items, caps) == caps[0] + Render(items[1..], caps[1..])
  {
    assert Groups(items) == [items[0]] + Groups(items[1..]);
    var rest := caps[1..];
    forall i | 0 <= i < |rest|
      ensures AllDigits(rest[i]) && |rest[i]| == Groups(items[1..])[i].hi
      ensures Groups(items[1..])[i].lo <= |rest[i]|
    {
      assert rest[i] == caps[i + 1];
      assert Groups(items[1..])[i] == Groups(items)[i + 1];
    }
  }

  /** A literal head that matches passes the rest of the text on. */
  lemma LitMatched(items: seq<Item>, t: string, caps: seq<string>)
    requires items != [] && items[0].Lit? && Match(items[1..], t) == Some(caps)
    ensures Match(items, [items[0].c] + t) == Some(caps)
  {
    var s := [items[0].c] + t;
    assert s[1..] == t;
  }

  /** A group head first tries its widest capture; when the rest then matches, that is the answer. */
  lemma GroupMatched(items: seq<Item>, cap: string, caps: seq<string>)
    requires items != [] && items[0].Group?
    requires AllDigits(cap) && items[0].lo <= |cap| == items[0].hi
    requires Fits(items[1..], caps) && Match(items[1..], Render(items[1..], caps)) == Some(caps)
    ensures Match(items, cap + Render(items[1..], caps)) == Some([cap] + caps)
  {
    var s := cap + Render(items[1..], caps);
    assert s[..|cap|] == cap && s[|cap|..] == Render(items[1..], caps);
  }

  /** A display pattern read as placeholders and the literal text between them. */
  datatype Piece = Text(s: string) | Tok(f: Field)

  /** Text holding none of the placeholder letters `Y`, `M`, `D`. */
  predicate NoTokenLetter(s: string)
  {
    forall i :: 0 <= i < |s| ==> s[i] != 'Y' && s[i] != 'M' && s[i] != 'D'
  }

  /** The pattern string the pieces spell. */
  function Source(pieces: seq<Piece>): string
    decreases |pieces|
  {
    if pieces == [] then []
    else (match pieces[0] case Text(t) => t case Tok(f) => Token(f)) + Source(pieces[1..])
  }

  /** How many times the placeholder of `f` appears. */
  function Count(pieces: seq<Piece>, f: Field): nat
    decreases |pieces|
  {
    if pieces == [] then 0
    else (if pieces[0] == Tok(f) then 1 else 0) + Count(pieces[1..], f)
  }

  /** Literal text free of placeholder letters, and each placeholder exactly once. */
  predicate Layout(pieces: seq<Piece>)
  {
    (forall i :: 0 <= i < |pieces| && pieces[i].Text? ==> NoTokenLetter(pieces[i].s))
    && Count(pieces, Year) == 1 && Count(pieces, Month) == 1 && Count(pieces, Day) == 1
  }

  /** The steps of the expression once the placeholders of the fields in `done` are captures. */
  function StepsOf(pieces: seq<Piece>, strict: bool, done: set<Field>): seq<Item>
    decreases |pieces|
  {
    if pieces == [] then []
    else
      (match pieces[0]
       case Text(t) => Lits(t)
       case Tok(f) => if f in done then [GroupFor(f, strict)] else Lits(Token(f)))
      + StepsOf(pieces[1..], strict, done)
  }

  /** Replacing at a point where no occurrence can start leaves the prefix as it is. */
  lemma {:induction false} ReplaceFirstSkips(a: seq<Item>, rest: seq<Item>, pat: seq<Item>, rep: seq<Item>)
    requires pat != []
    requires forall i :: 0 <= i < |a| ==> a[i] != pat[0]
    ensures ReplaceFirst(a + rest, pat, rep) == a + ReplaceFirst(rest, pat, rep)
    decreases |a|
  {
    if a == [] {
      assert a + rest == rest;
    } else {
      var s := a + rest;
      if |s| >= |pat| {
        assert s[..|pat|][0] == a[0] != pat[0];
        assert s[1..] == a[1..] + rest;
        ReplaceFirstSkips(a[1..], rest, pat, rep);
        assert [a[0]] + (a[1..] + ReplaceFirst(rest, pat, rep)) == a + ReplaceFirst(rest, pat, rep);
      }
    }
  }

  /** An occurrence at the front is replaced, and the rest is left as it is. */
  lemma ReplaceFirstFront(rest: seq<Item>, pat: seq<Item>, rep: seq<Item>)
    requires pat != []
    ensures ReplaceFirst(pat + rest, pat, rep) == rep + rest
  {
    var s := pat + rest;
    assert s[..|pat|] == pat;
    assert s[|pat|..] == rest;
  }

  /** The pattern's characters are the steps with no placeholder turned into a capture yet. */
  lemma {:induction false} LitsOfSource(pieces: seq<Piece>, strict: bool)
    ensures Lits(Source(pieces)) == StepsOf(pieces, strict, {})
    decreases |pieces|
  {
    if pieces != [] {
      LitsOfSource(pieces[1..], strict);
      var head := match pieces[0] case Text(t) => t case Tok(f) => Token(f);
      assert Source(pieces) == head + Source(pieces[1..]);
      assert Lits(head + Source(pieces[1..])) == Lits(head) + Lits(Source(pieces[1..]));
    }
  }

  /** The placeholder letter of each field, and what it is not. */
  lemma TokenLetters(f: Field, g: Field)
    ensures forall i :: 0 <= i < |Token(f)| ==> Token(f)[i] == Token(f)[0]
    ensures f != g ==> Token(f)[0] != Token(g)[0]
    ensures Token(f)[0] == 'Y' || Token(f)[0] == 'M' || Token(f)[0] == 'D'
  {
  }

  /** One `replace` step of `buildRegexFromPattern` turns the single placeholder of `f` into its capture. */
  lemma {:induction false} ReplaceFirstStep(pieces: seq<Piece>, strict: bool, done: set<Field>, f: Field)
    requires forall i :: 0 <= i < |pieces| && pieces[i].Text? ==> NoTokenLetter(pieces[i].s)
    requires f !in done && Count(pieces, f) <= 1
    ensures ReplaceFirst(StepsOf(pieces, strict, done), Lits(Token(f)), [GroupFor(f, strict)])
      == StepsOf(pieces, strict, done + {f})
    decreases |pieces|
  {
    var pat := Lits(Token(f));
    var rep := [GroupFor(f, strict)];
    if pieces == [] {
    } else {
      var rest := StepsOf(pieces[1..], strict, done);
      match pieces[0]
      case Text(t) =>
        ReplaceFirstSkips(Lits(t), rest, pat, rep);
        ReplaceFirstStep(pieces[1..], strict, done, f);
      case Tok(g) =>
        if g == f {
          ReplaceFirstFront(rest, pat, rep);
          NoPlaceholder(pieces[1..], strict, done, f);
        } else {
          TokenLetters(f, g);
          var head := if g in done then [GroupFor(g, strict)] else Lits(Token(g));
          assert forall i :: 0 <= i < |head| ==> head[i] != pat[0];
          ReplaceFirstSkips(head, rest, pat, rep);
          ReplaceFirstStep(pieces[1..], strict, done, f);
        }
    }
  }

  /** Marking a field done changes nothing where its placeholder does not appear. */
  lemma {:induction false} NoPlaceholder(pieces: seq<Piece>, strict: bool, done: set<Field>, f: Field)
    requires Count(pieces, f) == 0
    ensures StepsOf(pieces, strict, done + {f}) == StepsOf(pieces, strict, done)
    decreases |pieces|
  {
    if pieces != [] {
      NoPlaceholder(pieces[1..], strict, done, f);
    }
  }

  /** For a pattern laid out as pieces, the built expression captures each placeholder in place. */
  lemma BuildMatcherOfLayout(pieces: seq<Piece>, strict: bool)
    requires Layout(pieces)
    ensures BuildMatcher(Source(pieces), strict) == StepsOf(pieces, strict, {Year, Month, Day})
  {
    LitsOfSource(pieces, strict);
    ReplaceFirstStep(pieces, strict, {}, Year);
    ReplaceFirstStep(pieces, strict, {Year}, Month);
    ReplaceFirstStep(pieces, strict, {Year, Month}, Day);
    assert {} + {Year} == {Year};
    assert {Year} + {Month} == {Year, Month};
    assert {Year, Month} + {Day} == {Year, Month, Day};
  }

  /** The digits written in place of each placeholder. */
  datatype Values = Values(y: string, m: string, d: string)

  function ValueOf(v: Values, f: Field): string
  {
    match f
    case Year => v.y
    case Month => v.m
    case Day => v.d
  }

  /** The placeholders' fields in the order they appear. */
  function FieldsOf(pieces: seq<Piece>): (fs: seq<Field>)
    ensures forall f :: Count(pieces, f) > 0 ==> f in fs
    decreases |pieces|
  {
    if pieces == [] then []
    else (match pieces[0] case Text(_) => [] case Tok(f) => [f]) + FieldsOf(pieces[1..])
  }

  /** The pattern with each placeholder written as its value. */
  function Filled(pieces: seq<Piece>, v: Values): string
    decreases |pieces|
  {
    if pieces == [] then []
    else (match pieces[0] case Text(t) => t case Tok(f) => ValueOf(v, f)) + Filled(pieces[1..], v)
  }

  /** The captures for `fields`, in order. */
  function CapsOf(fields: seq<Field>, v: Values): (caps: seq<string>)
    ensures |caps| == |fields| && forall i :: 0 <= i < |fields| ==> caps[i] == ValueOf(v, fields[i])
    decreases |fields|
  {
    if fields == [] then [] else [ValueOf(v, fields[0])] + CapsOf(fields[1..], v)
  }

  /** The groups for `fields`, in order. */
  function GroupsFor(fields: seq<Field>, strict: bool): (g: seq<Item>)
    ensures |g| == |fields| && forall i :: 0 <= i < |fields| ==> g[i] == GroupFor(fields[i], strict)
    decreases |fields|
  {
    if fields == [] then [] else [GroupFor(fields[0], strict)] + GroupsFor(fields[1..], strict)
  }

  /** Literal steps hold no capture and spell their own characters. */
  lemma {:induction false} LitsPrefix(t: string, rest: seq<Item>, caps: seq<string>)
    requires |caps| == |Groups(rest)|
    ensures Groups(Lits(t) + rest) == Groups(rest)
    ensures Render(Lits(t) + rest, caps) == t + Render(rest, caps)
    decreases |t|
  {
    var items := Lits(t) + rest;
    if t == [] {
      assert items == rest;
    } else {
      assert items[0] == Lit(t[0]);
      assert items[1..] == Lits(t[1..]) + rest;
      LitsPrefix(t[1..], rest, caps);
      assert Groups(items) == Groups(items[1..]);
      var tail := Render(rest, caps);
      assert Render(items[1..], caps) == t[1..] + tail;
      assert Render(items, caps) == [t[0]] + (t[1..] + tail);
      assert [t[0]] + (t[1..] + tail) == ([t[0]] + t[1..]) + tail;
      assert [t[0]] + t[1..] == t;
    }
  }

  /** With every placeholder a capture, the steps capture the fields in order and spell the filled pattern. */
  lemma {:induction false} RenderLayout(pieces: seq<Piece>, strict: bool, v: Values)
    ensures Groups(StepsOf(pieces, strict, {Year, Month, Day})) == GroupsFor(FieldsOf(pieces), strict)
    ensures Render(StepsOf(pieces, strict, {Year, Month, Day}), CapsOf(FieldsOf(pieces), v)) == Filled(pieces, v)
    decreases |pieces|
  {
    if pieces != [] {
      var all := {Year, Month, Day};
      var rest := StepsOf(pieces[1..], strict, all);
      RenderLayout(pieces[1..], strict, v);
      var caps := CapsOf(FieldsOf(pieces[1..]), v);
      match pieces[0]
      case Text(t) =>
        assert StepsOf(pieces, strict, all) == Lits(t) + rest;
        assert FieldsOf(pieces) == FieldsOf(pieces[1..]);
        assert Filled(pieces, v) == t + Filled(pieces[1..], v);
        LitsPrefix(t, rest, caps);
      case Tok(f) =>
        var g := GroupFor(f, strict);
        var items := [g] + rest;
        assert StepsOf(pieces, strict, all) == items;
        assert FieldsOf(pieces) == [f] + FieldsOf(pieces[1..]);
        assert Filled(pieces, v) == ValueOf(v, f) + Filled(pieces[1..], v);
        assert items[1..] == rest;
        assert Groups(items) == [g] + Groups(rest);
        assert CapsOf(FieldsOf(pieces), v) == [ValueOf(v, f)] + caps;
        assert Render(items, [ValueOf(v, f)] + caps) == ValueOf(v, f) + Render(rest, caps) by {
          assert ([ValueOf(v, f)] + caps)[1..] == caps;
        }
    }
  }

  /** The capture of the first group standing for `f`. */
  function Pick(groups: seq<Item>, caps: seq<string>, f: Field): Option<string>
    requires |groups| == |caps|
    decreases |groups|
  {
    if groups == [] then None
    else if groups[0].Group? && groups[0].field == f then Some(caps[0])
    else Pick(groups[1..], caps[1..], f)
  }

  /** Each present field's capture is the value written for it. */
  lemma {:induction false} PickValue(fields: seq<Field>, strict: bool, v: Values, f: Field)
    requires f in fields
    ensures Pick(GroupsFor(fields, strict), CapsOf(fields, v), f) == Some(ValueOf(v, f))
    decreases |fields|
  {
    if fields[0] != f {
      assert GroupsFor(fields, strict)[1..] == GroupsFor(fields[1..], strict);
      assert CapsOf(fields, v)[1..] == CapsOf(fields[1..], v);
      PickValue(fields[1..], strict, v, f);
    }
  }

  /** A year of four digits, a month and a day of two: the widths the captures take first. */
  predicate WidestValues(v: Values)
  {
    |v.y| == 4 && |v.m| == 2 && |v.d| == 2 && AllDigits(v.y) && AllDigits(v.m) && AllDigits(v.d)
  }

  /** A pattern laid out as pieces matches itself filled with widest values, capturing them in order. */
  lemma MatchFilled(pieces: seq<Piece>, strict: bool, v: Values)
    requires Layout(pieces) && WidestValues(v)
    ensures var items := BuildMatcher(Source(pieces), strict);
      && Groups(items) == GroupsFor(FieldsOf(pieces), strict)
      && Match(items, Filled(pieces, v)) == Some(CapsOf(FieldsOf(pieces), v))
  {
    BuildMatcherOfLayout(pieces, strict);
    RenderLayout(pieces, strict, v);
    var items := StepsOf(pieces, strict, {Year, Month, Day});
    var caps := CapsOf(FieldsOf(pieces), v);
    WidestCaps(items, FieldsOf(pieces), strict, v);
    MatchRendered(items, caps);
  }

  /** Widest values are widest captures for the groups of their fields. */
  lemma WidestCaps(items: seq<Item>, fields: seq<Field>, strict: bool, v: Values)
    requires WidestValues(v) && Groups(items) == GroupsFor(fields, strict)
    ensures FitsWidest(items, CapsOf(fields, v))
  {
    var caps := CapsOf(fields, v);
    var g := Groups(items);
    forall i | 0 <= i < |g|
      ensures AllDigits(caps[i]) && g[i].lo <= |caps[i]| == g[i].hi
    {
      assert g[i] == GroupFor(fields[i], strict) && caps[i] == ValueOf(v, fields[i]);
    }
  }
}
