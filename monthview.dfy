/**
 * The arithmetic behind the engine's month view: the grid `getMonthGrid`
 * lays out, and the month stepping of `nextMonth` and `prevMonth`.
 */
module MonthView {
  import opened Wrappers
  import opened JsDate
  import opened Calendar
  import opened Adapters

  /** `a % b` in JavaScript, which truncates toward zero. */
  function JsRem(a: int, b: int): (r: int)
    requires b > 0
    ensures -b < r < b
    ensures a >= 0 ==> r == a % b
    ensures a < 0 ==> r <= 0
  {
    if a >= 0 then a % b else -((-a) % b)
  }

  /** `(firstWd - weekStart + 7) % 7`: the blank cells before day 1. */
  function Leading(firstWd: int, weekStart: int): (n: int)
    ensures 0 <= firstWd <= 6 && 0 <= weekStart <= 6 ==> 0 <= n < 7 && (weekStart + n) % 7 == firstWd
  {
    JsRem(firstWd - weekStart + 7, 7)
  }

  /** `n` blank cells (none when `n` is not positive). */
  function Blanks(n: int): (g: seq<Option<int>>)
    ensures |g| == (if n > 0 then n else 0)
    ensures forall i :: 0 <= i < |g| ==> g[i] == None
  {
    if n <= 0 then [] else seq(n, _ => None)
  }

  /** The cells of days 1 to `n`, in order. */
  function Days(n: int): (g: seq<Option<int>>)
    ensures |g| == (if n > 0 then n else 0)
    ensures forall i :: 0 <= i < |g| ==> g[i] == Some(i + 1)
  {
    if n <= 0 then [] else seq(n, i => Some(i + 1))
  }

  /** The blank cells that bring `len` cells up to a whole number of weeks. */
  function Padding(len: nat): (k: nat)
    ensures k < 7 && (len + k) % 7 == 0
  {
    (7 - len % 7) % 7
  }

  /**
   * The grid of a month of `days` days whose first day falls `leading`
   * columns in: blanks, then days 1 to `days`, then blanks to the end of the
   * last week.
   */
  function Grid(leading: int, days: int): seq<Option<int>>
  {
    var cells := Blanks(leading) + Days(days);
    cells + Blanks(Padding(|cells|))
  }

  /**
   * The grid is whole weeks, with fewer than seven blanks after the last
   * day: `leading` blanks, then days 1 to `days` in order, then blanks.
   */
  lemma GridShape(leading: int, days: int)
    ensures var g := Grid(leading, days);
      var l := if leading > 0 then leading else 0;
      var n := if days > 0 then days else 0;
      && |g| % 7 == 0 && l + n <= |g| < l + n + 7
      && (forall i :: 0 <= i < l ==> g[i] == None)
      && (forall i :: l <= i < l + n ==> g[i] == Some(i - l + 1))
      && (forall i :: l + n <= i < |g| ==> g[i] == None)
  {
  }

  /** The grid `getMonthGrid` builds for month `m` of year `y` in the adapter's calendar. */
  function MonthGrid(a: Adapter, y: int, m: int): (g: seq<Option<int>>)
    ensures |g| % 7 == 0
    ensures var n := MonthLength(a, y, m); DaysIn(g) == seq(if n > 0 then n else 0, i => i + 1)
  {
    var leading := Leading(FirstWeekdayOfMonth(a, y, m), LabelsOf(a).weekStart);
    GridShape(leading, MonthLength(a, y, m));
    GridDays(leading, MonthLength(a, y, m));
    Grid(leading, MonthLength(a, y, m))
  }

  /** The days a grid shows, in order, blanks dropped. */
  function DaysIn(g: seq<Option<int>>): seq<int>
  {
    if g == [] then []
    else (if g[0].Some? then [g[0].value] else []) + DaysIn(g[1..])
  }

  lemma {:induction false} DaysInAppend(a: seq<Option<int>>, b: seq<Option<int>>)
    ensures DaysIn(a + b) == DaysIn(a) + DaysIn(b)
    decreases |a|
  {
    if a == [] {
      assert a + b == b;
    } else {
      assert (a + b)[0] == a[0] && (a + b)[1..] == a[1..] + b;
      DaysInAppend(a[1..], b);
    }
  }

  lemma {:induction false} DaysInBlanks(g: seq<Option<int>>)
    requires forall i :: 0 <= i < |g| ==> g[i] == None
    ensures DaysIn(g) == []
    decreases |g|
  {
    if g != [] {
      DaysInBlanks(g[1..]);
    }
  }

  lemma {:induction false} DaysInRun(g: seq<Option<int>>, first: int)
    requires forall i :: 0 <= i < |g| ==> g[i] == Some(first + i)
    ensures DaysIn(g) == seq(|g|, i => first + i)
    decreases |g|
  {
    if g != [] {
      assert forall i :: 0 <= i < |g[1..]| ==> g[1..][i] == Some(first + 1 + i);
      DaysInRun(g[1..], first + 1);
      assert seq(|g|, i => first + i) == [first] + seq(|g| - 1, i => first + 1 + i);
    }
  }

  /**
   * The grid shows each day of the month exactly once, in order: its
   * non-blank cells are 1, 2, ..., `days`, so there are `days` of them.
   */
  lemma GridDays(leading: int, days: int)
    ensures DaysIn(Grid(leading, days)) == seq(if days > 0 then days else 0, i => i + 1)
  {
    var cells := Blanks(leading) + Days(days);
    DaysInAppend(cells, Blanks(Padding(|cells|)));
    DaysInAppend(Blanks(leading), Days(days));
    DaysInBlanks(Blanks(leading));
    DaysInBlanks(Blanks(Padding(|cells|)));
    DaysInRun(Days(days), 1);
  }

  /**
   * In a Gregorian month, with the header's column `c` naming weekday
   * `(weekStart + c) % 7`, every day's cell sits under that day's own weekday.
   */
  lemma DaysUnderTheirWeekday(s: Settings, y: int, m: int, d: int)
    requires 0 <= s.weekStart <= 6 && 1 <= d
    ensures var a := GregorianAdapter(s);
      var l := Leading(FirstWeekdayOfMonth(a, y, m), s.weekStart);
      (s.weekStart + (l + d - 1) % 7) % 7 == Weekday(ToDateObject(a, y, m, d))
  {
    var a := GregorianAdapter(s);
    var fw := FirstWeekdayOfMonth(a, y, m);
    var l := Leading(fw, s.weekStart);
    ConstructAddsDays(y, m - 1, d);
    var first := Construct(y, m - 1, 1);
    assert fw == first % 7;
    assert ToDateObject(a, y, m, d) == first + (d - 1);
    ColumnWeekday(s.weekStart, l, first, d - 1);
  }

  /** Column arithmetic: `k` cells past a first day whose column is `l`, counted from `weekStart`. */
  lemma ColumnWeekday(weekStart: int, l: int, first: int, k: int)
    requires (weekStart + l) % 7 == first % 7
    ensures (weekStart + (l + k) % 7) % 7 == (first + k) % 7
  {
    calc {
      (weekStart + (l + k) % 7) % 7;
      { SumMod(weekStart, l + k); }
      (weekStart + l + k) % 7;
      { SumMod(k, weekStart + l); }
      ((weekStart + l) % 7 + k) % 7;
      (first % 7 + k) % 7;
      { SumMod(k, first); }
      (first + k) % 7;
    }
  }

  lemma SumMod(a: int, b: int)
    ensures (a + b % 7) % 7 == (a + b) % 7
  {
    var q := b / 7;
    assert b == 7 * q + b % 7;
    assert a + b == (a + b % 7) + 7 * q;
  }

  /** The view's year and month. */
  datatype View = View(year: int, month: int)

  /** `nextMonth`'s step: the month goes up by one, past 12 to January of the next year. */
  function Next(v: View): (r: View)
    ensures 1 <= v.month <= 12 ==> 1 <= r.month <= 12
    ensures v.month < 12 ==> r == View(v.year, v.month + 1)
    ensures v.month >= 12 ==> r == View(v.year + 1, 1)
  {
    var m := v.month + 1;
    if m > 12 then View(v.year + 1, 1) else View(v.year, m)
  }

  /** `prevMonth`'s step: the month goes down by one, below 1 to December of the previous year. */
  function Prev(v: View): (r: View)
    ensures 1 <= v.month <= 12 ==> 1 <= r.month <= 12
    ensures v.month > 1 ==> r == View(v.year, v.month - 1)
    ensures v.month <= 1 ==> r == View(v.year - 1, 12)
  {
    var m := v.month - 1;
    if m < 1 then View(v.year - 1, 12) else View(v.year, m)
  }

  /** Going back a month undoes going forward one, and the other way round. */
  lemma StepsUndo(v: View)
    requires 1 <= v.month <= 12
    ensures Prev(Next(v)) == v && Next(Prev(v)) == v
  {
  }

  /** `k` successive `nextMonth` steps. */
  function Advance(v: View, k: nat): View
  {
    if k == 0 then v else Next(Advance(v, k - 1))
  }

  /** `k` steps forward count months with a carry into the year. */
  lemma {:induction false} AdvanceCarries(v: View, k: nat)
    requires 1 <= v.month <= 12
    ensures Advance(v, k) == View(v.year + (v.month - 1 + k) / 12, (v.month - 1 + k) % 12 + 1)
  {
    if k > 0 {
      AdvanceCarries(v, k - 1);
      var t := v.month - 1 + k - 1;
      assert t >= 0;
      if t % 12 == 11 {
        assert (t + 1) / 12 == t / 12 + 1 && (t + 1) % 12 == 0;
      } else {
        assert (t + 1) / 12 == t / 12 && (t + 1) % 12 == t % 12 + 1;
      }
    }
  }

  /** Twelve `nextMonth` steps land on the same month of the next year. */
  lemma TwelveMonths(v: View)
    requires 1 <= v.month <= 12
    ensures Advance(v, 12) == View(v.year + 1, v.month)
  {
    AdvanceCarries(v, 12);
    assert (v.month - 1 + 12) / 12 == 1 && (v.month - 1 + 12) % 12 == v.month - 1;
  }
}
