/**
 * The dashboard's bar chart: the six calendar months ending with the
 * current one, each with its first and last day as `yyyy-MM-dd` strings,
 * and per month the rounded income and expense totals of the converted
 * transactions whose date string lies in that range.
 *
 * The current month comes from the clock and is a parameter. Months are
 * (year, month) pairs; the date library's `startOfMonth`, `subMonths`
 * and `format` are written out for the Gregorian calendar.
 */
module MonthlyBarChart {
  import opened StringOrder
  import ExchangeRateService
  import Dashboard

  datatype YearMonth = YearMonth(year: nat, month: nat)

  predicate ValidMonth(ym: YearMonth) {
    1 <= ym.month <= 12
  }

  /** Months counted from January of year 0. */
  function MonthIndex(ym: YearMonth): nat
    requires ValidMonth(ym)
  {
    ym.year * 12 + ym.month - 1
  }

  function FromIndex(n: nat): (ym: YearMonth)
    ensures ValidMonth(ym) && MonthIndex(ym) == n
  {
    YearMonth(n / 12, n % 12 + 1)
  }

  lemma IndexRoundTrip(ym: YearMonth)
    requires ValidMonth(ym)
    ensures FromIndex(MonthIndex(ym)) == ym
  {
  }

  /** `Array.from({ length: 6 }, (_, i) => subMonths(startOfMonth(now), 5 - i))`. */
  function Window(current: YearMonth): (w: seq<YearMonth>)
    requires ValidMonth(current) && current.year >= 1
    ensures |w| == 6 && w[5] == current
    ensures forall i :: 0 <= i < 6 ==> ValidMonth(w[i]) && w[i].year <= current.year
    ensures forall i :: 0 <= i < 5 ==> MonthIndex(w[i + 1]) == MonthIndex(w[i]) + 1
  {
    IndexRoundTrip(current);
    var n := MonthIndex(current);
    var w := seq(6, i requires 0 <= i < 6 => FromIndex(n - 5 + i));
    assert forall i :: 0 <= i < 6 ==> w[i] == FromIndex(n - 5 + i);
    assert forall i :: 0 <= i < 6 ==> ValidMonth(w[i]) && MonthIndex(w[i]) == n - 5 + i;
    forall i | 0 <= i < 6 ensures w[i].year <= current.year {
      YearBound(w[i], current);
    }
    w
  }

  /** A month at or before another is not in a later year. */
  lemma YearBound(a: YearMonth, b: YearMonth)
    requires ValidMonth(a) && ValidMonth(b) && MonthIndex(a) <= MonthIndex(b)
    ensures a.year <= b.year
  {
    assert a.year * 12 <= MonthIndex(a) <= MonthIndex(b) < b.year * 12 + 12;
  }

  /* ---------------------------------------------------------------- */
  /* date strings                                                      */
  /* ---------------------------------------------------------------- */

  function Pow10(w: nat): (p: nat)
    ensures p >= 1
  {
    if w == 0 then 1 else 10 * Pow10(w - 1)
  }

  function Digit(d: nat): char
    requires d < 10
  {
    (48 + d) as char
  }

  /** `n` in decimal, zero-padded to `w` digits. */
  function Pad(n: nat, w: nat): (s: string)
    requires n < Pow10(w)
    ensures |s| == w
  {
    if w == 0 then "" else Pad(n / 10, w - 1) + [Digit(n % 10)]
  }

  /** The number a string of decimal digits denotes. */
  function DigitsValue(s: string): int {
    if s == [] then 0 else DigitsValue(s[..|s| - 1]) * 10 + (s[|s| - 1] as int - 48)
  }

  /** Reading a padded number gives the number back. */
  lemma {:induction false} PadRoundTrip(n: nat, w: nat)
    requires n < Pow10(w)
    ensures DigitsValue(Pad(n, w)) == n
  {
    if w > 0 {
      var s := Pad(n, w);
      assert s[..|s| - 1] == Pad(n / 10, w - 1);
      PadRoundTrip(n / 10, w - 1);
    }
  }

  function DaysInMonth(year: nat, month: nat): (d: nat)
    requires 1 <= month <= 12
    ensures 28 <= d <= 31
  {
    if month == 2 then (if IsLeapYear(year) then 29 else 28)
    else if month == 4 || month == 6 || month == 9 || month == 11 then 30
    else 31
  }

  predicate IsLeapYear(y: nat) {
    (y % 4 == 0 && y % 100 != 0) || y % 400 == 0
  }

  /** `yyyy-MM`, the part of a date both bounds share. */
  function MonthKey(ym: YearMonth): (k: string)
    requires ValidMonth(ym) && ym.year < 10000
    ensures |k| == 7
    ensures DigitsValue(k[..4]) == ym.year && k[4] == '-' && DigitsValue(k[5..]) == ym.month
  {
    var k := Pad(ym.year, 4) + "-" + Pad(ym.month, 2);
    assert k[..4] == Pad(ym.year, 4) && k[5..] == Pad(ym.month, 2);
    PadRoundTrip(ym.year, 4);
    PadRoundTrip(ym.month, 2);
    k
  }

  /** Distinct months have distinct keys. */
  lemma MonthKeyInjective(a: YearMonth, b: YearMonth)
    requires ValidMonth(a) && a.year < 10000 && ValidMonth(b) && b.year < 10000
    requires MonthKey(a) == MonthKey(b)
    ensures a == b
  {
    assert MonthKey(a)[..4] == Pad(a.year, 4) && MonthKey(b)[..4] == Pad(b.year, 4);
    assert MonthKey(a)[5..] == Pad(a.month, 2) && MonthKey(b)[5..] == Pad(b.month, 2);
    PadRoundTrip(a.year, 4);
    PadRoundTrip(b.year, 4);
    PadRoundTrip(a.month, 2);
    PadRoundTrip(b.month, 2);
  }

  /** `startDate`: the first of the month. */
  function StartDate(ym: YearMonth): (s: string)
    requires ValidMonth(ym) && ym.year < 10000
    ensures |s| == 10
    ensures s[..7] == MonthKey(ym) && s[7] == '-' && DigitsValue(s[8..]) == 1
  {
    var s := MonthKey(ym) + "-01";
    assert s[8..] == "01";
    assert DigitsValue("01") == 1 by {
      assert "01"[..1] == "0" && "0"[..0] == "";
    }
    s
  }

  /** `endDate`: day 0 of the next month, i.e. the month's last day. */
  function EndDate(ym: YearMonth): (s: string)
    requires ValidMonth(ym) && ym.year < 10000
    ensures |s| == 10
    ensures s[..8] == MonthKey(ym) + "-"
    ensures DigitsValue(s[8..]) == DaysInMonth(ym.year, ym.month)
  {
    var s := MonthKey(ym) + "-" + Pad(DaysInMonth(ym.year, ym.month), 2);
    assert s[8..] == Pad(DaysInMonth(ym.year, ym.month), 2);
    PadRoundTrip(DaysInMonth(ym.year, ym.month), 2);
    s
  }

  /** February's last day is the 29th exactly in leap years. */
  lemma FebruaryEnd(year: nat)
    requires year < 10000
    ensures DigitsValue(EndDate(YearMonth(year, 2))[8..]) == 29 <==> IsLeapYear(year)
  {
  }

  /** `format(date, 'M月')`. */
  function Label(ym: YearMonth): string
    requires ValidMonth(ym)
  {
    (if ym.month < 10 then [Digit(ym.month)] else ['1', Digit(ym.month - 10)]) + "月"
  }

  /* ---------------------------------------------------------------- */
  /* chart data                                                        */
  /* ---------------------------------------------------------------- */

  /** `t.date >= startDate && t.date <= endDate`, by string comparison. */
  predicate InRange(d: string, lo: string, hi: string) {
    StrLe(lo, d) && StrLe(d, hi)
  }

  predicate InMonth(d: string, ym: YearMonth)
    requires ValidMonth(ym) && ym.year < 10000
  {
    InRange(d, StartDate(ym), EndDate(ym))
  }

  /** A date string of at least seven characters that falls in a month's
      range starts with that month's `yyyy-MM`. */
  lemma InMonthHasKey(d: string, ym: YearMonth)
    requires ValidMonth(ym) && ym.year < 10000
    requires |d| >= 7 && InMonth(d, ym)
    ensures d[..7] == MonthKey(ym)
  {
    var k := MonthKey(ym);
    var q, r := d[..7], d[7..];
    assert d == q + r;
    assert StartDate(ym) == k + "-01";
    assert EndDate(ym) == k + EndDate(ym)[7..];
    StrLeConcat(k, "-01", q, r);
    StrLeConcat(q, r, k, EndDate(ym)[7..]);
    StrLtIsNotLe(k, q);
    StrLtIsNotLe(q, k);
    if StrLt(k, q) && StrLt(q, k) {
      StrLeAntisym(k, q);
    }
  }

  /** No date of at least seven characters falls in two different
      months. */
  lemma MonthsDisjoint(d: string, a: YearMonth, b: YearMonth)
    requires ValidMonth(a) && a.year < 10000 && ValidMonth(b) && b.year < 10000
    requires |d| >= 7 && InMonth(d, a) && InMonth(d, b)
    ensures a == b
  {
    InMonthHasKey(d, a);
    InMonthHasKey(d, b);
    MonthKeyInjective(a, b);
  }

  /** `monthTransactions` for the range from `lo` to `hi`. */
  function OfRange(cs: seq<Dashboard.Converted>, lo: string, hi: string): (r: seq<Dashboard.Converted>)
    ensures forall c :: c in r <==> c in cs && InRange(c.t.date, lo, hi)
  {
    if cs == [] then []
    else OfRange(cs[..|cs| - 1], lo, hi) + (if InRange(cs[|cs| - 1].t.date, lo, hi) then [cs[|cs| - 1]] else [])
  }

  /** The unrounded total of one type in one month. */
  function MonthSum(cs: seq<Dashboard.Converted>, ym: YearMonth, kind: string): real
    requires ValidMonth(ym) && ym.year < 10000
  {
    RangeSum(cs, StartDate(ym), EndDate(ym), kind)
  }

  function RangeSum(cs: seq<Dashboard.Converted>, lo: string, hi: string, kind: string): real {
    Dashboard.Total(Dashboard.OfKind(OfRange(cs, lo, hi), kind))
  }

  /** One bar pair: the month label, income and expense. */
  datatype Bar = Bar(month: string, income: int, expense: int)

  /** `chartData`: one bar per window month, oldest first, each total
      rounded to a whole unit as `Math.round` does. */
  function ChartData(current: YearMonth, cs: seq<Dashboard.Converted>): (bars: seq<Bar>)
    requires ValidMonth(current) && 1 <= current.year < 10000
    ensures |bars| == 6
    ensures forall i :: 0 <= i < 6 ==> bars[i].month == Label(Window(current)[i])
    ensures forall i :: 0 <= i < 6 ==>
      bars[i].income as real - 0.5 <= MonthSum(cs, Window(current)[i], "income") < bars[i].income as real + 0.5
    ensures forall i :: 0 <= i < 6 ==>
      bars[i].expense as real - 0.5 <= MonthSum(cs, Window(current)[i], "expense") < bars[i].expense as real + 0.5
  {
    var w := Window(current);
    seq(6, i requires 0 <= i < 6 =>
      Bar(Label(w[i]),
          ExchangeRateService.MathRound(MonthSum(cs, w[i], "income")),
          ExchangeRateService.MathRound(MonthSum(cs, w[i], "expense"))))
  }

  lemma OfRangeSnoc(cs: seq<Dashboard.Converted>, c: Dashboard.Converted, lo: string, hi: string)
    ensures OfRange(cs + [c], lo, hi) == OfRange(cs, lo, hi) + (if InRange(c.t.date, lo, hi) then [c] else [])
  {
    assert (cs + [c])[..|cs|] == cs;
  }

  lemma RangeSumSnoc(cs: seq<Dashboard.Converted>, c: Dashboard.Converted, lo: string, hi: string, kind: string)
    ensures RangeSum(cs + [c], lo, hi, kind) ==
      RangeSum(cs, lo, hi, kind) + (if InRange(c.t.date, lo, hi) && c.t.kind == kind then c.convertedAmount else 0.0)
  {
    OfRangeSnoc(cs, c, lo, hi);
    var m := OfRange(cs, lo, hi);
    var r := OfRange(cs + [c], lo, hi);
    var mk := Dashboard.OfKind(m, kind);
    if InRange(c.t.date, lo, hi) {
      assert r == m + [c];
      Dashboard.OfKindSnoc(m, c, kind);
      if c.t.kind == kind {
        assert Dashboard.OfKind(r, kind) == mk + [c];
        Dashboard.TotalSnoc(mk, c);
      } else {
        assert Dashboard.OfKind(r, kind) == mk;
      }
    } else {
      assert r == m;
    }
  }

  /** Adding a transaction adds its amount to the total of its own type
      in each month whose range holds its date, and nothing elsewhere. */
  lemma MonthSumSnoc(cs: seq<Dashboard.Converted>, c: Dashboard.Converted, ym: YearMonth, kind: string)
    requires ValidMonth(ym) && ym.year < 10000
    ensures MonthSum(cs + [c], ym, kind) ==
      MonthSum(cs, ym, kind) + (if InMonth(c.t.date, ym) && c.t.kind == kind then c.convertedAmount else 0.0)
  {
    RangeSumSnoc(cs, c, StartDate(ym), EndDate(ym), kind);
  }

  /** A transaction whose type is neither income nor expense changes no
      bar. */
  lemma OtherKindIgnored(current: YearMonth, cs: seq<Dashboard.Converted>, c: Dashboard.Converted)
    requires ValidMonth(current) && 1 <= current.year < 10000
    requires c.t.kind != "income" && c.t.kind != "expense"
    ensures ChartData(current, cs + [c]) == ChartData(current, cs)
  {
    var w := Window(current);
    forall i | 0 <= i < 6
      ensures MonthSum(cs + [c], w[i], "income") == MonthSum(cs, w[i], "income")
      ensures MonthSum(cs + [c], w[i], "expense") == MonthSum(cs, w[i], "expense")
    {
      MonthSumSnoc(cs, c, w[i], "income");
      MonthSumSnoc(cs, c, w[i], "expense");
    }
  }

  /** The window's months are pairwise distinct. */
  lemma WindowDistinct(current: YearMonth, i: nat, j: nat)
    requires ValidMonth(current) && 1 <= current.year < 10000
    requires i < j < 6
    ensures Window(current)[i] != Window(current)[j]
  {
    var w := Window(current);
    var k := i;
    while k < j
      invariant i <= k <= j
      invariant MonthIndex(w[k]) == MonthIndex(w[i]) + (k - i)
    {
      k := k + 1;
    }
  }

  /** A transaction with a date of at least seven characters is counted
      in at most one bar: adding it changes the unrounded totals of at most
      one window month, by its amount. */
  lemma CountedInOneMonth(current: YearMonth, cs: seq<Dashboard.Converted>, c: Dashboard.Converted, kind: string, i: nat, j: nat)
    requires ValidMonth(current) && 1 <= current.year < 10000
    requires |c.t.date| >= 7 && i < j < 6
    ensures var w := Window(current);
      MonthSum(cs + [c], w[i], kind) == MonthSum(cs, w[i], kind) ||
      MonthSum(cs + [c], w[j], kind) == MonthSum(cs, w[j], kind)
  {
    var w := Window(current);
    MonthSumSnoc(cs, c, w[i], kind);
    MonthSumSnoc(cs, c, w[j], kind);
    if InMonth(c.t.date, w[i]) && InMonth(c.t.date, w[j]) {
      MonthsDisjoint(c.t.date, w[i], w[j]);
      WindowDistinct(current, i, j);
      assert false;
    }
  }
}
