/**
 * The dashboard's figures for the month: every transaction converted to
 * the display currency, the income and expense totals, the balance, and
 * the expense per category name.
 *
 * The sums are left folds, as `reduce` computes them, so the recursive
 * definitions peel off the LAST element. A JavaScript object's entries
 * in insertion order are an association list `seq<(string, real)>`.
 */
module Dashboard {
  import opened Wrappers
  import opened Types
  import ExchangeRateService

  /** A transaction with its amount in the display currency. */
  datatype Converted = Converted(t: Transaction, convertedAmount: real)

  predicate Convertible(ts: seq<Transaction>, rates: RateTable, display: Currency) {
    forall i :: 0 <= i < |ts| ==> ExchangeRateService.CanConvert(rates, ts[i].currency, display)
  }

  /** `convertedTransactions`: same length and order, each amount
      converted with the current rate table. */
  function ConvertAll(ts: seq<Transaction>, rates: RateTable, display: Currency): (r: seq<Converted>)
    requires Convertible(ts, rates, display)
    ensures |r| == |ts|
    ensures forall i :: 0 <= i < |ts| ==>
      r[i].t == ts[i] && r[i].convertedAmount == ExchangeRateService.Convert(ts[i].amount, ts[i].currency, display, rates)
  {
    seq(|ts|, i requires 0 <= i < |ts| => Converted(ts[i], ExchangeRateService.Convert(ts[i].amount, ts[i].currency, display, rates)))
  }

  /** Shown in the display currency already, the amounts are unchanged. */
  lemma ConvertAllSameCurrency(ts: seq<Transaction>, rates: RateTable, display: Currency)
    requires forall i :: 0 <= i < |ts| ==> ts[i].currency == display
    ensures Convertible(ts, rates, display)
    ensures forall i :: 0 <= i < |ts| ==> ConvertAll(ts, rates, display)[i].convertedAmount == ts[i].amount
  {
  }

  /** The transactions of one type, in order. */
  function OfKind(cs: seq<Converted>, kind: string): (r: seq<Converted>)
    ensures forall c :: c in r <==> c in cs && c.t.kind == kind
    ensures |r| <= |cs|
  {
    if cs == [] then []
    else OfKind(cs[..|cs| - 1], kind) + (if cs[|cs| - 1].t.kind == kind then [cs[|cs| - 1]] else [])
  }

  /** `reduce((sum, t) => sum + t.convertedAmount, 0)`. */
  function Total(cs: seq<Converted>): real {
    if cs == [] then 0.0 else Total(cs[..|cs| - 1]) + cs[|cs| - 1].convertedAmount
  }

  lemma OfKindSnoc(cs: seq<Converted>, c: Converted, kind: string)
    ensures OfKind(cs + [c], kind) == OfKind(cs, kind) + (if c.t.kind == kind then [c] else [])
  {
    assert (cs + [c])[..|cs|] == cs;
  }

  lemma TotalSnoc(cs: seq<Converted>, c: Converted)
    ensures Total(cs + [c]) == Total(cs) + c.convertedAmount
  {
    assert (cs + [c])[..|cs|] == cs;
  }

  /** `totalIncome`: agrees with the front-to-back sum of the income amounts. */
  function TotalIncome(cs: seq<Converted>): (r: real)
    ensures r == SumFront(cs, "income")
  {
    TotalOfKind(cs, "income");
    Total(OfKind(cs, "income"))
  }

  /** `totalExpense`: agrees with the front-to-back sum of the expense amounts. */
  function TotalExpense(cs: seq<Converted>): (r: real)
    ensures r == SumFront(cs, "expense")
  {
    TotalOfKind(cs, "expense");
    Total(OfKind(cs, "expense"))
  }

  /** `balance`: income minus expense, by the front-to-back sums. */
  function Balance(cs: seq<Converted>): (r: real)
    ensures r == SumFront(cs, "income") - SumFront(cs, "expense")
  {
    TotalIncome(cs) - TotalExpense(cs)
  }

  /** Sum-by-reference: a total is the sum of the amounts of the
      transactions of that type, counted from the front. */
  function SumFront(cs: seq<Converted>, kind: string): real {
    if cs == [] then 0.0
    else (if cs[0].t.kind == kind then cs[0].convertedAmount else 0.0) + SumFront(cs[1..], kind)
  }

  lemma {:induction false} SumFrontSnoc(cs: seq<Converted>, c: Converted, kind: string)
    ensures SumFront(cs + [c], kind) == SumFront(cs, kind) + (if c.t.kind == kind then c.convertedAmount else 0.0)
  {
    if cs != [] {
      assert (cs + [c])[1..] == cs[1..] + [c];
      SumFrontSnoc(cs[1..], c, kind);
    }
  }

  /** A total of a type equals the sum over that type's transactions, in
      whatever direction it is counted. */
  lemma {:induction false} TotalOfKind(cs: seq<Converted>, kind: string)
    ensures Total(OfKind(cs, kind)) == SumFront(cs, kind)
  {
    if cs != [] {
      var init, last := cs[..|cs| - 1], cs[|cs| - 1];
      assert cs == init + [last];
      TotalOfKind(init, kind);
      SumFrontSnoc(init, last, kind);
      var pre := OfKind(init, kind);
      if last.t.kind == kind {
        assert OfKind(cs, kind) == pre + [last];
        assert (pre + [last])[..|pre|] == pre;
      } else {
        assert OfKind(cs, kind) == pre;
      }
    }
  }

  /** Adding an income raises the balance by its amount; adding an
      expense lowers it by its amount; any other type leaves it. */
  lemma BalanceSnoc(cs: seq<Converted>, c: Converted)
    ensures Balance(cs + [c]) == Balance(cs) +
      (if c.t.kind == "income" then c.convertedAmount else if c.t.kind == "expense" then -c.convertedAmount else 0.0)
  {
    TotalOfKind(cs + [c], "income");
    TotalOfKind(cs + [c], "expense");
    TotalOfKind(cs, "income");
    TotalOfKind(cs, "expense");
    SumFrontSnoc(cs, c, "income");
    SumFrontSnoc(cs, c, "expense");
  }

  /* ---------------------------------------------------------------- */
  /* expenseByCategory                                                 */
  /* ---------------------------------------------------------------- */

  const OtherCategory := "その他"

  /** The key a transaction is summed under: its category's name, or
      "その他" when there is no category or its name is empty. */
  function CategoryName(c: Converted): (n: string)
    ensures n != ""
    ensures c.t.category.Some? && c.t.category.value.name != "" ==> n == c.t.category.value.name
    ensures !(c.t.category.Some? && c.t.category.value.name != "") ==> n == OtherCategory
  {
    if c.t.category.Some? && c.t.category.value.name != "" then c.t.category.value.name else OtherCategory
  }

  type Entries = seq<(string, real)>

  ghost predicate UniqueKeys(e: Entries) {
    forall i, j :: 0 <= i < j < |e| ==> e[i].0 != e[j].0
  }

  predicate HasKey(e: Entries, n: string) {
    exists i :: 0 <= i < |e| && e[i].0 == n
  }

  /** `acc[n]`, where an absent key reads as 0 (`acc[n] || 0`). */
  function ValueOf(e: Entries, n: string): real {
    if e == [] then 0.0 else if e[0].0 == n then e[0].1 else ValueOf(e[1..], n)
  }

  function SumValues(e: Entries): real {
    if e == [] then 0.0 else e[0].1 + SumValues(e[1..])
  }

  /** The position of key `n`. */
  function IndexOf(e: Entries, n: string): (k: nat)
    requires HasKey(e, n)
    ensures k < |e| && e[k].0 == n
    ensures forall i :: 0 <= i < k ==> e[i].0 != n
  {
    if e[0].0 == n then 0
    else
      assert HasKey(e[1..], n) by {
        var i :| 0 <= i < |e| && e[i].0 == n;
        assert e[1..][i - 1].0 == n;
      }
      1 + IndexOf(e[1..], n)
  }

  /** `acc[n] = (acc[n] || 0) + x`: an existing key keeps its place, a new
      key goes last. */
  function AddTo(e: Entries, n: string, x: real): (r: Entries)
    ensures HasKey(e, n) ==> |r| == |e|
    ensures !HasKey(e, n) ==> r == e + [(n, x)]
  {
    if HasKey(e, n) then
      var k := IndexOf(e, n);
      e[k := (n, e[k].1 + x)]
    else e + [(n, x)]
  }

  lemma {:induction false} SumValuesUpdate(e: Entries, k: nat, v: (string, real))
    requires k < |e|
    ensures SumValues(e[k := v]) == SumValues(e) - e[k].1 + v.1
  {
    if k > 0 {
      assert e[k := v][1..] == e[1..][k - 1 := v];
      SumValuesUpdate(e[1..], k - 1, v);
    }
  }

  lemma {:induction false} SumValuesSnoc(e: Entries, v: (string, real))
    ensures SumValues(e + [v]) == SumValues(e) + v.1
  {
    if e != [] {
      assert (e + [v])[1..] == e[1..] + [v];
      SumValuesSnoc(e[1..], v);
    }
  }

  lemma {:induction false} ValueOfUpdate(e: Entries, k: nat, x: real, m: string)
    requires UniqueKeys(e) && k < |e|
    ensures ValueOf(e[k := (e[k].0, e[k].1 + x)], m) == ValueOf(e, m) + (if m == e[k].0 then x else 0.0)
  {
    if k == 0 {
      if m != e[0].0 {
        assert e[0 := (e[0].0, e[0].1 + x)][1..] == e[1..];
      }
    } else {
      assert e[k := (e[k].0, e[k].1 + x)][1..] == e[1..][k - 1 := (e[k].0, e[k].1 + x)];
      assert UniqueKeys(e[1..]) by {
        forall i, j | 0 <= i < j < |e[1..]| ensures e[1..][i].0 != e[1..][j].0 {
          assert e[1..][i] == e[i + 1] && e[1..][j] == e[j + 1];
        }
      }
      ValueOfUpdate(e[1..], k - 1, x, m);
      if m == e[k].0 {
        assert e[0].0 != e[k].0;
      }
    }
  }

  lemma {:induction false} ValueOfSnoc(e: Entries, n: string, x: real, m: string)
    requires !HasKey(e, n)
    ensures ValueOf(e + [(n, x)], m) == ValueOf(e, m) + (if m == n then x else 0.0)
  {
    if e == [] {
      assert [(n, x)][1..] == [];
    } else {
      assert (e + [(n, x)])[1..] == e[1..] + [(n, x)];
      assert !HasKey(e[1..], n) by {
        forall i | 0 <= i < |e[1..]| ensures e[1..][i].0 != n {
          assert e[1..][i] == e[i + 1];
        }
      }
      ValueOfSnoc(e[1..], n, x, m);
    }
  }

  /** One write into the accumulator keeps keys unique, adds `x` to the
      written key only, and raises the sum of all values by `x`. */
  lemma AddToFacts(e: Entries, n: string, x: real)
    requires UniqueKeys(e)
    ensures UniqueKeys(AddTo(e, n, x))
    ensures forall m :: HasKey(AddTo(e, n, x), m) <==> HasKey(e, m) || m == n
    ensures forall m :: ValueOf(AddTo(e, n, x), m) == ValueOf(e, m) + (if m == n then x else 0.0)
    ensures SumValues(AddTo(e, n, x)) == SumValues(e) + x
  {
    var r := AddTo(e, n, x);
    if HasKey(e, n) {
      var k := IndexOf(e, n);
      assert r == e[k := (e[k].0, e[k].1 + x)];
      forall m ensures ValueOf(r, m) == ValueOf(e, m) + (if m == n then x else 0.0) {
        ValueOfUpdate(e, k, x, m);
      }
      SumValuesUpdate(e, k, (n, e[k].1 + x));
      forall m ensures HasKey(r, m) <==> HasKey(e, m) || m == n {
        if HasKey(e, m) {
          var i :| 0 <= i < |e| && e[i].0 == m;
          assert r[i].0 == m;
        }
        if HasKey(r, m) {
          var i :| 0 <= i < |r| && r[i].0 == m;
          assert e[i].0 == m;
        }
      }
    } else {
      forall m ensures ValueOf(r, m) == ValueOf(e, m) + (if m == n then x else 0.0) {
        ValueOfSnoc(e, n, x, m);
      }
      SumValuesSnoc(e, (n, x));
      forall m ensures HasKey(r, m) <==> HasKey(e, m) || m == n {
        if HasKey(e, m) {
          var i :| 0 <= i < |e| && e[i].0 == m;
          assert r[i].0 == m;
        }
        if m == n {
          assert r[|e|].0 == m;
        }
      }
    }
  }

  /** What the reduce has built after the given expenses. */
  function Totals(cs: seq<Converted>): (e: Entries)
    ensures |e| <= |cs|
  {
    if cs == [] then []
    else
      var last := cs[|cs| - 1];
      AddTo(Totals(cs[..|cs| - 1]), CategoryName(last), last.convertedAmount)
  }

  /** The transactions summed under one name. */
  function Named(cs: seq<Converted>, n: string): (r: seq<Converted>)
    ensures forall c :: c in r <==> c in cs && CategoryName(c) == n
  {
    if cs == [] then []
    else Named(cs[..|cs| - 1], n) + (if CategoryName(cs[|cs| - 1]) == n then [cs[|cs| - 1]] else [])
  }

  /** The accumulator has one entry per name that occurs, its value is
      the total of the transactions with that name, and the values add up
      to the total of all of them. */
  lemma {:induction false} TotalsCorrect(cs: seq<Converted>)
    ensures UniqueKeys(Totals(cs))
    ensures forall n :: HasKey(Totals(cs), n) <==> exists c :: c in cs && CategoryName(c) == n
    ensures forall n :: ValueOf(Totals(cs), n) == Total(Named(cs, n))
    ensures SumValues(Totals(cs)) == Total(cs)
  {
    TotalsKeys(cs);
    TotalsValues(cs);
    TotalsSum(cs);
  }

  /** The names of the accumulator are unique and are the names that occur. */
  lemma {:induction false} TotalsKeys(cs: seq<Converted>)
    ensures UniqueKeys(Totals(cs))
    ensures forall n :: HasKey(Totals(cs), n) <==> exists c :: c in cs && CategoryName(c) == n
  {
    if cs != [] {
      var init, last := cs[..|cs| - 1], cs[|cs| - 1];
      assert cs == init + [last];
      TotalsKeys(init);
      AddToFacts(Totals(init), CategoryName(last), last.convertedAmount);
      forall n ensures HasKey(Totals(cs), n) <==> exists c :: c in cs && CategoryName(c) == n {
        if exists c :: c in cs && CategoryName(c) == n {
          var c :| c in cs && CategoryName(c) == n;
          if c != last {
            assert c in init;
          }
        }
        if HasKey(Totals(init), n) {
          var c :| c in init && CategoryName(c) == n;
          assert c in cs;
        }
      }
    }
  }

  /** Each name's value in the accumulator is the total under that name. */
  lemma {:induction false} TotalsValues(cs: seq<Converted>)
    ensures forall n :: ValueOf(Totals(cs), n) == Total(Named(cs, n))
  {
    if cs != [] {
      var init, last := cs[..|cs| - 1], cs[|cs| - 1];
      assert cs == init + [last];
      TotalsKeys(init);
      TotalsValues(init);
      AddToFacts(Totals(init), CategoryName(last), last.convertedAmount);
      forall n ensures ValueOf(Totals(cs), n) == Total(Named(cs, n)) {
        var pre := Named(init, n);
        if CategoryName(last) == n {
          assert Named(cs, n) == pre + [last];
          assert (pre + [last])[..|pre|] == pre;
        } else {
          assert Named(cs, n) == pre;
        }
      }
    }
  }

  /** The accumulator's values add up to the total of all transactions. */
  lemma {:induction false} TotalsSum(cs: seq<Converted>)
    ensures SumValues(Totals(cs)) == Total(cs)
  {
    if cs != [] {
      var init, last := cs[..|cs| - 1], cs[|cs| - 1];
      assert cs == init + [last];
      TotalsKeys(init);
      TotalsSum(init);
      AddToFacts(Totals(init), CategoryName(last), last.convertedAmount);
    }
  }

  /** The `reduce` of `expenseByCategory`: the given transactions folded
      into per-name totals in first-seen order. */
  method AccumulateByName(expenses: seq<Converted>) returns (entries: Entries)
    ensures entries == Totals(expenses)
  {
    entries := [];
    var i := 0;
    while i < |expenses|
      invariant 0 <= i <= |expenses|
      invariant entries == Totals(expenses[..i])
    {
      var c := expenses[i];
      assert expenses[..i + 1][..i] == expenses[..i];
      entries := AddTo(entries, CategoryName(c), c.convertedAmount);
      i := i + 1;
    }
    assert expenses[..i] == expenses;
  }

  /** `expenseByCategory`: the expenses folded into per-name totals in
      first-seen order. The values are the per-name expense totals, and
      they add up to `totalExpense`. */
  method ExpenseByCategory(cs: seq<Converted>) returns (entries: Entries)
    ensures entries == Totals(OfKind(cs, "expense"))
    ensures UniqueKeys(entries)
    ensures forall n :: HasKey(entries, n) <==> exists c :: c in cs && c.t.kind == "expense" && CategoryName(c) == n
    ensures forall n :: ValueOf(entries, n) == Total(Named(OfKind(cs, "expense"), n))
    ensures SumValues(entries) == TotalExpense(cs)
  {
    entries := AccumulateByName(OfKind(cs, "expense"));
    ExpenseTotals(cs);
  }

  /** The per-name totals of the expenses, read off `TotalsCorrect`. */
  lemma ExpenseTotals(cs: seq<Converted>)
    ensures var e := Totals(OfKind(cs, "expense"));
      && UniqueKeys(e)
      && (forall n :: HasKey(e, n) <==> exists c :: c in cs && c.t.kind == "expense" && CategoryName(c) == n)
      && (forall n :: ValueOf(e, n) == Total(Named(OfKind(cs, "expense"), n)))
      && SumValues(e) == TotalExpense(cs)
  {
    var expenses := OfKind(cs, "expense");
    TotalsCorrect(expenses);
    assert TotalExpense(cs) == Total(expenses);
  }
}
