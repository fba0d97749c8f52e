/**
 * The transaction list: transactions grouped by date, groups shown
 * newest date first, and how each row's amount, currency label and sign
 * are chosen.
 *
 * The grouping object's entries in insertion order are an association
 * list from date to the transactions of that date.
 */
module TransactionList {
  import opened Wrappers
  import opened Types
  import opened StringOrder
  import opened Sorting
  import FormatCurrency

  type Group = (string, seq<Transaction>)

  /** The transactions of one date, in input order. */
  function OnDate(ts: seq<Transaction>, d: string): (r: seq<Transaction>)
    ensures forall t :: t in r <==> t in ts && t.date == d
    ensures (forall i :: 0 <= i < |ts| ==> ts[i].date != d) ==> r == []
  {
    if ts == [] then []
    else OnDate(ts[..|ts| - 1], d) + (if ts[|ts| - 1].date == d then [ts[|ts| - 1]] else [])
  }

  /** Some transaction has this date. */
  predicate DateOccurs(ts: seq<Transaction>, d: string) {
    exists t :: t in ts && t.date == d
  }

  predicate HasDate(g: seq<Group>, d: string) {
    exists k :: 0 <= k < |g| && g[k].0 == d
  }

  ghost predicate UniqueDates(g: seq<Group>) {
    forall i, j :: 0 <= i < j < |g| ==> g[i].0 != g[j].0
  }

  function IndexOfDate(g: seq<Group>, d: string): (k: nat)
    requires HasDate(g, d)
    ensures k < |g| && g[k].0 == d
  {
    if g[0].0 == d then 0
    else
      assert HasDate(g[1..], d) by {
        var i :| 0 <= i < |g| && g[i].0 == d;
        assert g[1..][i - 1].0 == d;
      }
      1 + IndexOfDate(g[1..], d)
  }

  /** One step of the reduce: create the date's array if needed, then
      push the transaction onto it. */
  function Push(g: seq<Group>, t: Transaction): (r: seq<Group>)
    ensures HasDate(g, t.date) ==> |r| == |g|
    ensures !HasDate(g, t.date) ==> r == g + [(t.date, [t])]
  {
    if HasDate(g, t.date) then
      var k := IndexOfDate(g, t.date);
      g[k := (t.date, g[k].1 + [t])]
    else g + [(t.date, [t])]
  }

  /** `groupedTransactions` after the given transactions. */
  function Grouped(ts: seq<Transaction>): (g: seq<Group>)
    ensures |g| <= |ts|
  {
    if ts == [] then [] else Push(Grouped(ts[..|ts| - 1]), ts[|ts| - 1])
  }

  /** Each group is keyed by a date that occurs, holds exactly the
      transactions of that date in input order, and no date has two
      groups. */
  ghost predicate GroupsOf(g: seq<Group>, ts: seq<Transaction>) {
    && UniqueDates(g)
    && (forall d :: HasDate(g, d) <==> DateOccurs(ts, d))
    && (forall k :: 0 <= k < |g| ==> g[k].1 == OnDate(ts, g[k].0))
  }

  lemma OnDateSnoc(ts: seq<Transaction>, t: Transaction, d: string)
    ensures OnDate(ts + [t], d) == OnDate(ts, d) + (if t.date == d then [t] else [])
  {
    assert (ts + [t])[..|ts|] == ts;
  }

  /** A push adds the transaction's date and no other. */
  lemma PushDates(g: seq<Group>, t: Transaction)
    ensures forall d :: HasDate(Push(g, t), d) <==> HasDate(g, d) || d == t.date
  {
    var r := Push(g, t);
    forall d ensures HasDate(r, d) <==> HasDate(g, d) || d == t.date {
      if HasDate(g, d) {
        var i :| 0 <= i < |g| && g[i].0 == d;
        assert r[i].0 == d;
      }
      if d == t.date && !HasDate(g, d) {
        assert r[|g|].0 == d;
      }
      if HasDate(r, d) && d != t.date {
        var i :| 0 <= i < |r| && r[i].0 == d;
        assert i < |g| && g[i].0 == d;
      }
    }
  }

  lemma PushUnique(g: seq<Group>, t: Transaction)
    requires UniqueDates(g)
    ensures UniqueDates(Push(g, t))
  {
  }

  /** A push appends the transaction to its date's group only. */
  lemma PushContents(g: seq<Group>, init: seq<Transaction>, t: Transaction)
    requires UniqueDates(g)
    requires forall d :: HasDate(g, d) <==> DateOccurs(init, d)
    requires forall k :: 0 <= k < |g| ==> g[k].1 == OnDate(init, g[k].0)
    ensures forall k :: 0 <= k < |Push(g, t)| ==> Push(g, t)[k].1 == OnDate(init + [t], Push(g, t)[k].0)
  {
    var r := Push(g, t);
    forall k | 0 <= k < |r| ensures r[k].1 == OnDate(init + [t], r[k].0) {
      OnDateSnoc(init, t, r[k].0);
      if k < |g| && g[k].0 != t.date {
        assert r[k] == g[k];
      } else if !HasDate(g, t.date) {
        assert k == |g| && r[k] == (t.date, [t]);
        assert forall i :: 0 <= i < |init| ==> init[i].date != t.date by {
          forall i | 0 <= i < |init| ensures init[i].date != t.date {
            assert init[i] in init;
          }
        }
      }
    }
  }

  lemma {:induction false} GroupedCorrect(ts: seq<Transaction>)
    ensures GroupsOf(Grouped(ts), ts)
  {
    if ts != [] {
      var init, t := ts[..|ts| - 1], ts[|ts| - 1];
      assert ts == init + [t];
      GroupedCorrect(init);
      var g := Grouped(init);
      PushDates(g, t);
      PushUnique(g, t);
      PushContents(g, init, t);
      forall d ensures DateOccurs(ts, d) <==> DateOccurs(init, d) || d == t.date {
        if DateOccurs(ts, d) {
          var x :| x in ts && x.date == d;
          if x != t { assert x in init; }
        }
        if DateOccurs(init, d) {
          var x :| x in init && x.date == d;
          assert x in ts;
        }
      }
    }
  }

  /** The reduce that builds `groupedTransactions`. */
  method GroupByDate(ts: seq<Transaction>) returns (groups: seq<Group>)
    ensures groups == Grouped(ts)
    ensures GroupsOf(groups, ts)
  {
    groups := [];
    var i := 0;
    while i < |ts|
      invariant 0 <= i <= |ts|
      invariant groups == Grouped(ts[..i])
    {
      assert ts[..i + 1][..i] == ts[..i];
      groups := Push(groups, ts[i]);
      i := i + 1;
    }
    assert ts[..i] == ts;
    GroupedCorrect(ts);
  }

  /** `dateB.localeCompare(dateA)`: later dates first. */
  predicate LaterFirst(a: Group, b: Group) {
    StrLe(b.0, a.0)
  }

  lemma LaterFirstIsPreorder()
    ensures TotalPreorder(LaterFirst)
  {
    forall a: Group, b: Group ensures LaterFirst(a, b) || LaterFirst(b, a) {
      StrLeTotal(a.0, b.0);
    }
    forall a: Group, b: Group, c: Group | LaterFirst(a, b) && LaterFirst(b, c) ensures LaterFirst(a, c) {
      StrLeTrans(c.0, b.0, a.0);
    }
  }

  /** What the list renders. */
  datatype View = EmptyState | DateGroups(groups: seq<Group>)

  /** The list: an empty-state panel for no transactions; otherwise every
      transaction in the one group of its date, groups in strictly
      descending date order. */
  method Render(ts: seq<Transaction>) returns (v: View)
    ensures v.EmptyState? <==> ts == []
    ensures v.DateGroups? ==> GroupsOf(v.groups, ts)
    ensures v.DateGroups? ==> forall i, j :: 0 <= i < j < |v.groups| ==> StrLt(v.groups[j].0, v.groups[i].0)
  {
    if |ts| == 0 {
      return EmptyState;
    }
    var groups := GroupByDate(ts);
    var shown := Sort(groups, LaterFirst);
    LaterFirstIsPreorder();
    SortSorted(groups, LaterFirst);
    PermutedGroups(groups, shown, ts);
    forall i, j | 0 <= i < j < |shown| ensures StrLt(shown[j].0, shown[i].0) {
      assert LaterFirst(shown[i], shown[j]);
    }
    v := DateGroups(shown);
  }

  /** A value at two positions occurs at least twice. */
  lemma TwiceInMultiset(p: seq<Group>, i: nat, j: nat)
    requires i < j < |p| && p[i] == p[j]
    ensures multiset(p)[p[i]] >= 2
  {
    assert p == p[..j] + p[j..];
    assert multiset(p) == multiset(p[..j]) + multiset(p[j..]);
    assert p[i] == p[..j][i];
    assert p[j] == p[j..][0];
  }

  /** A permutation of the groups is still the grouping. */
  lemma PermutedGroups(g: seq<Group>, p: seq<Group>, ts: seq<Transaction>)
    requires GroupsOf(g, ts) && multiset(p) == multiset(g)
    ensures GroupsOf(p, ts)
  {
    forall x ensures x in p <==> x in g {
      assert x in p <==> x in multiset(p);
      assert x in g <==> x in multiset(g);
    }
    forall i, j | 0 <= i < j < |p| ensures p[i].0 != p[j].0 {
      assert p[i] in p && p[j] in p;
      var a :| 0 <= a < |g| && g[a] == p[i];
      var b :| 0 <= b < |g| && g[b] == p[j];
      if p[i].0 == p[j].0 {
        assert a == b;
        TwiceInMultiset(p, i, j);
        OnlyOnce(g, a);
        assert false;
      }
    }
    forall d ensures HasDate(p, d) <==> HasDate(g, d) {
      if HasDate(p, d) {
        var i :| 0 <= i < |p| && p[i].0 == d;
        assert p[i] in p;
        var a :| 0 <= a < |g| && g[a] == p[i];
      }
      if HasDate(g, d) {
        var i :| 0 <= i < |g| && g[i].0 == d;
        assert g[i] in g;
        var a :| 0 <= a < |p| && p[a] == g[i];
      }
    }
    forall k | 0 <= k < |p| ensures p[k].1 == OnDate(ts, p[k].0) {
      assert p[k] in p;
      var a :| 0 <= a < |g| && g[a] == p[k];
    }
  }

  /** Under unique dates a group occurs once. */
  lemma {:induction false} OnlyOnce(g: seq<Group>, a: nat)
    requires UniqueDates(g) && a < |g|
    ensures multiset(g)[g[a]] == 1
  {
    if a == 0 {
      assert g == [g[0]] + g[1..];
      assert g[0] !in g[1..] by {
        forall i | 0 <= i < |g[1..]| ensures g[1..][i] != g[0] {
          assert g[1..][i] == g[i + 1];
        }
      }
    } else {
      assert g == [g[0]] + g[1..];
      assert UniqueDates(g[1..]) by {
        forall i, j | 0 <= i < j < |g[1..]| ensures g[1..][i].0 != g[1..][j].0 {
          assert g[1..][i] == g[i + 1] && g[1..][j] == g[j + 1];
        }
      }
      OnlyOnce(g[1..], a - 1);
      assert g[1..][a - 1] == g[a];
      assert g[0] != g[a];
    }
  }

  /* ---------------------------------------------------------------- */
  /* one row                                                           */
  /* ---------------------------------------------------------------- */

  /** A converter as the page passes it in. */
  type Converter = (real, Currency, Currency) -> real

  /** `getDisplayAmount`: converted into the display currency only when
      both a display currency and a converter are given. */
  function DisplayAmount(t: Transaction, display: Option<Currency>, convert: Option<Converter>, digits: (real, nat) -> string): (s: string)
    ensures |s| >= 1
    ensures display.Some? && convert.Some? ==> s[..1] == FormatCurrency.FormatSymbol(Code(display.value))
    ensures display.Some? && convert.Some? ==>
      s[1..] == digits(FormatCurrency.Abs(convert.value(t.amount, t.currency, display.value)), FormatCurrency.FractionDigits(Code(display.value)))
    ensures display.None? || convert.None? ==> s[..1] == FormatCurrency.FormatSymbol(Code(t.currency))
    ensures display.None? || convert.None? ==> s[1..] == digits(FormatCurrency.Abs(t.amount), FormatCurrency.FractionDigits(Code(t.currency)))
  {
    if display.Some? && convert.Some? then
      FormatCurrency.Format(convert.value(t.amount, t.currency, display.value), Code(display.value), digits)
    else FormatCurrency.Format(t.amount, Code(t.currency), digits)
  }

  /** Asking for the transaction's own currency with a converter that is
      the identity on equal currencies shows what no conversion shows. */
  lemma DisplayOwnCurrency(t: Transaction, convert: Converter, digits: (real, nat) -> string)
    requires forall x: real, c: Currency :: convert(x, c, c) == x
    ensures DisplayAmount(t, Some(t.currency), Some(convert), digits) == DisplayAmount(t, None, None, digits)
  {
  }

  /** `getDisplayCurrency`: the display currency if set, else the row's. */
  function DisplayCurrency(t: Transaction, display: Option<Currency>): (code: string)
    ensures display.Some? ==> code == Code(display.value)
    ensures display.None? ==> code == Code(t.currency)
  {
    if display.Some? then Code(display.value) else Code(t.currency)
  }

  /** The symbol in front of the amount is that of the currency named
      under it, unless a display currency is given without a converter:
      then the amount stays in the row's currency while the label names
      the display currency. */
  lemma SymbolMatchesLabel(t: Transaction, display: Option<Currency>, convert: Option<Converter>, digits: (real, nat) -> string)
    ensures DisplayAmount(t, display, convert, digits)[..1] == FormatCurrency.FormatSymbol(DisplayCurrency(t, display))
      <==> display.None? || convert.Some? || display.value == t.currency
  {
    if display.Some? && convert.None? && display.value != t.currency {
      SymbolsDiffer(t.currency, display.value);
    }
  }

  /** Different currencies have different symbols. */
  lemma SymbolsDiffer(a: Currency, b: Currency)
    requires a != b
    ensures FormatCurrency.FormatSymbol(Code(a)) != FormatCurrency.FormatSymbol(Code(b))
  {
  }

  /** Income is shown with '+', every other type with '-'. */
  function SignPrefix(kind: string): (p: string)
    ensures p == "+" <==> kind == "income"
    ensures p == "+" || p == "-"
  {
    if kind == "income" then "+" else "-"
  }

  /** The amount line of a row in the list: its sign, then its amount,
      which never carries a sign of its own. */
  function AmountLine(t: Transaction, display: Option<Currency>, convert: Option<Converter>, digits: (real, nat) -> string): (s: string)
    ensures |s| >= 2 && s[..1] == SignPrefix(t.kind)
  {
    SignPrefix(t.kind) + DisplayAmount(t, display, convert, digits)
  }

  /** Negating a stored amount does not change what the row shows. */
  lemma SignComesFromType(t: Transaction, digits: (real, nat) -> string)
    ensures AmountLine(t, None, None, digits) == AmountLine(t.(amount := -t.amount), None, None, digits)
  {
    FormatCurrency.SignDropped(t.amount, Code(t.currency), digits);
  }
}
