/**
 * The dashboard's pie chart of expenses per category: the positive
 * per-name totals, each with the colour of the first category of that
 * name, largest first; the no-data panel; and which slices get a
 * percentage label.
 */
module CategoryPieChart {
  import opened Types
  import opened Sorting
  import Dashboard

  const DefaultColor := "#e8a76f"

  datatype Slice = Slice(name: string, value: real, color: string)

  /** `categories[i]` is the first category with this name. */
  predicate FirstNamed(categories: seq<Category>, name: string, i: nat) {
    i < |categories| && categories[i].name == name && forall j :: 0 <= j < i ==> categories[j].name != name
  }

  /** `categories.find((c) => c.name === name)?.color || '#e8a76f'`. */
  function ColorFor(categories: seq<Category>, name: string): (color: string)
    ensures color != ""
    ensures (forall i :: 0 <= i < |categories| ==> categories[i].name != name) ==> color == DefaultColor
    ensures forall i: nat :: FirstNamed(categories, name, i) ==> color == (if categories[i].color == "" then DefaultColor else categories[i].color)
  {
    if categories == [] then DefaultColor
    else if categories[0].name == name then
      (if categories[0].color == "" then DefaultColor else categories[0].color)
    else
      assert forall i: nat :: 0 < i && FirstNamed(categories, name, i) ==> FirstNamed(categories[1..], name, i - 1);
      ColorFor(categories[1..], name)
  }

  function SliceOf(e: (string, real), categories: seq<Category>): Slice {
    Slice(e.0, e.1, ColorFor(categories, e.0))
  }

  /** `s` is the slice of some positive entry. */
  predicate FromEntry(entries: Dashboard.Entries, categories: seq<Category>, s: Slice) {
    exists i :: 0 <= i < |entries| && entries[i].1 > 0.0 && s == SliceOf(entries[i], categories)
  }

  /** `.filter(([, value]) => value > 0).map(...)`. */
  function Positive(entries: Dashboard.Entries, categories: seq<Category>): (r: seq<Slice>)
    ensures forall s :: s in r <==> FromEntry(entries, categories, s)
  {
    if entries == [] then []
    else
      var e := entries[0];
      var rest := Positive(entries[1..], categories);
      forall s ensures FromEntry(entries, categories, s) <==> (e.1 > 0.0 && s == SliceOf(e, categories)) || FromEntry(entries[1..], categories, s) {
        if FromEntry(entries[1..], categories, s) {
          var i :| 0 <= i < |entries[1..]| && entries[1..][i].1 > 0.0 && s == SliceOf(entries[1..][i], categories);
          assert entries[i + 1] == entries[1..][i];
        }
        if FromEntry(entries, categories, s) {
          var i :| 0 <= i < |entries| && entries[i].1 > 0.0 && s == SliceOf(entries[i], categories);
          if i > 0 {
            assert entries[1..][i - 1] == entries[i];
          }
        }
      }
      (if e.1 > 0.0 then [SliceOf(e, categories)] else []) + rest
  }

  /** With one entry per name, as the per-category totals have, each
      positive entry gives exactly one slice. */
  lemma {:induction false} PositiveOnce(entries: Dashboard.Entries, categories: seq<Category>)
    requires Dashboard.UniqueKeys(entries)
    ensures forall s :: multiset(Positive(entries, categories))[s] == if FromEntry(entries, categories, s) then 1 else 0
  {
    if entries != [] {
      var e := entries[0];
      var tail := entries[1..];
      assert Dashboard.UniqueKeys(tail) by {
        forall i, j | 0 <= i < j < |tail| ensures tail[i].0 != tail[j].0 {
          assert tail[i] == entries[i + 1] && tail[j] == entries[j + 1];
        }
      }
      PositiveOnce(tail, categories);
      if e.1 > 0.0 {
        assert !FromEntry(tail, categories, SliceOf(e, categories)) by {
          forall i | 0 <= i < |tail| ensures tail[i].0 != e.0 {
            assert tail[i] == entries[i + 1];
          }
        }
      }
    }
  }

  /** `.sort((a, b) => b.value - a.value)`: larger values first. */
  predicate LargerFirst(a: Slice, b: Slice) {
    a.value >= b.value
  }

  lemma LargerFirstIsPreorder()
    ensures TotalPreorder(LargerFirst)
  {
  }

  /** `chartData`: the slices of the positive totals, largest first. */
  function ChartData(entries: Dashboard.Entries, categories: seq<Category>): (r: seq<Slice>)
    ensures multiset(r) == multiset(Positive(entries, categories))
    ensures SortedBy(r, LargerFirst)
    ensures forall s :: s in r <==> FromEntry(entries, categories, s)
  {
    var p := Positive(entries, categories);
    LargerFirstIsPreorder();
    SortSorted(p, LargerFirst);
    var r := Sort(p, LargerFirst);
    forall s ensures s in r <==> s in p {
      assert s in r <==> s in multiset(r);
      assert s in p <==> s in multiset(p);
    }
    r
  }

  /** With one entry per name, the chart has exactly one slice per
      positive entry. */
  lemma ChartDataOnce(entries: Dashboard.Entries, categories: seq<Category>)
    requires Dashboard.UniqueKeys(entries)
    ensures forall s :: multiset(ChartData(entries, categories))[s] == if FromEntry(entries, categories, s) then 1 else 0
  {
    PositiveOnce(entries, categories);
  }

  /** What the chart card shows. */
  datatype View = NoData | Pie(slices: seq<Slice>)

  /** There is a slice exactly when some entry is positive. */
  lemma SlicesIffPositive(entries: Dashboard.Entries, categories: seq<Category>)
    ensures |ChartData(entries, categories)| > 0 <==> exists i :: 0 <= i < |entries| && entries[i].1 > 0.0
  {
    var data := ChartData(entries, categories);
    if exists i :: 0 <= i < |entries| && entries[i].1 > 0.0 {
      var i :| 0 <= i < |entries| && entries[i].1 > 0.0;
      assert SliceOf(entries[i], categories) in data;
    }
    if |data| > 0 {
      assert data[0] in data;
    }
  }

  /** The card: the no-data panel when `chartData` is empty, which is
      exactly when no category has a positive total. */
  function Render(entries: Dashboard.Entries, categories: seq<Category>): (v: View)
    ensures v.NoData? <==> forall i :: 0 <= i < |entries| ==> entries[i].1 <= 0.0
    ensures v.Pie? ==> v.slices == ChartData(entries, categories) && |v.slices| > 0
  {
    SlicesIffPositive(entries, categories);
    var data := ChartData(entries, categories);
    if |data| == 0 then NoData else Pie(data)
  }

  /* ---------------------------------------------------------------- */
  /* labels                                                            */
  /* ---------------------------------------------------------------- */

  function SumValues(s: seq<Slice>): real {
    if s == [] then 0.0 else s[0].value + SumValues(s[1..])
  }

  /** A slice's share of the pie. */
  function Percent(s: seq<Slice>, i: nat): real
    requires i < |s| && SumValues(s) > 0.0
  {
    s[i].value / SumValues(s)
  }

  /** `renderCustomLabel` draws nothing for a share under five percent. */
  predicate LabelShown(percent: real) {
    !(percent < 0.05)
  }

  /** The number of slices worth at least `t`. */
  function CountAtLeast(s: seq<Slice>, t: real): (n: nat)
    ensures n <= |s|
  {
    if s == [] then 0 else (if s[0].value >= t then 1 else 0) + CountAtLeast(s[1..], t)
  }

  /** No slice reaches the threshold exactly when the count is zero. */
  lemma {:induction false} CountZeroIff(s: seq<Slice>, t: real)
    ensures CountAtLeast(s, t) == 0 <==> forall i :: 0 <= i < |s| ==> s[i].value < t
  {
    if s != [] {
      CountZeroIff(s[1..], t);
      assert forall i :: 1 <= i < |s| ==> s[i] == s[1..][i - 1];
    }
  }

  /** `n` copies of `t` added up. */
  function Times(n: nat, t: real): real {
    if n == 0 then 0.0 else Times(n - 1, t) + t
  }

  lemma {:induction false} TimesIsProduct(n: nat, t: real)
    ensures Times(n, t) == n as real * t
  {
    if n > 0 {
      TimesIsProduct(n - 1, t);
      assert (n - 1) as real * t + t == n as real * t;
    }
  }

  lemma {:induction false} TimesStrict(n: nat, m: nat, t: real)
    requires t > 0.0
    ensures n > m ==> Times(n, t) > Times(m, t)
  {
    if n > m + 1 {
      TimesStrict(n - 1, m, t);
    }
  }

  /** However small the slices, those worth at least `t` together are
      worth no more than the whole. */
  lemma {:induction false} CountBound(s: seq<Slice>, t: real)
    requires t > 0.0 && forall i :: 0 <= i < |s| ==> s[i].value > 0.0
    ensures Times(CountAtLeast(s, t), t) <= SumValues(s)
  {
    if s != [] {
      CountBound(s[1..], t);
    }
  }

  /** Labelled slices: those whose share is at least five percent. */
  function Labelled(s: seq<Slice>): nat
    requires SumValues(s) > 0.0
  {
    CountAtLeast(s, 0.05 * SumValues(s))
  }

  lemma LabelledAgrees(s: seq<Slice>, i: nat)
    requires i < |s| && SumValues(s) > 0.0
    ensures LabelShown(Percent(s, i)) <==> s[i].value >= 0.05 * SumValues(s)
  {
    ShareThreshold(s[i].value, SumValues(s));
  }

  lemma ShareThreshold(v: real, total: real)
    requires total > 0.0
    ensures v / total >= 0.05 <==> v >= 0.05 * total
  {
    var p := v / total;
    assert p * total == v;
    if p >= 0.05 {
      MulMono(0.05, p, total);
    } else {
      MulMono(p, 0.05, total);
    }
  }

  lemma MulMono(a: real, b: real, t: real)
    requires t > 0.0 && a <= b
    ensures a * t <= b * t
  {
  }

  /** Of positive slices, at most twenty carry a label. */
  lemma AtMostTwentyLabels(s: seq<Slice>)
    requires forall i :: 0 <= i < |s| ==> s[i].value > 0.0
    requires SumValues(s) > 0.0
    ensures Labelled(s) <= 20
  {
    var total := SumValues(s);
    var t := 0.05 * total;
    var n := CountAtLeast(s, t);
    assert Labelled(s) == n;
    CountBound(s, t);
    TimesIsProduct(20, t);
    TimesStrict(n, 20, t);
  }

  /** Every slice of the chart is positive. */
  lemma ChartSlicesPositive(entries: Dashboard.Entries, categories: seq<Category>)
    ensures forall i :: 0 <= i < |ChartData(entries, categories)| ==> ChartData(entries, categories)[i].value > 0.0
  {
    var r := ChartData(entries, categories);
    forall i | 0 <= i < |r| ensures r[i].value > 0.0 {
      assert r[i] in r;
    }
  }
}
