/**
 * `compute_series` for a nominal dependent variable: one series `"all"`
 * counting the whole series, or, with a grouping variable, one series per
 * value of the grouping variable's enumeration, counting the dependent values
 * paired (by `zip`) with that grouping value. The numeric branch counts
 * through `numpy.histogram` and is supplied by the caller.
 */
module NominalSeries {
  import opened PyValues
  import opened Records
  import opened Counting

  /**
   * `[v for v, d in zip(dependent, grouping) if d == g]` over the first `n`
   * pairs; `zip` stops at the shorter list.
   */
  function PairedWith(dependent: seq<Value>, grouping: seq<Value>, g: Value, n: nat): (r: seq<Value>)
    requires n <= |dependent| && n <= |grouping|
    ensures |r| <= n
  {
    if n == 0 then []
    else PairedWith(dependent, grouping, g, n - 1) + (if grouping[n - 1] == g then [dependent[n - 1]] else [])
  }

  /** Pairing keeps every dependent value when the grouping value is always `g`, and none when it never is. */
  lemma {:induction false} PairedWithExtremes(dependent: seq<Value>, grouping: seq<Value>, g: Value, n: nat)
    requires n <= |dependent| && n <= |grouping|
    ensures (forall k :: 0 <= k < n ==> grouping[k] == g) ==> PairedWith(dependent, grouping, g, n) == dependent[..n]
    ensures (forall k :: 0 <= k < n ==> grouping[k] != g) ==> PairedWith(dependent, grouping, g, n) == []
  {
    if n > 0 {
      PairedWithExtremes(dependent, grouping, g, n - 1);
      assert dependent[..n] == dependent[..n - 1] + [dependent[n - 1]];
    }
  }

  function Min(a: nat, b: nat): nat { if a <= b then a else b }

  /**
   * The dependent values paired with `g`: none when the grouping value is
   * never `g`, all of them (up to the shorter length) when it always is.
   */
  function ZipFilter(dependent: seq<Value>, grouping: seq<Value>, g: Value): (r: seq<Value>)
    ensures |r| <= |dependent| && |r| <= |grouping|
    ensures (forall k :: 0 <= k < |grouping| ==> grouping[k] != g) ==> r == []
    ensures |dependent| <= |grouping| && (forall k :: 0 <= k < |grouping| ==> grouping[k] == g) ==> r == dependent
  {
    PairedWithExtremes(dependent, grouping, g, Min(|dependent|, |grouping|));
    PairedWith(dependent, grouping, g, Min(|dependent|, |grouping|))
  }

  /** The nominal branch of `compute_series`. */
  function ComputeSeries(dep: Variable, categories: seq<string>, grouping: Option<Variable>): (r: seq<Series>)
    ensures grouping.None? ==> |r| == 1 && r[0].name == Str("all")
    ensures grouping.Some? ==> |r| == |grouping.value.typ.enumeration|
    ensures forall i :: 0 <= i < |r| ==> |r[i].data| == |Distinct(categories)|
  {
    match grouping
    case None => [Series(Str("all"), Tally(dep.series, categories))]
    case Some(g) =>
      var names := g.typ.enumeration;
      seq(|names|, i requires 0 <= i < |names| =>
        Series(names[i], Tally(ZipFilter(dep.series, g.series, names[i]), categories)))
  }

  /**
   * The number of positions k below n where the grouping value is `g` and the
   * dependent value is counted under category `c`.
   */
  function PairCount(dependent: seq<Value>, grouping: seq<Value>, g: Value, c: string, n: nat): nat
    requires n <= |dependent| && n <= |grouping|
  {
    if n == 0 then 0
    else
      var here := grouping[n - 1] == g && Key(dependent[n - 1]) == c;
      PairCount(dependent, grouping, g, c, n - 1) + (if here then 1 else 0)
  }

  lemma {:induction false} PairedWithCounts(dependent: seq<Value>, grouping: seq<Value>, g: Value, c: string, n: nat)
    requires n <= |dependent| && n <= |grouping|
    ensures Occurrences(PairedWith(dependent, grouping, g, n), c) == PairCount(dependent, grouping, g, c, n)
  {
    if n > 0 {
      PairedWithCounts(dependent, grouping, g, c, n - 1);
      var prefix := PairedWith(dependent, grouping, g, n - 1);
      if grouping[n - 1] == g {
        OccurrencesSnoc(prefix, dependent[n - 1], c);
      } else {
        assert PairedWith(dependent, grouping, g, n) == prefix + [] == prefix;
      }
    }
  }

  /**
   * Grouped series: there is one per grouping value, in enumeration order,
   * named by that value, and its counter for category `Distinct(categories)[j]`
   * is the number of zipped pairs (over the shorter of the two series) whose
   * grouping value is the series' name and whose dependent value is counted
   * under that category.
   */
  lemma GroupedSeriesCounts(dep: Variable, categories: seq<string>, g: Variable, i: nat, j: nat)
    requires i < |g.typ.enumeration| && j < |Distinct(categories)|
    ensures var r := ComputeSeries(dep, categories, Some(g));
      && r[i].name == g.typ.enumeration[i]
      && r[i].data[j] == PairCount(dep.series, g.series, g.typ.enumeration[i], Distinct(categories)[j],
                                   Min(|dep.series|, |g.series|))
  {
    PairedWithCounts(dep.series, g.series, g.typ.enumeration[i], Distinct(categories)[j], Min(|dep.series|, |g.series|));
  }

  /** Without grouping, the single series `"all"` is `count` of the whole dependent series. */
  lemma UngroupedSeriesCounts(dep: Variable, categories: seq<string>, j: nat)
    requires j < |Distinct(categories)|
    ensures ComputeSeries(dep, categories, None)[0].data[j] == Occurrences(dep.series, Distinct(categories)[j])
  {
  }

  /** The positions k below n whose grouping value is one of `names` and whose dependent value is counted under `c`. */
  function PairCountIn(dependent: seq<Value>, grouping: seq<Value>, names: seq<Value>, c: string, n: nat): nat
    requires n <= |dependent| && n <= |grouping|
  {
    if n == 0 then 0
    else
      var here := grouping[n - 1] in names && Key(dependent[n - 1]) == c;
      PairCountIn(dependent, grouping, names, c, n - 1) + (if here then 1 else 0)
  }

  /** Column j of a list of series: the sum of their j-th counters. */
  function ColumnSum(series: seq<Series>, j: nat): nat
    requires forall i :: 0 <= i < |series| ==> j < |series[i].data| && series[i].data[j] >= 0
  {
    if series == [] then 0 else series[0].data[j] as nat + ColumnSum(series[1..], j)
  }

  lemma {:induction false} PairCountInCons(dependent: seq<Value>, grouping: seq<Value>, names: seq<Value>, c: string, n: nat)
    requires n <= |dependent| && n <= |grouping|
    requires |names| > 0 && names[0] !in names[1..]
    ensures PairCountIn(dependent, grouping, names, c, n)
         == PairCount(dependent, grouping, names[0], c, n) + PairCountIn(dependent, grouping, names[1..], c, n)
  {
    if n > 0 {
      PairCountInCons(dependent, grouping, names, c, n - 1);
      var x := grouping[n - 1];
      assert x in names <==> x == names[0] || x in names[1..] by {
        assert names == [names[0]] + names[1..];
      }
      var counted := Key(dependent[n - 1]) == c;
      assert (if x in names && counted then 1 else 0)
          == (if x == names[0] && counted then 1 else 0) + (if x in names[1..] && counted then 1 else 0);
      assert PairCountIn(dependent, grouping, names, c, n)
          == PairCountIn(dependent, grouping, names, c, n - 1) + (if x in names && counted then 1 else 0);
    }
  }

  lemma {:induction false} PairCountInBound(dependent: seq<Value>, grouping: seq<Value>, names: seq<Value>, c: string, n: nat)
    requires n <= |dependent| && n <= |grouping|
    ensures PairCountIn(dependent, grouping, names, c, n) <= Occurrences(dependent[..n], c)
    ensures (forall k :: 0 <= k < n ==> grouping[k] in names) ==>
      PairCountIn(dependent, grouping, names, c, n) == Occurrences(dependent[..n], c)
  {
    if n > 0 {
      PairCountInBound(dependent, grouping, names, c, n - 1);
      assert dependent[..n][..n - 1] == dependent[..n - 1];
    }
  }

  lemma {:induction false} GroupColumns(dep: Variable, categories: seq<string>, g: Variable, names: seq<Value>, j: nat)
    requires NoDuplicates(names) && j < |Distinct(categories)|
    ensures var m := Min(|dep.series|, |g.series|);
      var series := seq(|names|, i requires 0 <= i < |names| =>
        Series(names[i], Tally(ZipFilter(dep.series, g.series, names[i]), categories)));
      ColumnSum(series, j) == PairCountIn(dep.series, g.series, names, Distinct(categories)[j], m)
  {
    var m := Min(|dep.series|, |g.series|);
    var c := Distinct(categories)[j];
    var series := seq(|names|, i requires 0 <= i < |names| =>
      Series(names[i], Tally(ZipFilter(dep.series, g.series, names[i]), categories)));
    if names == [] {
      PairCountInNone(dep.series, g.series, c, m);
    } else {
      var rest := names[1..];
      assert series[1..] == seq(|rest|, i requires 0 <= i < |rest| =>
        Series(rest[i], Tally(ZipFilter(dep.series, g.series, rest[i]), categories)));
      GroupColumns(dep, categories, g, rest, j);
      assert names[0] !in rest by {
        forall i | 0 <= i < |rest| ensures rest[i] != names[0] { assert rest[i] == names[i + 1]; }
      }
      PairCountInCons(dep.series, g.series, names, c, m);
      PairedWithCounts(dep.series, g.series, names[0], c, m);
    }
  }

  lemma {:induction false} PairCountInNone(dependent: seq<Value>, grouping: seq<Value>, c: string, n: nat)
    requires n <= |dependent| && n <= |grouping|
    ensures PairCountIn(dependent, grouping, [], c, n) == 0
  {
    if n > 0 {
      PairCountInNone(dependent, grouping, c, n - 1);
    }
  }

  /**
   * The grouped series split the zipped prefix of the dependent series: when
   * the grouping enumeration has no repeated value, the counters of one
   * category summed over all grouped series never exceed the number of values
   * in the prefix counted under that category, and equal it when every paired
   * grouping value belongs to the enumeration.
   */
  lemma GroupedSeriesPartition(dep: Variable, categories: seq<string>, g: Variable, j: nat)
    requires NoDuplicates(g.typ.enumeration) && j < |Distinct(categories)|
    ensures var m := Min(|dep.series|, |g.series|);
      var r := ComputeSeries(dep, categories, Some(g));
      var c := Distinct(categories)[j];
      && ColumnSum(r, j) <= Occurrences(dep.series[..m], c)
      && ((forall k :: 0 <= k < m ==> g.series[k] in g.typ.enumeration) ==>
          ColumnSum(r, j) == Occurrences(dep.series[..m], c))
  {
    var m := Min(|dep.series|, |g.series|);
    GroupColumns(dep, categories, g, g.typ.enumeration, j);
    PairCountInBound(dep.series, g.series, g.typ.enumeration, Distinct(categories)[j], m);
  }
}
