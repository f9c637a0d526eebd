/**
 * `compute_histogram(s)` and `error_histogram(s)`: one histogram of the
 * dependent variable, labelled `"Histogram"`, then one per nominal independent
 * variable, labelled `"Histogram - <name>"`; the error variants have the same
 * labels and no categories or series.
 */
module HistogramAssembly {
  import opened PyValues
  import opened Records
  import opened Counting
  import opened Categories
  import opened NominalSeries

  /**
   * The numeric parts of the computation, which work on floats or through
   * `numpy.histogram` and are not modelled: the continuous branch of
   * `compute_categories` and the numeric branch of `compute_series`.
   */
  datatype NumericBackend = NumericBackend(
    continuousLabels: (Variable, int) -> Result<seq<string>>,
    numericSeries: (Variable, Axis, Option<Variable>) -> Result<seq<Series>>)

  /** `"Histogram"`, then `" - <name>"` of the grouping variable if there is one. */
  function HistogramLabel(grouping: Option<Variable>): string {
    match grouping
    case None => "Histogram"
    case Some(g) => "Histogram" + " - " + g.name
  }

  lemma GroupedLabel(g: Variable)
    ensures HistogramLabel(Some(g)) == "Histogram - " + g.name
  {
  }

  /**
   * The labels tell the groupings apart: two histograms have the same label
   * exactly when both are ungrouped or both are grouped by variables of the
   * same name. This is what lets the aggregation gather one grouping's
   * histograms from every node by label.
   */
  lemma LabelsIdentifyGrouping(a: Option<Variable>, b: Option<Variable>)
    ensures HistogramLabel(a) == HistogramLabel(b) <==>
      (a.None? && b.None?) || (a.Some? && b.Some? && a.value.name == b.value.name)
  {
    var la, lb := HistogramLabel(a), HistogramLabel(b);
    if a.Some? && b.Some? && la == lb {
      assert la[12..] == a.value.name;
      assert lb[12..] == b.value.name;
    }
  }

  /** `"<dep> histogram"`, then `" by <name>"` of the grouping variable if there is one. */
  function HistogramTitle(dep: Variable, grouping: Option<Variable>): string {
    match grouping
    case None => dep.name + " histogram"
    case Some(g) => dep.name + " histogram" + " by " + g.name
  }

  function ErrorTitle(dep: Variable, grouping: Option<Variable>): string {
    match grouping
    case None => dep.name + " histogram (no data or error)"
    case Some(g) => dep.name + " histogram (no data or error)" + " by " + g.name
  }

  /**
   * Both titles start with the dependent variable's name and end with the
   * grouping variable's, and an error histogram's title never coincides with
   * that of a computed one.
   */
  lemma Titles(dep: Variable, grouping: Option<Variable>)
    ensures var t, e := HistogramTitle(dep, grouping), ErrorTitle(dep, grouping);
      && |t| > |dep.name| && t[..|dep.name|] == dep.name
      && |e| > |dep.name| && e[..|dep.name|] == dep.name
      && (grouping.Some? ==> |t| >= |grouping.value.name| && t[|t| - |grouping.value.name|..] == grouping.value.name)
      && (grouping.Some? ==> |e| >= |grouping.value.name| && e[|e| - |grouping.value.name|..] == grouping.value.name)
      && t != e
  {
    var t, e := HistogramTitle(dep, grouping), ErrorTitle(dep, grouping);
    var k := |dep.name|;
    assert e[k + 11] == '(';
    if grouping.Some? {
      assert t[k + 11] == 'b';
    } else {
      assert |t| < |e|;
    }
  }

  /**
   * `compute_histogram`: raises exactly what `compute_categories` (or the
   * numeric series) raises; otherwise the x-axis is the axis labels, and a
   * nominal dependent variable gets one series `"all"` or one per grouping
   * value, each with one counter per distinct category.
   */
  function ComputeHistogram(dep: Variable, grouping: Option<Variable>, nbBins: int, backend: NumericBackend): (r: Result<Histogram>)
    ensures |dep.series| == 0 ==> r == Failure(EmptyDependent(dep.name))
    ensures IsNominal(dep) ==> (r.Success? <==> |dep.series| > 0)
    ensures r.Success? ==> r.value.labelText == HistogramLabel(grouping) && r.value.title == HistogramTitle(dep, grouping)
    ensures r.Success? && IsNominal(dep) ==>
      var axis := ComputeCategories(dep, nbBins, backend.continuousLabels).value;
      && r.value.categories == axis.labels
      && (grouping.None? ==> |r.value.series| == 1 && r.value.series[0].name == Str("all"))
      && (grouping.Some? ==> |r.value.series| == |grouping.value.typ.enumeration|)
      && forall i :: 0 <= i < |r.value.series| ==> |r.value.series[i].data| == |Distinct(axis.categories)|
    ensures r.Success? ==> ComputeCategories(dep, nbBins, backend.continuousLabels).Success?
    ensures r.Success? ==> r.value.categories == ComputeCategories(dep, nbBins, backend.continuousLabels).value.labels
    ensures r.Success? && IsNominal(dep) ==>
      r.value.series == ComputeSeries(dep, ComputeCategories(dep, nbBins, backend.continuousLabels).value.categories, grouping)
  {
    match ComputeCategories(dep, nbBins, backend.continuousLabels)
    case Failure(e) => Failure(e)
    case Success(axis) =>
      var series :=
        if axis.NominalAxis? then Success(ComputeSeries(dep, axis.categories, grouping))
        else backend.numericSeries(dep, axis, grouping);
      match series
      case Failure(e) => Failure(e)
      case Success(s) => Success(Histogram(HistogramLabel(grouping), HistogramTitle(dep, grouping), axis.labels, s))
  }

  /** `error_histogram`: the same label, an error title, no categories and no series. */
  function ErrorHistogram(dep: Variable, grouping: Option<Variable>): (r: Histogram)
    ensures r.labelText == HistogramLabel(grouping) && r.categories == [] && r.series == []
  {
    Histogram(HistogramLabel(grouping), ErrorTitle(dep, grouping), [], [])
  }

  /** Grouping variable i is the first whose histogram raises, and it raises `e`. */
  predicate FirstFailure(dep: Variable, groups: seq<Variable>, nbBins: int, backend: NumericBackend, i: int, e: Error) {
    && 0 <= i < |groups|
    && ComputeHistogram(dep, None, nbBins, backend).Success?
    && (forall k :: 0 <= k < i ==> ComputeHistogram(dep, Some(groups[k]), nbBins, backend).Success?)
    && ComputeHistogram(dep, Some(groups[i]), nbBins, backend) == Failure(e)
  }

  /**
   * `compute_histograms`. `len(dep_var) > 0` tests whether the dependent
   * record is there at all (a missing record is `[]`; a record always has
   * keys), so `None` here stands for the missing record; a present record with
   * an empty series reaches `compute_categories`, which raises.
   */
  method ComputeHistograms(dep: Option<Variable>, indeps: seq<Variable>, nbBins: int, backend: NumericBackend)
    returns (r: Result<seq<Histogram>>)
    ensures dep.None? ==> r == Success([])
    ensures dep.Some? && |dep.value.series| == 0 ==> r == Failure(EmptyDependent(dep.value.name))
    ensures dep.Some? && r.Success? ==>
      var groups := NominalVars(indeps);
      && |r.value| == 1 + |groups|
      && Success(r.value[0]) == ComputeHistogram(dep.value, None, nbBins, backend)
      && (forall i :: 0 <= i < |groups| ==> Success(r.value[i + 1]) == ComputeHistogram(dep.value, Some(groups[i]), nbBins, backend))
    ensures dep.Some? && r.Success? ==>
      var groups := NominalVars(indeps);
      && r.value[0].labelText == "Histogram"
      && (forall i :: 0 <= i < |groups| ==> r.value[i + 1].labelText == "Histogram - " + groups[i].name)
    ensures dep.Some? && r.Failure? ==>
      var groups := NominalVars(indeps);
      || ComputeHistogram(dep.value, None, nbBins, backend) == Failure(r.error)
      || exists i :: FirstFailure(dep.value, groups, nbBins, backend, i, r.error)
  {
    var histograms: seq<Histogram> := [];
    if dep.Some? {
      var first := ComputeHistogram(dep.value, None, nbBins, backend);
      if first.Failure? {
        return Failure(first.error);
      }
      histograms := histograms + [first.value];
      var groups := NominalVars(indeps);
      var i := 0;
      while i < |groups|
        invariant 0 <= i <= |groups|
        invariant |histograms| == 1 + i
        invariant Success(histograms[0]) == first
        invariant forall k :: 0 <= k < i ==> Success(histograms[k + 1]) == ComputeHistogram(dep.value, Some(groups[k]), nbBins, backend)
        invariant forall k :: 0 <= k < i ==> ComputeHistogram(dep.value, Some(groups[k]), nbBins, backend).Success?
      {
        var h := ComputeHistogram(dep.value, Some(groups[i]), nbBins, backend);
        if h.Failure? {
          r := Failure(h.error);
          assert FirstFailure(dep.value, groups, nbBins, backend, i, r.error);
          assert exists j :: FirstFailure(dep.value, NominalVars(indeps), nbBins, backend, j, r.error);
          return;
        }
        histograms := histograms + [h.value];
        i := i + 1;
      }
      forall k | 0 <= k < |groups|
        ensures HistogramLabel(Some(groups[k])) == "Histogram - " + groups[k].name
      {
        GroupedLabel(groups[k]);
      }
    }
    return Success(histograms);
  }

  /** `error_histograms`: the same list shape as `compute_histograms`, every entry empty. */
  method ErrorHistograms(dep: Option<Variable>, indeps: seq<Variable>) returns (r: seq<Histogram>)
    ensures dep.None? ==> r == []
    ensures dep.Some? ==>
      var groups := NominalVars(indeps);
      && |r| == 1 + |groups|
      && r[0] == ErrorHistogram(dep.value, None)
      && (forall i :: 0 <= i < |groups| ==> r[i + 1] == ErrorHistogram(dep.value, Some(groups[i])))
      && r[0].labelText == "Histogram"
      && (forall i :: 0 <= i < |groups| ==> r[i + 1].labelText == "Histogram - " + groups[i].name)
    ensures forall h :: h in r ==> h.categories == [] && h.series == []
  {
    r := [];
    if dep.Some? {
      r := r + [ErrorHistogram(dep.value, None)];
      var groups := NominalVars(indeps);
      var i := 0;
      while i < |groups|
        invariant 0 <= i <= |groups|
        invariant |r| == 1 + i
        invariant r[0] == ErrorHistogram(dep.value, None)
        invariant forall k :: 0 <= k < i ==> r[k + 1] == ErrorHistogram(dep.value, Some(groups[k]))
      {
        r := r + [ErrorHistogram(dep.value, Some(groups[i]))];
        i := i + 1;
      }
      forall k | 0 <= k < |groups|
        ensures r[k + 1].labelText == "Histogram - " + groups[k].name
      {
        GroupedLabel(groups[k]);
      }
      forall j | 0 <= j < |r|
        ensures r[j].categories == [] && r[j].series == []
      {
        if j > 0 { assert r[(j - 1) + 1] == ErrorHistogram(dep.value, Some(groups[j - 1])); }
      }
    }
  }
}
