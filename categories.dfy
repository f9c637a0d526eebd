/**
 * `compute_categories(dep_var, nb_bins)`: the x-axis of a histogram, as the
 * list of categories the series are counted against and the list of labels
 * shown on the axis.
 *
 * A nominal variable's axis is its enumeration as strings. An integer
 * variable's axis is `numpy.arange(minimum, maximum, step)` with
 * `step = ceil((maximum - minimum) / nb_bins)` and one `"%d - %d"` label per
 * edge. The continuous branch works on floats and is supplied by the caller.
 */
module Categories {
  import opened PyValues
  import opened Records

  datatype Axis =
    | NominalAxis(categories: seq<string>, labels: seq<string>)
    | IntegerAxis(edges: seq<int>, labels: seq<string>)
    | ContinuousAxis(labels: seq<string>)

  /**
   * The nominal branch. `categories_labels = categories` binds a second name
   * to the same list, so the `'None'` appended to one and the `'No data'`
   * appended to the other both end up in that single list: when the series
   * holds a `None`, categories and labels are both the enumeration followed
   * by `'None'` and `'No data'`.
   */
  function NominalCategories(enumeration: seq<Value>, hasNulls: bool): (r: Axis)
    ensures r.NominalAxis? && r.categories == r.labels
    ensures |r.categories| == |enumeration| + (if hasNulls then 2 else 0)
    ensures forall i :: 0 <= i < |enumeration| ==> r.categories[i] == PyStr(enumeration[i])
    ensures hasNulls ==> r.categories[|enumeration|..] == ["None", "No data"]
  {
    var categories := seq(|enumeration|, i requires 0 <= i < |enumeration| => PyStr(enumeration[i]));
    var shared := if hasNulls then categories + ["None"] + ["No data"] else categories;
    NominalAxis(shared, shared)
  }

  // ---------------------------------------------------------------------------
  // Minimum and maximum of a series

  /**
   * `min(values)` and `max(values)` of a non-empty list succeed when there is
   * nothing to compare (one item) or when the items are all integers or all
   * strings; any other mix, and any `None` among two items or more, makes a
   * comparison raise `TypeError`.
   */
  predicate Orderable(values: seq<Value>)
    ensures AllInts(values) ==> Orderable(values)
    ensures |values| >= 2 && Null in values ==> !Orderable(values)
    ensures (exists v, w :: v in values && w in values && v.Int? && w.Str?) ==> !Orderable(values)
  {
    || |values| == 1
    || (forall v :: v in values ==> v.Int?)
    || (forall v :: v in values ==> v.Str?)
  }

  predicate AllInts(values: seq<Value>) {
    forall v :: v in values ==> v.Int?
  }

  function MinInt(values: seq<Value>): (m: int)
    requires |values| > 0 && AllInts(values)
    ensures Int(m) in values
    ensures forall v :: v in values ==> m <= v.i
  {
    if |values| == 1 then values[0].i
    else
      var rest := MinInt(values[1..]);
      assert forall v :: v in values[1..] ==> v in values;
      assert forall v :: v in values ==> v == values[0] || v in values[1..];
      if values[0].i <= rest then values[0].i else rest
  }

  function MaxInt(values: seq<Value>): (m: int)
    requires |values| > 0 && AllInts(values)
    ensures Int(m) in values
    ensures forall v :: v in values ==> v.i <= m
  {
    if |values| == 1 then values[0].i
    else
      var rest := MaxInt(values[1..]);
      assert forall v :: v in values[1..] ==> v in values;
      assert forall v :: v in values ==> v == values[0] || v in values[1..];
      if values[0].i >= rest then values[0].i else rest
  }

  /**
   * `dep_var.get('minValue', min(values))` (or `maxValue`/`max`) as a number:
   * the recorded bound if there is one, else the extreme of the series, or
   * `None` when that extreme is not a number (the subtraction that follows
   * then raises `TypeError`).
   */
  function Bound(recorded: Option<int>, values: seq<Value>, lower: bool): (r: Option<int>)
    requires |values| > 0
    ensures recorded.Some? ==> r == recorded
    ensures recorded.None? ==> (r.Some? <==> AllInts(values))
    ensures recorded.None? && r.Some? ==> Int(r.value) in values
    ensures recorded.None? && r.Some? && lower ==> forall v :: v in values ==> r.value <= v.i
    ensures recorded.None? && r.Some? && !lower ==> forall v :: v in values ==> v.i <= r.value
  {
    if recorded.Some? then recorded
    else if AllInts(values) then Some(if lower then MinInt(values) else MaxInt(values))
    else None
  }

  // ---------------------------------------------------------------------------
  // Integer bins

  /** `math.ceil(a / b)`, computed exactly. */
  function CeilDiv(a: int, b: int): (r: int)
    requires b != 0
    ensures b > 0 ==> (r - 1) * b < a <= r * b
    ensures b < 0 ==> r * b <= a < (r - 1) * b
  {
    if b > 0 then -((-a) / b) else -(a / (-b))
  }

  /**
   * `numpy.arange(start, stop, step)` on integers: `start, start + step, ...`
   * while below `stop` (above `stop` for a negative step).
   */
  function IntArange(start: int, stop: int, step: int): (r: seq<int>)
    requires step != 0
    ensures forall i :: 0 <= i < |r| ==> r[i] == start + i * step
    ensures step > 0 ==> (forall i :: 0 <= i < |r| ==> r[i] < stop) && start + |r| * step >= stop
    ensures step < 0 ==> (forall i :: 0 <= i < |r| ==> r[i] > stop) && start + |r| * step <= stop
    ensures |r| > 0 <==> (step > 0 && start < stop) || (step < 0 && start > stop)
    decreases if step > 0 then (if start < stop then stop - start else 0)
              else (if start > stop then start - stop else 0)
  {
    if (step > 0 && start < stop) || (step < 0 && start > stop) then
      var rest := IntArange(start + step, stop, step);
      var r := [start] + rest;
      forall i | 1 <= i < |r|
        ensures r[i] == start + i * step
      {
        ShiftedTerm(start, step, i - 1);
      }
      ShiftedTerm(start, step, |rest|);
      r
    else []
  }

  /** The term after `n` steps from `start + step` is the term after `n + 1` steps from `start`. */
  lemma ShiftedTerm(start: int, step: int, n: int)
    ensures (start + step) + n * step == start + (n + 1) * step
  {
  }

  /** `"%d - %d" % (v, v + step)` */
  function EdgeLabel(v: int, step: int): string {
    IntToDecimal(v) + " - " + IntToDecimal(v + step)
  }

  /** An edge label is the edge, `" - "` and the next edge, each part reading back as its number. */
  lemma EdgeLabelReadsBack(v: int, step: int)
    ensures var r, k := EdgeLabel(v, step), |IntToDecimal(v)|;
      && k + 3 <= |r| && r[k..k + 3] == " - "
      && ParseInt(r[..k]) == Some(v) && ParseInt(r[k + 3..]) == Some(v + step)
  {
    ParseIntOfDecimal(v);
    ParseIntOfDecimal(v + step);
    Joined(IntToDecimal(v), " - ", IntToDecimal(v + step));
  }

  /** The parts of `a + sep + b` are found again at their offsets. */
  lemma Joined(a: string, sep: string, b: string)
    ensures var r := a + sep + b;
      && r[..|a|] == a && r[|a|..|a| + |sep|] == sep && r[|a| + |sep|..] == b
  {
  }

  /**
   * The integer branch once `minimum` and `maximum` are numbers. A zero
   * `nb_bins` makes the division raise, and a zero step makes `arange` raise.
   */
  function IntegerEdges(minimum: int, maximum: int, nbBins: int): (r: Result<Axis>)
    ensures nbBins == 0 ==> r == Failure(ZeroDivisionError)
    ensures r.Failure? ==> r.error == ZeroDivisionError
    ensures r.Success? ==> r.value.IntegerAxis? && |r.value.labels| == |r.value.edges|
    ensures r.Success? <==> nbBins != 0 && CeilDiv(maximum - minimum, nbBins) != 0
  {
    if nbBins == 0 then Failure(ZeroDivisionError)
    else
      var step := CeilDiv(maximum - minimum, nbBins);
      if step == 0 then Failure(ZeroDivisionError)
      else
        var edges := IntArange(minimum, maximum, step);
        Success(IntegerAxis(edges, seq(|edges|, i requires 0 <= i < |edges| => EdgeLabel(edges[i], step))))
  }

  /**
   * With a positive number of bins and `maximum > minimum`: the step is
   * positive, the edges are `minimum, minimum + step, ...`, all below
   * `maximum`, together they reach `maximum`, there are between one and
   * `nb_bins` of them, and label i reads `"e_i - (e_i + step)"`.
   */
  lemma IntegerEdgesShape(minimum: int, maximum: int, nbBins: int)
    requires nbBins > 0 && maximum > minimum
    ensures CeilDiv(maximum - minimum, nbBins) > 0
    ensures IntegerEdges(minimum, maximum, nbBins).Success?
    ensures var axis := IntegerEdges(minimum, maximum, nbBins).value;
      1 <= |axis.edges| <= nbBins && axis.edges[0] == minimum
    ensures var step := CeilDiv(maximum - minimum, nbBins);
      var axis := IntegerEdges(minimum, maximum, nbBins).value;
      forall i :: 0 <= i < |axis.edges| ==> axis.edges[i] == minimum + i * step < maximum
    ensures var step := CeilDiv(maximum - minimum, nbBins);
      var axis := IntegerEdges(minimum, maximum, nbBins).value;
      minimum + |axis.edges| * step >= maximum
    ensures var step := CeilDiv(maximum - minimum, nbBins);
      var axis := IntegerEdges(minimum, maximum, nbBins).value;
      && |axis.labels| == |axis.edges|
      && forall i :: 0 <= i < |axis.edges| ==> axis.labels[i] == EdgeLabel(axis.edges[i], step)
  {
    var step := CeilDiv(maximum - minimum, nbBins);
    PositiveStep(maximum - minimum, nbBins, step);
    var edges := IntArange(minimum, maximum, step);
    ArangeShape(minimum, maximum, step, nbBins);
    var labels := seq(|edges|, i requires 0 <= i < |edges| => EdgeLabel(edges[i], step));
    assert IntegerEdges(minimum, maximum, nbBins) == Success(IntegerAxis(edges, labels));
  }

  /** With a positive step covering the span in `nbBins` steps, `arange` has between one and `nbBins` edges, all below `maximum`. */
  lemma ArangeShape(minimum: int, maximum: int, step: int, nbBins: int)
    requires step > 0 && minimum < maximum && maximum - minimum <= nbBins * step
    ensures var edges := IntArange(minimum, maximum, step);
      && 1 <= |edges| <= nbBins && edges[0] == minimum
      && minimum + |edges| * step >= maximum
      && forall i :: 0 <= i < |edges| ==> edges[i] == minimum + i * step && edges[i] < maximum
  {
    var edges := IntArange(minimum, maximum, step);
    var k := |edges|;
    // the last edge lies below maximum: (k - 1) * step < maximum - minimum <= nbBins * step
    assert edges[k - 1] == minimum + (k - 1) * step;
    EdgeCount(k - 1, nbBins, step, maximum - minimum);
  }

  /** A positive span split into a positive number of bins has a positive step that covers it. */
  lemma PositiveStep(span: int, nbBins: int, step: int)
    requires span > 0 && nbBins > 0 && step == CeilDiv(span, nbBins)
    ensures step > 0 && span <= nbBins * step
  {
    EdgeCount(0, step, nbBins, span);
  }

  lemma EdgeCount(a: int, b: int, step: int, span: int)
    requires step > 0 && a * step < span <= b * step
    ensures a < b
  {
    assert (b - a) * step > 0;
  }

  // ---------------------------------------------------------------------------
  // compute_categories

  /**
   * `compute_categories`. The caller supplies the continuous branch, which
   * works on floats; it is reached only after `min(values)` and `max(values)`,
   * which both numeric branches evaluate.
   */
  function ComputeCategories(dep: Variable, nbBins: int, continuous: (Variable, int) -> Result<seq<string>>): (r: Result<Axis>)
    ensures |dep.series| == 0 ==> r == Failure(EmptyDependent(dep.name))
    ensures |dep.series| > 0 && IsNominal(dep) ==>
      r == Success(NominalCategories(dep.typ.enumeration, Null in dep.series))
    ensures |dep.series| > 0 && IsInteger(dep) && Orderable(dep.series) ==>
      var minimum := Bound(dep.minValue, dep.series, true);
      var maximum := Bound(dep.maxValue, dep.series, false);
      r == if minimum.None? || maximum.None? then Failure(TypeError)
           else IntegerEdges(minimum.value, maximum.value, nbBins)
    ensures |dep.series| > 0 && !IsNominal(dep) && !Orderable(dep.series) ==> r == Failure(TypeError)
    ensures r.Success? ==> (r.value.NominalAxis? <==> IsNominal(dep)) && (r.value.IntegerAxis? <==> IsInteger(dep))
  {
    if |dep.series| == 0 then Failure(EmptyDependent(dep.name))
    else if IsNominal(dep) then Success(NominalCategories(dep.typ.enumeration, Null in dep.series))
    else if !Orderable(dep.series) then Failure(TypeError)
    else if IsInteger(dep) then
      var minimum := Bound(dep.minValue, dep.series, true);
      var maximum := Bound(dep.maxValue, dep.series, false);
      if minimum.None? || maximum.None? then Failure(TypeError)
      else IntegerEdges(minimum.value, maximum.value, nbBins)
    else
      match continuous(dep, nbBins)
      case Success(labels) => Success(ContinuousAxis(labels))
      case Failure(e) => Failure(e)
  }

  /**
   * An integer variable whose series holds only integers and that has at
   * least two distinct values gets bins spanning its smallest to its largest
   * value (recorded bounds take precedence), for any positive bin count.
   */
  lemma IntegerSeriesBins(dep: Variable, nbBins: int, continuous: (Variable, int) -> Result<seq<string>>)
    requires IsInteger(dep) && |dep.series| > 0 && AllInts(dep.series)
    requires dep.minValue == None && dep.maxValue == None
    requires nbBins > 0 && MinInt(dep.series) < MaxInt(dep.series)
    ensures var r := ComputeCategories(dep, nbBins, continuous);
      && r.Success? && r.value.IntegerAxis?
      && r.value.edges[0] == MinInt(dep.series)
      && (forall i :: 0 <= i < |r.value.edges| ==> r.value.edges[i] < MaxInt(dep.series))
      && 1 <= |r.value.edges| <= nbBins
  {
    assert !IsNominal(dep) && Orderable(dep.series);
    var minimum := MinInt(dep.series);
    var maximum := MaxInt(dep.series);
    assert Bound(dep.minValue, dep.series, true) == Some(minimum);
    assert Bound(dep.maxValue, dep.series, false) == Some(maximum);
    IntegerEdgesShape(minimum, maximum, nbBins);
    assert ComputeCategories(dep, nbBins, continuous) == IntegerEdges(minimum, maximum, nbBins);
  }
}
