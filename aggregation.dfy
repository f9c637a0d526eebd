/**
 * `aggregate_histograms` and `_load_intermediate_data`: the histogram lists
 * computed on separate nodes are chained together, grouped by label in
 * ascending label order, and each group is merged into its first histogram by
 * accumulating the series by name.
 *
 * The accumulator is a dict from series name to data. The names of the first
 * histogram start out as numpy arrays, on which `+=` adds element-wise. As
 * written, a name first met in a later histogram is stored as the plain list
 * it came with, on which `+=` concatenates. The merge and the aggregation
 * take that choice as a parameter (`Unseen`): `AsList` is the program as
 * written, `AsArray` stores such a name as an array, so that it is summed.
 */
module Aggregation {
  import opened PyValues
  import opened Records
  import Counting

  /** A job's stored result, already parsed; an empty or missing result is an empty list. */
  datatype JobResult = JobResult(jobId: string, histograms: seq<Histogram>)

  // ---------------------------------------------------------------------------
  // _load_intermediate_data

  /** `itertools.chain` of the jobs' lists, in job order. */
  function Chain(jobs: seq<JobResult>): (r: seq<Histogram>)
    ensures |r| == 0 <==> forall j :: 0 <= j < |jobs| ==> jobs[j].histograms == []
    ensures forall h :: h in r <==> exists j :: 0 <= j < |jobs| && h in jobs[j].histograms
    ensures |jobs| == 1 ==> r == jobs[0].histograms
  {
    if jobs == [] then []
    else
      var rest := Chain(jobs[1..]);
      assert forall j :: 1 <= j < |jobs| ==> jobs[j] == jobs[1..][j - 1];
      jobs[0].histograms + rest
  }

  /** Chaining two runs of jobs chains their lists: the order of the jobs is the order of the histograms. */
  lemma {:induction false} ChainAppend(a: seq<JobResult>, b: seq<JobResult>)
    ensures Chain(a + b) == Chain(a) + Chain(b)
  {
    if a == [] {
      assert a + b == b;
    } else {
      assert (a + b)[1..] == a[1..] + b;
      ChainAppend(a[1..], b);
    }
  }

  function JobIds(jobs: seq<JobResult>): seq<string> {
    seq(|jobs|, i requires 0 <= i < |jobs| => jobs[i].jobId)
  }

  /** `_load_intermediate_data`: the chained histograms, or a `UserError` when there are none at all. */
  function LoadIntermediateData(jobs: seq<JobResult>): (r: Result<seq<Histogram>>)
    ensures r.Failure? <==> forall j :: 0 <= j < |jobs| ==> jobs[j].histograms == []
    ensures r.Failure? ==> r.error == NoIntermediateData(JobIds(jobs))
    ensures r.Success? ==> |r.value| > 0 && r.value == Chain(jobs)
  {
    var data := Chain(jobs);
    if |data| == 0 then Failure(NoIntermediateData(JobIds(jobs))) else Success(data)
  }

  // ---------------------------------------------------------------------------
  // sorted(data, key=label) followed by itertools.groupby(..., key=label)

  predicate StrictlyAscending(labels: seq<string>) {
    forall i, j :: 0 <= i < j < |labels| ==> LexLess(labels[i], labels[j])
  }

  function InsertLabel(sorted: seq<string>, l: string): (r: seq<string>)
    requires StrictlyAscending(sorted)
    ensures StrictlyAscending(r)
    ensures forall x :: x in r <==> x in sorted || x == l
  {
    if sorted == [] then [l]
    else if l == sorted[0] then sorted
    else if LexLess(l, sorted[0]) then
      assert forall j :: 0 <= j < |sorted| ==> LexLess(l, sorted[j]) by {
        forall j | 0 <= j < |sorted| ensures LexLess(l, sorted[j]) {
          if j > 0 { LexLessTransitive(l, sorted[0], sorted[j]); }
        }
      }
      [l] + sorted
    else
      LexLessTotal(l, sorted[0]);
      var rest := InsertLabel(sorted[1..], l);
      assert forall x :: x in sorted <==> x == sorted[0] || x in sorted[1..] by {
        assert sorted == [sorted[0]] + sorted[1..];
      }
      assert forall j :: 0 <= j < |rest| ==> LexLess(sorted[0], rest[j]) by {
        forall j | 0 <= j < |rest| ensures LexLess(sorted[0], rest[j]) {
          assert rest[j] in rest;
        }
      }
      [sorted[0]] + rest
  }

  predicate HasLabel(data: seq<Histogram>, l: string) {
    exists h :: h in data && h.labelText == l
  }

  /** The distinct labels of `data`, in ascending order: the keys `groupby` yields after the sort. */
  function SortedLabels(data: seq<Histogram>): (r: seq<string>)
    ensures StrictlyAscending(r)
    ensures forall l :: l in r <==> HasLabel(data, l)
  {
    if data == [] then []
    else
      var prefix := data[..|data| - 1];
      var last := data[|data| - 1];
      assert forall h :: h in data <==> h in prefix || h == last by {
        assert data == prefix + [last];
      }
      InsertLabel(SortedLabels(prefix), last.labelText)
  }

  /** The histograms with label `l`, in their input order: `sorted` is stable, so that is a group's order. */
  function WithLabel(data: seq<Histogram>, l: string): (r: seq<Histogram>)
    ensures forall h :: h in r <==> h in data && h.labelText == l
    ensures |r| > 0 <==> HasLabel(data, l)
    ensures |data| == 1 ==> r == if data[0].labelText == l then data else []
  {
    if data == [] then []
    else
      assert forall h :: h in data <==> h == data[0] || h in data[1..] by {
        assert data == [data[0]] + data[1..];
      }
      (if data[0].labelText == l then [data[0]] else []) + WithLabel(data[1..], l)
  }

  /** Selecting a label from two runs of histograms selects it from each, in order. */
  lemma {:induction false} WithLabelAppend(a: seq<Histogram>, b: seq<Histogram>, l: string)
    ensures WithLabel(a + b, l) == WithLabel(a, l) + WithLabel(b, l)
  {
    if a == [] {
      assert a + b == b;
    } else {
      var h, t := a[0], a[1..];
      assert a == [h] + t && a + b == [h] + (t + b);
      WithLabelCons(h, t, l);
      WithLabelCons(h, t + b, l);
      WithLabelAppend(t, b, l);
      Associative(if h.labelText == l then [h] else [], WithLabel(t, l), WithLabel(b, l));
    }
  }

  lemma WithLabelCons(h: Histogram, rest: seq<Histogram>, l: string)
    ensures WithLabel([h] + rest, l) == (if h.labelText == l then [h] else []) + WithLabel(rest, l)
  {
    assert ([h] + rest)[0] == h && ([h] + rest)[1..] == rest;
  }

  // ---------------------------------------------------------------------------
  // The series accumulator

  /** A dict value: a numpy array (from the first histogram) or a plain list (from a later one). */
  datatype Acc = Arr(values: seq<int>) | Lst(values: seq<int>)

  /**
   * How a name first met in a later histogram is stored. `AsList` is what
   * the merge does, keeping the plain list it came with; `AsArray` stores it
   * as an array, like the names of the first histogram, so that further
   * series of that name are summed.
   */
  datatype Unseen = AsList | AsArray

  function Fresh(unseen: Unseen, data: seq<int>): (r: Acc)
    ensures r.values == data && (r.Arr? <==> unseen.AsArray?)
  {
    match unseen
    case AsList => Lst(data)
    case AsArray => Arr(data)
  }

  /** An insertion-ordered dict from series name to accumulated data. */
  datatype Table = Table(names: seq<Value>, accs: map<Value, Acc>)

  predicate ValidTable(t: Table) {
    && (forall i, j :: 0 <= i < j < |t.names| ==> t.names[i] != t.names[j])
    && (forall n :: n in t.accs ==> n in t.names)
    && (forall i :: 0 <= i < |t.names| ==> t.names[i] in t.accs)
  }

  const EmptyTable: Table := Table([], map[])

  /** `series[name] = acc`: a new name goes last, an existing one keeps its place. */
  function Put(t: Table, name: Value, acc: Acc): (r: Table)
    requires ValidTable(t)
    ensures ValidTable(r)
    ensures r.accs == t.accs[name := acc]
    ensures name in t.accs ==> r.names == t.names
    ensures name !in t.accs ==> r.names == t.names + [name]
  {
    if name in t.accs then Table(t.names, t.accs[name := acc]) else Table(t.names + [name], t.accs[name := acc])
  }

  function AddElementwise(a: seq<int>, b: seq<int>): (r: seq<int>)
    requires |a| == |b|
    ensures |r| == |a| && forall i :: 0 <= i < |r| ==> r[i] == a[i] + b[i]
  {
    seq(|a|, i requires 0 <= i < |a| => a[i] + b[i])
  }

  /**
   * `acc += data`. On a numpy array: element-wise for equal lengths, a
   * one-element list is broadcast, any other length raises `ValueError`.
   * On a plain list: the list is extended.
   */
  function AccAdd(acc: Acc, data: seq<int>): (r: Result<Acc>)
    ensures acc.Lst? ==> r == Success(Lst(acc.values + data))
    ensures acc.Arr? && |data| == |acc.values| ==> r == Success(Arr(AddElementwise(acc.values, data)))
    ensures acc.Arr? && |data| == 1 ==>
      && r.Success? && r.value.Arr? && |r.value.values| == |acc.values|
      && forall i :: 0 <= i < |acc.values| ==> r.value.values[i] == acc.values[i] + data[0]
    ensures r.Failure? <==> acc.Arr? && |data| != |acc.values| && |data| != 1
  {
    match acc
    case Lst(v) => Success(Lst(v + data))
    case Arr(v) =>
      if |data| == |v| then Success(Arr(AddElementwise(v, data)))
      else if |data| == 1 then Success(Arr(seq(|v|, i requires 0 <= i < |v| => v[i] + data[0])))
      else Failure(ValueError)
  }

  /** `{s['name']: np.array(s['data']) for s in series}`: a repeated name keeps its first place and its last data. */
  function InitTable(series: seq<Series>): (r: Table)
    ensures ValidTable(r)
  {
    if series == [] then EmptyTable
    else
      var last := series[|series| - 1];
      Put(InitTable(series[..|series| - 1]), last.name, Arr(last.data))
  }

  /** One step of the inner loop: an unseen name is stored as `unseen` says, a seen one is `+=`-ed. */
  function AddSeries(t: Table, s: Series, unseen: Unseen): (r: Result<Table>)
    requires ValidTable(t)
    ensures r.Success? ==> ValidTable(r.value) && s.name in r.value.accs
    ensures r.Success? ==> r.value.accs == t.accs[s.name := r.value.accs[s.name]]
    ensures s.name !in t.accs ==> r == Success(Put(t, s.name, Fresh(unseen, s.data)))
    ensures s.name in t.accs ==> r.Success? == AccAdd(t.accs[s.name], s.data).Success?
    ensures s.name in t.accs && r.Success? ==> r.value.accs[s.name] == AccAdd(t.accs[s.name], s.data).value
  {
    if s.name !in t.accs then Success(Put(t, s.name, Fresh(unseen, s.data)))
    else
      match AccAdd(t.accs[s.name], s.data)
      case Failure(e) => Failure(e)
      case Success(acc) => Success(Put(t, s.name, acc))
  }

  /** The inner loop over one histogram's series. */
  function AddAll(t: Table, series: seq<Series>, unseen: Unseen): (r: Result<Table>)
    requires ValidTable(t)
    ensures r.Success? ==> ValidTable(r.value) && t.accs.Keys <= r.value.accs.Keys
    ensures r.Failure? ==> r.error == ValueError
  {
    if series == [] then Success(t)
    else
      match AddAll(t, series[..|series| - 1], unseen)
      case Failure(e) => Failure(e)
      case Success(t') => AddSeries(t', series[|series| - 1], unseen)
  }

  /** The outer loop over the later histograms of a group, each first checked against the categories. */
  function MergeInto(t: Table, categories: seq<string>, hists: seq<Histogram>, unseen: Unseen): (r: Result<Table>)
    requires ValidTable(t)
    ensures r.Success? ==> ValidTable(r.value) && t.accs.Keys <= r.value.accs.Keys
    ensures r.Failure? ==> r.error == AssertionError || r.error == ValueError
  {
    if hists == [] then Success(t)
    else
      match MergeInto(t, categories, hists[..|hists| - 1], unseen)
      case Failure(e) => Failure(e)
      case Success(t') =>
        var h := hists[|hists| - 1];
        if h.categories != categories then Failure(AssertionError) else AddAll(t', h.series, unseen)
  }

  /** `[{'name': k, 'data': list(v)} for k, v in series.items()]` */
  function Output(t: Table): (r: seq<Series>)
    requires ValidTable(t)
    ensures |r| == |t.names|
    ensures forall i :: 0 <= i < |r| ==> r[i] == Series(t.names[i], t.accs[t.names[i]].values)
  {
    seq(|t.names|, i requires 0 <= i < |t.names| => Series(t.names[i], t.accs[t.names[i]].values))
  }

  /** The merge of one label's group: the first histogram with its series replaced by the accumulated ones. */
  function MergeGroup(hists: seq<Histogram>, unseen: Unseen): (r: Result<Histogram>)
    requires |hists| > 0
    ensures r.Success? ==> r.value == hists[0].(series := r.value.series)
    ensures r.Failure? ==> r.error == AssertionError || r.error == ValueError
  {
    match MergeInto(InitTable(hists[0].series), hists[0].categories, hists[1..], unseen)
    case Failure(e) => Failure(e)
    case Success(t) => Success(hists[0].(series := Output(t)))
  }

  // ---------------------------------------------------------------------------
  // The imperative merge and aggregation

  lemma {:induction false} AddAllFails(t: Table, series: seq<Series>, j: nat, e: Error, unseen: Unseen)
    requires ValidTable(t) && j <= |series| && AddAll(t, series[..j], unseen) == Failure(e)
    ensures AddAll(t, series, unseen) == Failure(e)
    decreases |series| - j
  {
    if j < |series| {
      assert series[..j + 1][..j] == series[..j];
      AddAllFails(t, series, j + 1, e, unseen);
    } else {
      assert series[..j] == series;
    }
  }

  lemma {:induction false} MergeIntoFails(t: Table, categories: seq<string>, hists: seq<Histogram>, j: nat, e: Error, unseen: Unseen)
    requires ValidTable(t) && j <= |hists| && MergeInto(t, categories, hists[..j], unseen) == Failure(e)
    ensures MergeInto(t, categories, hists, unseen) == Failure(e)
    decreases |hists| - j
  {
    if j < |hists| {
      assert hists[..j + 1][..j] == hists[..j];
      MergeIntoFails(t, categories, hists, j + 1, e, unseen);
    } else {
      assert hists[..j] == hists;
    }
  }

  lemma AddAllStep(t: Table, series: seq<Series>, j: nat, unseen: Unseen)
    requires ValidTable(t) && j < |series|
    ensures AddAll(t, series[..j], unseen).Success? ==>
      AddAll(t, series[..j + 1], unseen) == AddSeries(AddAll(t, series[..j], unseen).value, series[j], unseen)
  {
    assert series[..j + 1][..j] == series[..j];
  }

  lemma MergeIntoStep(t: Table, categories: seq<string>, hists: seq<Histogram>, i: nat, unseen: Unseen)
    requires ValidTable(t) && i < |hists|
    ensures MergeInto(t, categories, hists[..i], unseen).Success? ==>
      MergeInto(t, categories, hists[..i + 1], unseen) ==
        if hists[i].categories != categories then Failure(AssertionError)
        else AddAll(MergeInto(t, categories, hists[..i], unseen).value, hists[i].series, unseen)
  {
    assert hists[..i + 1][..i] == hists[..i];
  }

  /** The inner loop of the merge: one histogram's series added to the accumulator, stopping at the first `ValueError`. */
  method AddAllLoop(table: Table, series: seq<Series>, unseen: Unseen) returns (r: Result<Table>)
    requires ValidTable(table)
    ensures r == AddAll(table, series, unseen)
  {
    var acc := table;
    var j := 0;
    while j < |series|
      invariant 0 <= j <= |series|
      invariant AddAll(table, series[..j], unseen) == Success(acc)
    {
      var added := AddSeries(acc, series[j], unseen);
      AddAllStep(table, series, j, unseen);
      if added.Failure? {
        AddAllFails(table, series, j + 1, added.error, unseen);
        return added;
      }
      acc := added.value;
      j := j + 1;
    }
    assert series[..j] == series;
    return Success(acc);
  }

  /** One pass of the outer loop: the axis check, then the inner loop over the histogram's series. */
  method MergeHistogram(init: Table, categories: seq<string>, rest: seq<Histogram>, i: nat, series: Table, unseen: Unseen)
    returns (r: Result<Table>)
    requires ValidTable(init) && i < |rest|
    requires MergeInto(init, categories, rest[..i], unseen) == Success(series)
    ensures r == MergeInto(init, categories, rest[..i + 1], unseen)
  {
    MergeIntoStep(init, categories, rest, i, unseen);
    var hist := rest[i];
    if hist.categories != categories {
      return Failure(AssertionError);
    }
    r := AddAllLoop(series, hist.series, unseen);
  }

  /** The loops of one group's merge, from `series = {...}` to `result['series'] = [...]`. */
  method MergeGroupLoop(hists: seq<Histogram>, unseen: Unseen) returns (r: Result<Histogram>)
    requires |hists| > 0
    ensures r == MergeGroup(hists, unseen)
  {
    var init := InitTable(hists[0].series);
    var series := init;
    var result := hists[0];
    var rest := hists[1..];
    var i := 0;
    while i < |rest|
      invariant 0 <= i <= |rest|
      invariant MergeInto(init, result.categories, rest[..i], unseen) == Success(series)
    {
      var merged := MergeHistogram(init, result.categories, rest, i, series, unseen);
      if merged.Failure? {
        MergeIntoFails(init, result.categories, rest, i + 1, merged.error, unseen);
        return Failure(merged.error);
      }
      series := merged.value;
      i := i + 1;
    }
    assert rest[..i] == rest;
    r := Success(result.(series := Output(series)));
  }

  /** The labels of a list of histograms, in order. */
  function Labels(hists: seq<Histogram>): seq<string> {
    seq(|hists|, i requires 0 <= i < |hists| => hists[i].labelText)
  }

  /** The merge of a label's group carries that label. */
  lemma GroupLabel(data: seq<Histogram>, l: string, unseen: Unseen)
    requires HasLabel(data, l) && MergeGroup(WithLabel(data, l), unseen).Success?
    ensures MergeGroup(WithLabel(data, l), unseen).value.labelText == l
  {
    var hists := WithLabel(data, l);
    assert hists[0] in hists;
  }

  /** The values of a list of outcomes in order, or the first exception among them. */
  function Collect<T>(rs: seq<Result<T>>): (r: Result<seq<T>>)
    ensures r.Success? ==> |r.value| == |rs|
  {
    if rs == [] then Success([])
    else
      match Collect(rs[..|rs| - 1])
      case Failure(e) => Failure(e)
      case Success(vs) =>
        match rs[|rs| - 1]
        case Failure(e) => Failure(e)
        case Success(v) => Success(vs + [v])
  }

  lemma CollectStep<T>(rs: seq<Result<T>>, i: nat)
    requires i < |rs|
    ensures Collect(rs[..i]).Success? ==>
      Collect(rs[..i + 1]) == if rs[i].Success? then Success(Collect(rs[..i]).value + [rs[i].value]) else Failure(rs[i].error)
  {
    assert rs[..i + 1][..i] == rs[..i];
  }

  /** A successful collection holds every outcome's value, in order. */
  lemma {:induction false} CollectValues<T>(rs: seq<Result<T>>)
    requires Collect(rs).Success?
    ensures forall i :: 0 <= i < |rs| ==> Success(Collect(rs).value[i]) == rs[i]
  {
    if rs != [] {
      var n := |rs| - 1;
      CollectValues(rs[..n]);
      var out := Collect(rs).value;
      var vs := Collect(rs[..n]).value;
      assert out == vs + [rs[n].value];
      forall i | 0 <= i < |rs|
        ensures Success(out[i]) == rs[i]
      {
        if i < n {
          assert out[i] == vs[i] && rs[..n][i] == rs[i];
        }
      }
    }
  }

  /** The collection succeeds exactly when every outcome does. */
  lemma {:induction false} CollectSucceeds<T>(rs: seq<Result<T>>)
    ensures Collect(rs).Success? <==> forall i :: 0 <= i < |rs| ==> rs[i].Success?
  {
    if rs != [] {
      var n := |rs| - 1;
      CollectSucceeds(rs[..n]);
      assert forall i :: 0 <= i < n ==> rs[..n][i] == rs[i];
    }
  }

  /** Once a prefix has failed, the whole collection fails with the same exception. */
  lemma {:induction false} CollectStops<T>(rs: seq<Result<T>>, j: nat)
    requires j <= |rs| && Collect(rs[..j]).Failure?
    ensures Collect(rs) == Collect(rs[..j])
    decreases |rs| - j
  {
    if j < |rs| {
      assert rs[..j + 1][..j] == rs[..j];
      CollectStops(rs, j + 1);
    } else {
      assert rs[..j] == rs;
    }
  }

  /** Outcome i is the first failure, and it raises `e`. */
  predicate FirstFailed<T>(rs: seq<Result<T>>, i: int, e: Error) {
    && 0 <= i < |rs|
    && (forall k :: 0 <= k < i ==> rs[k].Success?)
    && rs[i] == Failure(e)
  }

  /** A failed collection raises what the first failing outcome raises. */
  lemma {:induction false} CollectFailure<T>(rs: seq<Result<T>>)
    requires Collect(rs).Failure?
    ensures exists i :: FirstFailed(rs, i, Collect(rs).error)
  {
    var n := |rs| - 1;
    var prefix := rs[..n];
    assert forall k :: 0 <= k < n ==> prefix[k] == rs[k];
    if Collect(prefix).Failure? {
      CollectFailure(prefix);
      var i :| FirstFailed(prefix, i, Collect(prefix).error);
      assert FirstFailed(rs, i, Collect(rs).error);
    } else {
      CollectSucceeds(prefix);
      assert FirstFailed(rs, n, Collect(rs).error);
    }
  }

  /** The merges of the groups `labels` picks out of `data`, in the order of `labels`. */
  function GroupMerges(data: seq<Histogram>, labels: seq<string>, unseen: Unseen): (r: seq<Result<Histogram>>)
    requires forall k :: 0 <= k < |labels| ==> HasLabel(data, labels[k])
  {
    seq(|labels|, k requires 0 <= k < |labels| => MergeGroup(WithLabel(data, labels[k]), unseen))
  }

  /** Merges of the groups, in label order, carry the labels in that order. */
  lemma MergedLabels(data: seq<Histogram>, labels: seq<string>, merged: seq<Histogram>, unseen: Unseen)
    requires forall k :: 0 <= k < |labels| ==> HasLabel(data, labels[k])
    requires |merged| == |labels|
    requires forall i :: 0 <= i < |labels| ==> Success(merged[i]) == GroupMerges(data, labels, unseen)[i]
    ensures Labels(merged) == labels
  {
    forall i | 0 <= i < |labels|
      ensures merged[i].labelText == labels[i]
    {
      assert GroupMerges(data, labels, unseen)[i] == MergeGroup(WithLabel(data, labels[i]), unseen);
      GroupLabel(data, labels[i], unseen);
    }
  }

  /** A successful run of merges holds, in label order, each label's merged group, which carries the label. */
  lemma MergedGroups(data: seq<Histogram>, labels: seq<string>, unseen: Unseen)
    requires forall k :: 0 <= k < |labels| ==> HasLabel(data, labels[k])
    requires Collect(GroupMerges(data, labels, unseen)).Success?
    ensures var merged := Collect(GroupMerges(data, labels, unseen)).value;
      && |merged| == |labels|
      && Labels(merged) == labels
      && forall i :: 0 <= i < |labels| ==> Success(merged[i]) == MergeGroup(WithLabel(data, labels[i]), unseen)
  {
    var rs := GroupMerges(data, labels, unseen);
    CollectValues(rs);
    MergedLabels(data, labels, Collect(rs).value, unseen);
  }

  /**
   * The loop of `aggregate_histograms` over the sorted labels: the merge of
   * each label's group, in label order, until a merge raises.
   */
  method MergeGroups(data: seq<Histogram>, labels: seq<string>, unseen: Unseen) returns (r: Result<seq<Histogram>>)
    requires forall k :: 0 <= k < |labels| ==> HasLabel(data, labels[k])
    ensures r == Collect(GroupMerges(data, labels, unseen))
  {
    ghost var expected := GroupMerges(data, labels, unseen);
    var results: seq<Histogram> := [];
    var i := 0;
    while i < |labels|
      invariant 0 <= i <= |labels|
      invariant Collect(expected[..i]) == Success(results)
    {
      var merged := MergeGroupLoop(WithLabel(data, labels[i]), unseen);
      assert merged == expected[i];
      CollectStep(expected, i);
      if merged.Failure? {
        CollectStops(expected, i + 1);
        return Failure(merged.error);
      }
      results := results + [merged.value];
      i := i + 1;
    }
    assert expected[..i] == expected;
    return Success(results);
  }

  /**
   * Group i, of the groups `labels` picks out of `data`, is the first whose
   * merge raises, and it raises `e`.
   */
  predicate FirstFailingGroup(data: seq<Histogram>, labels: seq<string>, i: int, e: Error, unseen: Unseen)
    requires forall k :: 0 <= k < |labels| ==> HasLabel(data, labels[k])
  {
    FirstFailed(GroupMerges(data, labels, unseen), i, e)
  }

  /** A failed run of merges raises what the first failing group raises. */
  lemma FirstFailingAt(data: seq<Histogram>, labels: seq<string>, unseen: Unseen)
    requires forall k :: 0 <= k < |labels| ==> HasLabel(data, labels[k])
    requires Collect(GroupMerges(data, labels, unseen)).Failure?
    ensures exists i :: FirstFailingGroup(data, labels, i, Collect(GroupMerges(data, labels, unseen)).error, unseen)
  {
    var rs := GroupMerges(data, labels, unseen);
    CollectFailure(rs);
    var i :| FirstFailed(rs, i, Collect(rs).error);
    assert FirstFailingGroup(data, labels, i, Collect(rs).error, unseen);
  }

  /**
   * `aggregate_histograms` (up to the result being stored): one merged
   * histogram per distinct label, in ascending label order, each the merge of
   * that label's histograms in input order; a `UserError` when the jobs hold
   * no data at all; otherwise the first exception a group's merge raises.
   * With `AsList` this is the program as written; with `AsArray`, names first
   * met in a later histogram are summed like the others.
   */
  method AggregateHistograms(jobs: seq<JobResult>, unseen: Unseen) returns (r: Result<seq<Histogram>>)
    ensures LoadIntermediateData(jobs).Failure? ==> r == Failure(NoIntermediateData(JobIds(jobs)))
    ensures r.Success? ==>
      var data := Chain(jobs);
      var labels := SortedLabels(data);
      && |r.value| == |labels|
      && Labels(r.value) == labels
      && StrictlyAscending(Labels(r.value))
      && (forall l :: l in Labels(r.value) <==> HasLabel(data, l))
      && (forall i :: 0 <= i < |labels| ==> Success(r.value[i]) == MergeGroup(WithLabel(data, labels[i]), unseen))
    ensures r.Failure? && LoadIntermediateData(jobs).Success? ==>
      exists i :: FirstFailingGroup(Chain(jobs), SortedLabels(Chain(jobs)), i, r.error, unseen)
  {
    var loaded := LoadIntermediateData(jobs);
    if loaded.Failure? {
      return Failure(loaded.error);
    }
    var data := loaded.value;
    var labels := SortedLabels(data);
    assert forall k :: 0 <= k < |labels| ==> labels[k] in labels;
    r := MergeGroups(data, labels, unseen);
    if r.Success? {
      MergedGroups(data, labels, unseen);
    } else {
      FirstFailingAt(data, labels, unseen);
    }
  }

  // ---------------------------------------------------------------------------
  // What a merge computes

  /** The data of the series named `n`, in order. */
  function NamedData(series: seq<Series>, n: Value): (r: seq<seq<int>>)
    ensures |r| == 0 <==> forall s :: s in series ==> s.name != n
  {
    if series == [] then []
    else
      var prefix := series[..|series| - 1];
      var last := series[|series| - 1];
      assert series == prefix + [last];
      NamedData(prefix, n) + (if last.name == n then [last.data] else [])
  }

  /** The data of the series named `n` over a list of histograms, in order. */
  function GroupData(hists: seq<Histogram>, n: Value): seq<seq<int>> {
    if hists == [] then [] else GroupData(hists[..|hists| - 1], n) + NamedData(hists[|hists| - 1].series, n)
  }

  /** Some series of the list is named `n`. */
  predicate HasSeries(series: seq<Series>, n: Value) {
    exists s :: s in series && s.name == n
  }

  lemma HasSeriesSnoc(series: seq<Series>, n: Value)
    requires |series| > 0
    ensures HasSeries(series, n) <==> HasSeries(series[..|series| - 1], n) || series[|series| - 1].name == n
  {
    Members(series);
  }

  predicate Occurs(hists: seq<Histogram>, n: Value) {
    exists h, s :: h in hists && s in h.series && s.name == n
  }

  /** The data of the last series named `n`: the one the dict comprehension keeps. */
  function LastData(series: seq<Series>, n: Value): seq<int>
    requires HasSeries(series, n)
  {
    var last := series[|series| - 1];
    if last.name == n then last.data
    else
      HasSeriesSnoc(series, n);
      LastData(series[..|series| - 1], n)
  }

  predicate SameLengths(ds: seq<seq<int>>, k: nat) {
    forall i :: 0 <= i < |ds| ==> |ds[i]| == k
  }

  /** `v` plus each of `ds`, element-wise. */
  function VecSum(v: seq<int>, ds: seq<seq<int>>): (r: seq<int>)
    requires SameLengths(ds, |v|)
    ensures |r| == |v|
  {
    if ds == [] then v else AddElementwise(VecSum(v, ds[..|ds| - 1]), ds[|ds| - 1])
  }

  /** `ds` joined end to end. */
  function Flatten(ds: seq<seq<int>>): seq<int> {
    if ds == [] then [] else Flatten(ds[..|ds| - 1]) + ds[|ds| - 1]
  }

  lemma {:induction false} VecSumAppend(v: seq<int>, a: seq<seq<int>>, b: seq<seq<int>>)
    requires SameLengths(a, |v|) && SameLengths(b, |v|)
    ensures SameLengths(a + b, |v|)
    ensures VecSum(v, a + b) == VecSum(VecSum(v, a), b)
  {
    if b != [] {
      var b' := b[..|b| - 1];
      VecSumAppend(v, a, b');
      assert (a + b)[..|a + b| - 1] == a + b';
    } else {
      assert a + b == a;
    }
  }

  lemma {:induction false} FlattenAppend(a: seq<seq<int>>, b: seq<seq<int>>)
    ensures Flatten(a + b) == Flatten(a) + Flatten(b)
  {
    if b != [] {
      var b' := b[..|b| - 1];
      FlattenAppend(a, b');
      assert (a + b)[..|a + b| - 1] == a + b';
    } else {
      assert a + b == a;
    }
  }

  lemma {:induction false} InitTableLookup(series: seq<Series>, n: Value)
    ensures n in InitTable(series).accs <==> HasSeries(series, n)
    ensures n in InitTable(series).accs ==> InitTable(series).accs[n] == Arr(LastData(series, n))
  {
    if series != [] {
      var prefix := series[..|series| - 1];
      InitTableLookup(prefix, n);
      HasSeriesSnoc(series, n);
    }
  }

  lemma {:induction false} AddAllKeys(t: Table, series: seq<Series>, n: Value, unseen: Unseen)
    requires ValidTable(t) && AddAll(t, series, unseen).Success?
    ensures n in AddAll(t, series, unseen).value.accs <==> n in t.accs || HasSeries(series, n)
  {
    if series != [] {
      var prefix := series[..|series| - 1];
      var last := series[|series| - 1];
      var t' := AddAll(t, prefix, unseen).value;
      assert AddAll(t, series, unseen) == AddSeries(t', last, unseen);
      AddAllKeys(t, prefix, n, unseen);
      HasSeriesSnoc(series, n);
    }
  }

  lemma {:induction false} MergeIntoKeys(t: Table, categories: seq<string>, hists: seq<Histogram>, n: Value, unseen: Unseen)
    requires ValidTable(t) && MergeInto(t, categories, hists, unseen).Success?
    ensures n in MergeInto(t, categories, hists, unseen).value.accs <==> n in t.accs || Occurs(hists, n)
  {
    if hists != [] {
      var prefix := hists[..|hists| - 1];
      var last := hists[|hists| - 1];
      MergeIntoKeys(t, categories, prefix, n, unseen);
      var t' := MergeInto(t, categories, prefix, unseen).value;
      assert last.categories == categories && MergeInto(t, categories, hists, unseen) == AddAll(t', last.series, unseen);
      AddAllKeys(t', last.series, n, unseen);
      Members(hists);
      assert Occurs(hists, n) <==> Occurs(prefix, n) || HasSeries(last.series, n);
    }
  }

  lemma {:induction false} MergeIntoCategories(t: Table, categories: seq<string>, hists: seq<Histogram>, unseen: Unseen)
    requires ValidTable(t) && MergeInto(t, categories, hists, unseen).Success?
    ensures forall h :: h in hists ==> h.categories == categories
  {
    if hists != [] {
      var prefix := hists[..|hists| - 1];
      MergeIntoCategories(t, categories, prefix, unseen);
      assert hists == prefix + [hists[|hists| - 1]];
    }
  }

  /** A name held as an array gains each later series of that name element-wise. */
  lemma {:induction false} AddAllSums(t: Table, series: seq<Series>, n: Value, w: seq<int>, unseen: Unseen)
    requires ValidTable(t) && n in t.accs && t.accs[n] == Arr(w)
    requires SameLengths(NamedData(series, n), |w|) && AddAll(t, series, unseen).Success?
    ensures AddAll(t, series, unseen).value.accs[n] == Arr(VecSum(w, NamedData(series, n)))
  {
    if series != [] {
      var prefix := series[..|series| - 1];
      var last := series[|series| - 1];
      var t' := AddAll(t, prefix, unseen).value;
      assert AddAll(t, series, unseen) == AddSeries(t', last, unseen);
      var before := NamedData(prefix, n);
      var extra := if last.name == n then [last.data] else [];
      assert NamedData(series, n) == before + extra;
      SameLengthsSplit(before, extra, |w|);
      AddAllSums(t, prefix, n, w, unseen);
      var x := VecSum(w, before);
      VecSumAppend(w, before, extra);
      if last.name == n {
        assert VecSum(x, extra) == AddElementwise(x, last.data) by {
          assert extra[..0] == [];
        }
        assert AccAdd(Arr(x), last.data) == Success(Arr(AddElementwise(x, last.data)));
      } else {
        assert before + extra == before;
      }
    }
  }

  lemma SameLengthsSplit(a: seq<seq<int>>, b: seq<seq<int>>, k: nat)
    requires SameLengths(a + b, k)
    ensures SameLengths(a, k) && SameLengths(b, k)
  {
    forall i | 0 <= i < |a| ensures |a[i]| == k { assert a[i] == (a + b)[i]; }
    forall i | 0 <= i < |b| ensures |b[i]| == k { assert b[i] == (a + b)[|a| + i]; }
  }

  lemma {:induction false} MergeIntoSums(t: Table, categories: seq<string>, hists: seq<Histogram>, n: Value, w: seq<int>, unseen: Unseen)
    requires ValidTable(t) && n in t.accs && t.accs[n] == Arr(w)
    requires SameLengths(GroupData(hists, n), |w|) && MergeInto(t, categories, hists, unseen).Success?
    ensures MergeInto(t, categories, hists, unseen).value.accs[n] == Arr(VecSum(w, GroupData(hists, n)))
  {
    if hists != [] {
      var prefix := hists[..|hists| - 1];
      var last := hists[|hists| - 1];
      var t' := MergeInto(t, categories, prefix, unseen).value;
      assert last.categories == categories && MergeInto(t, categories, hists, unseen) == AddAll(t', last.series, unseen);
      var a := GroupData(prefix, n);
      var b := NamedData(last.series, n);
      assert GroupData(hists, n) == a + b;
      SameLengthsSplit(a, b, |w|);
      MergeIntoSums(t, categories, prefix, n, w, unseen);
      AddAllSums(t', last.series, n, VecSum(w, a), unseen);
      VecSumAppend(w, a, b);
    }
  }

  /** The accumulator holds under `n` the plain list `data` (an absent name counts as the empty list). */
  predicate HoldsList(t: Table, n: Value, data: seq<int>) {
    if n in t.accs then t.accs[n] == Lst(data) else data == []
  }

  /** A name held as a plain list (or not yet seen) is extended by each later series of that name. */
  lemma {:induction false} AddAllConcatenates(t: Table, series: seq<Series>, n: Value, w: seq<int>)
    requires ValidTable(t) && HoldsList(t, n, w) && AddAll(t, series, AsList).Success?
    ensures HoldsList(AddAll(t, series, AsList).value, n, w + Flatten(NamedData(series, n)))
  {
    if series != [] {
      var prefix := series[..|series| - 1];
      var last := series[|series| - 1];
      var t' := AddAll(t, prefix, AsList).value;
      var t'' := AddSeries(t', last, AsList);
      assert AddAll(t, series, AsList) == t'';
      var before := NamedData(prefix, n);
      var after := NamedData(series, n);
      AddAllConcatenates(t, prefix, n, w);
      var x := w + Flatten(before);
      assert HoldsList(t', n, x);
      if last.name == n {
        assert after == before + [last.data];
        assert after[..|after| - 1] == before;
        assert Flatten(after) == Flatten(before) + last.data;
        Associative(w, Flatten(before), last.data);
        SnocList(t', last, x);
      } else {
        assert after == before;
        assert t''.value.accs == t'.accs[last.name := t''.value.accs[last.name]];
      }
    }
  }

  /** The members of a non-empty sequence are those of its front and its last element. */
  lemma Members<T>(s: seq<T>)
    requires |s| > 0
    ensures forall x :: x in s <==> x in s[..|s| - 1] || x == s[|s| - 1]
  {
    assert s == s[..|s| - 1] + [s[|s| - 1]];
  }

  lemma Associative<T>(a: seq<T>, b: seq<T>, c: seq<T>)
    ensures a + (b + c) == (a + b) + c
  {
  }

  lemma SnocList(t: Table, s: Series, x: seq<int>)
    requires ValidTable(t) && HoldsList(t, s.name, x)
    ensures AddSeries(t, s, AsList).Success? && HoldsList(AddSeries(t, s, AsList).value, s.name, x + s.data)
  {
    if s.name in t.accs {
      assert AccAdd(Lst(x), s.data) == Success(Lst(x + s.data));
    } else {
      assert x + s.data == s.data;
    }
  }

  lemma {:induction false} MergeIntoConcatenates(t: Table, categories: seq<string>, hists: seq<Histogram>, n: Value, w: seq<int>)
    requires ValidTable(t) && HoldsList(t, n, w) && MergeInto(t, categories, hists, AsList).Success?
    ensures HoldsList(MergeInto(t, categories, hists, AsList).value, n, w + Flatten(GroupData(hists, n)))
  {
    if hists != [] {
      var prefix := hists[..|hists| - 1];
      var last := hists[|hists| - 1];
      var t' := MergeInto(t, categories, prefix, AsList).value;
      assert last.categories == categories && MergeInto(t, categories, hists, AsList) == AddAll(t', last.series, AsList);
      var a := GroupData(prefix, n);
      var b := NamedData(last.series, n);
      assert GroupData(hists, n) == a + b;
      MergeIntoConcatenates(t, categories, prefix, n, w);
      AddAllConcatenates(t', last.series, n, w + Flatten(a));
      FlattenAppend(a, b);
      Associative(w, Flatten(a), Flatten(b));
    }
  }

  /**
   * A successful merge keeps the first histogram's label, title and
   * categories, and every histogram of the group has those same categories
   * (a mismatch raises `AssertionError`).
   */
  lemma MergeKeepsFirst(hists: seq<Histogram>, unseen: Unseen)
    requires |hists| > 0 && MergeGroup(hists, unseen).Success?
    ensures var out := MergeGroup(hists, unseen).value;
      && out.labelText == hists[0].labelText
      && out.title == hists[0].title
      && out.categories == hists[0].categories
      && forall h :: h in hists ==> h.categories == hists[0].categories
  {
    MergeIntoCategories(InitTable(hists[0].series), hists[0].categories, hists[1..], unseen);
    assert forall h :: h in hists ==> h == hists[0] || h in hists[1..] by {
      assert hists == [hists[0]] + hists[1..];
    }
  }

  /** The merged series have distinct names, and a name is there exactly when some series of the group has it. */
  lemma MergeNames(hists: seq<Histogram>, unseen: Unseen)
    requires |hists| > 0 && MergeGroup(hists, unseen).Success?
    ensures var out := MergeGroup(hists, unseen).value.series;
      && (forall i, j :: 0 <= i < j < |out| ==> out[i].name != out[j].name)
      && forall n :: (exists k :: 0 <= k < |out| && out[k].name == n) <==> Occurs(hists, n)
  {
    var init := InitTable(hists[0].series);
    var t := MergeInto(init, hists[0].categories, hists[1..], unseen).value;
    var out := MergeGroup(hists, unseen).value.series;
    assert out == Output(t);
    forall n ensures (exists k :: 0 <= k < |out| && out[k].name == n) <==> Occurs(hists, n) {
      InitTableLookup(hists[0].series, n);
      MergeIntoKeys(init, hists[0].categories, hists[1..], n, unseen);
      OccursSplit(hists, n);
      OutputNames(t, n);
    }
  }

  lemma OccursSplit(hists: seq<Histogram>, n: Value)
    requires |hists| > 0
    ensures Occurs(hists, n) <==> HasSeries(hists[0].series, n) || Occurs(hists[1..], n)
  {
    assert forall h :: h in hists <==> h == hists[0] || h in hists[1..] by {
      assert hists == [hists[0]] + hists[1..];
    }
  }

  /** The output lists a series under exactly the names the table holds. */
  lemma OutputNames(t: Table, n: Value)
    requires ValidTable(t)
    ensures (exists k :: 0 <= k < |Output(t)| && Output(t)[k].name == n) <==> n in t.accs
  {
    var out := Output(t);
    if n in t.accs {
      var k :| 0 <= k < |t.names| && t.names[k] == n;
      assert out[k].name == n;
    }
  }

  // ---------------------------------------------------------------------------
  // The order of the merged series

  /** The names of a list of series, in order. */
  function Names(series: seq<Series>): seq<Value> {
    seq(|series|, i requires 0 <= i < |series| => series[i].name)
  }

  /** The series names of a list of histograms, histogram after histogram. */
  function SeriesNames(hists: seq<Histogram>): seq<Value> {
    if hists == [] then [] else SeriesNames(hists[..|hists| - 1]) + Names(hists[|hists| - 1].series)
  }

  lemma NamesSnoc(series: seq<Series>)
    requires |series| > 0
    ensures Names(series) == Names(series[..|series| - 1]) + [series[|series| - 1].name]
  {
  }

  lemma HeldNames(t: Table, n: Value)
    requires ValidTable(t)
    ensures n in t.accs <==> n in t.names
  {
  }

  /** The dict comprehension lists each name at its first occurrence. */
  lemma {:induction false} InitTableOrder(series: seq<Series>)
    ensures InitTable(series).names == Counting.Distinct(Names(series))
  {
    if series != [] {
      var prefix := series[..|series| - 1];
      var last := series[|series| - 1];
      InitTableOrder(prefix);
      NamesSnoc(series);
      HeldNames(InitTable(prefix), last.name);
      Counting.DistinctSnoc(Names(prefix), last.name);
    }
  }

  /** Storing a series keeps the names in place and appends a new one. */
  lemma AddSeriesOrder(t: Table, s: Series, unseen: Unseen)
    requires ValidTable(t) && AddSeries(t, s, unseen).Success?
    ensures AddSeries(t, s, unseen).value.names == if s.name in t.names then t.names else t.names + [s.name]
  {
    HeldNames(t, s.name);
  }

  /** The inner loop lists the names of its series after those held, each at its first occurrence. */
  lemma {:induction false} AddAllOrder(t: Table, series: seq<Series>, ps: seq<Value>, unseen: Unseen)
    requires ValidTable(t) && t.names == Counting.Distinct(ps) && AddAll(t, series, unseen).Success?
    ensures AddAll(t, series, unseen).value.names == Counting.Distinct(ps + Names(series))
  {
    if series == [] {
      assert ps + Names(series) == ps;
    } else {
      var prefix := series[..|series| - 1];
      var last := series[|series| - 1];
      AddAllOrder(t, prefix, ps, unseen);
      var t' := AddAll(t, prefix, unseen).value;
      assert AddAll(t, series, unseen) == AddSeries(t', last, unseen);
      AddSeriesOrder(t', last, unseen);
      var qs := ps + Names(prefix);
      assert ps + Names(series) == qs + [last.name] by {
        NamesSnoc(series);
        Associative(ps, Names(prefix), [last.name]);
      }
      Counting.DistinctSnoc(qs, last.name);
    }
  }

  /** The outer loop lists the names of the later histograms' series in the order they are met. */
  lemma {:induction false} MergeIntoOrder(t: Table, categories: seq<string>, hists: seq<Histogram>, ps: seq<Value>, unseen: Unseen)
    requires ValidTable(t) && t.names == Counting.Distinct(ps) && MergeInto(t, categories, hists, unseen).Success?
    ensures MergeInto(t, categories, hists, unseen).value.names == Counting.Distinct(ps + SeriesNames(hists))
  {
    if hists == [] {
      assert ps + SeriesNames(hists) == ps;
    } else {
      var prefix := hists[..|hists| - 1];
      var last := hists[|hists| - 1];
      MergeIntoOrder(t, categories, prefix, ps, unseen);
      var t' := MergeInto(t, categories, prefix, unseen).value;
      var qs := ps + SeriesNames(prefix);
      assert MergeInto(t, categories, hists, unseen) == AddAll(t', last.series, unseen);
      AddAllOrder(t', last.series, qs, unseen);
      assert ps + SeriesNames(hists) == qs + Names(last.series) by {
        assert SeriesNames(hists) == SeriesNames(prefix) + Names(last.series);
        Associative(ps, SeriesNames(prefix), Names(last.series));
      }
    }
  }

  lemma OutputOrder(t: Table)
    requires ValidTable(t)
    ensures Names(Output(t)) == t.names
  {
  }

  /**
   * The merged series come in the dict's insertion order: each name at the
   * first series of the group that carries it, the first histogram's series
   * before the later ones'. So the first histogram's names come first, in
   * their own order, and a name met later follows them, after every name met
   * before it.
   */
  lemma MergeOrder(hists: seq<Histogram>, unseen: Unseen)
    requires |hists| > 0 && MergeGroup(hists, unseen).Success?
    ensures var out := Names(MergeGroup(hists, unseen).value.series);
      var all := Names(hists[0].series) + SeriesNames(hists[1..]);
      var first := Counting.Distinct(Names(hists[0].series));
      && out == Counting.Distinct(all)
      && |first| <= |out| && out[..|first|] == first
      && (Counting.NoDuplicates(Names(hists[0].series)) ==> first == Names(hists[0].series))
      && forall i, j :: 0 <= i < j < |out| ==> Counting.FirstIndex(all, out[i]) < Counting.FirstIndex(all, out[j])
  {
    var init := InitTable(hists[0].series);
    var t := MergeInto(init, hists[0].categories, hists[1..], unseen).value;
    var all := Names(hists[0].series) + SeriesNames(hists[1..]);
    InitTableOrder(hists[0].series);
    MergeIntoOrder(init, hists[0].categories, hists[1..], Names(hists[0].series), unseen);
    OutputOrder(t);
    assert MergeGroup(hists, unseen).value.series == Output(t);
    Counting.DistinctPrefix(Names(hists[0].series), SeriesNames(hists[1..]));
    Counting.DistinctFirstOccurrence(all);
    if Counting.NoDuplicates(Names(hists[0].series)) {
      Counting.DistinctOfDistinct(Names(hists[0].series));
    }
  }

  /**
   * A name of the first histogram starts as an array of that histogram's
   * (last) data under the name; when every later series of that name has the
   * same length, the merged series of that name is the element-wise sum.
   */
  lemma MergeSumsFirstNames(hists: seq<Histogram>, n: Value, unseen: Unseen)
    requires |hists| > 0 && HasSeries(hists[0].series, n)
    requires SameLengths(GroupData(hists[1..], n), |LastData(hists[0].series, n)|)
    requires MergeGroup(hists, unseen).Success?
    ensures var out := MergeGroup(hists, unseen).value.series;
      exists k :: 0 <= k < |out| && out[k] == Series(n, VecSum(LastData(hists[0].series, n), GroupData(hists[1..], n)))
  {
    var init := InitTable(hists[0].series);
    InitTableLookup(hists[0].series, n);
    MergeIntoSums(init, hists[0].categories, hists[1..], n, LastData(hists[0].series, n), unseen);
    var t := MergeInto(init, hists[0].categories, hists[1..], unseen).value;
    MergeIntoKeys(init, hists[0].categories, hists[1..], n, unseen);
    var k :| 0 <= k < |t.names| && t.names[k] == n;
    assert MergeGroup(hists, unseen).value.series[k] == Output(t)[k];
  }

  /**
   * A name absent from the first histogram is stored as the plain list of its
   * first series, and `+=` on a list extends it: the merged series of that
   * name is all its data joined end to end, whatever the lengths.
   */
  lemma MergeConcatenatesLaterNames(hists: seq<Histogram>, n: Value)
    requires |hists| > 0 && (forall s :: s in hists[0].series ==> s.name != n) && Occurs(hists[1..], n)
    requires MergeGroup(hists, AsList).Success?
    ensures var out := MergeGroup(hists, AsList).value.series;
      exists k :: 0 <= k < |out| && out[k] == Series(n, Flatten(GroupData(hists[1..], n)))
  {
    var init := InitTable(hists[0].series);
    InitTableLookup(hists[0].series, n);
    MergeIntoConcatenates(init, hists[0].categories, hists[1..], n, []);
    var t := MergeInto(init, hists[0].categories, hists[1..], AsList).value;
    MergeIntoKeys(init, hists[0].categories, hists[1..], n, AsList);
    var k :| 0 <= k < |t.names| && t.names[k] == n;
    assert [] + Flatten(GroupData(hists[1..], n)) == Flatten(GroupData(hists[1..], n));
    assert MergeGroup(hists, AsList).value.series[k] == Output(t)[k];
  }

  /** All of `ds` have the length of the first. */
  predicate Uniform(ds: seq<seq<int>>) {
    ds == [] || SameLengths(ds, |ds[0]|)
  }

  /** The element-wise sum of a non-empty list of equal-length data. */
  function SumAll(ds: seq<seq<int>>): (r: seq<int>)
    requires ds != [] && Uniform(ds)
    ensures |r| == |ds[0]|
  {
    VecSum(ds[0], ds[1..])
  }

  lemma SumAllSnoc(ds: seq<seq<int>>, d: seq<int>)
    requires Uniform(ds + [d])
    ensures Uniform(ds)
    ensures ds == [] ==> SumAll(ds + [d]) == d
    ensures ds != [] ==> |d| == |SumAll(ds)| && SumAll(ds + [d]) == AddElementwise(SumAll(ds), d)
  {
    if ds == [] {
      assert (ds + [d])[1..] == [];
    } else {
      assert (ds + [d])[0] == ds[0] && (ds + [d])[|ds|] == d;
      assert SameLengths(ds, |ds[0]|) by {
        forall i | 0 <= i < |ds| ensures |ds[i]| == |ds[0]| { assert ds[i] == (ds + [d])[i]; }
      }
      var tail := (ds + [d])[1..];
      assert tail == ds[1..] + [d] && tail[..|tail| - 1] == ds[1..];
    }
  }

  lemma UniformPrefix(a: seq<seq<int>>, b: seq<seq<int>>)
    requires Uniform(a + b)
    ensures Uniform(a)
  {
    if a != [] {
      assert (a + b)[0] == a[0];
      forall i | 0 <= i < |a| ensures |a[i]| == |a[0]| { assert a[i] == (a + b)[i]; }
    }
  }

  /** The accumulator holds under `n` the array sum of `ds`, or nothing when `ds` is empty. */
  predicate HoldsSum(t: Table, n: Value, ds: seq<seq<int>>) {
    if ds == [] then n !in t.accs else Uniform(ds) && n in t.accs && t.accs[n] == Arr(SumAll(ds))
  }

  lemma SnocSum(t: Table, s: Series, ds: seq<seq<int>>)
    requires ValidTable(t) && HoldsSum(t, s.name, ds) && Uniform(ds + [s.data])
    ensures AddSeries(t, s, AsArray).Success? && HoldsSum(AddSeries(t, s, AsArray).value, s.name, ds + [s.data])
  {
    SumAllSnoc(ds, s.data);
    if ds != [] {
      assert AccAdd(Arr(SumAll(ds)), s.data) == Success(Arr(AddElementwise(SumAll(ds), s.data)));
    }
  }

  /** Stored as an array on first sight, a later name sums every series of that name. */
  lemma {:induction false} AddAllSumsUnseen(t: Table, series: seq<Series>, n: Value, ds: seq<seq<int>>)
    requires ValidTable(t) && HoldsSum(t, n, ds) && Uniform(ds + NamedData(series, n))
    requires AddAll(t, series, AsArray).Success?
    ensures HoldsSum(AddAll(t, series, AsArray).value, n, ds + NamedData(series, n))
  {
    if series == [] {
      assert ds + NamedData(series, n) == ds;
    } else {
      var prefix := series[..|series| - 1];
      var last := series[|series| - 1];
      var t' := AddAll(t, prefix, AsArray).value;
      var t'' := AddSeries(t', last, AsArray);
      assert AddAll(t, series, AsArray) == t'';
      var before := NamedData(prefix, n);
      var after := NamedData(series, n);
      if last.name == n {
        assert after == before + [last.data];
        Associative(ds, before, [last.data]);
        UniformPrefix(ds + before, [last.data]);
        AddAllSumsUnseen(t, prefix, n, ds);
        SnocSum(t', last, ds + before);
      } else {
        assert after == before;
        AddAllSumsUnseen(t, prefix, n, ds);
        assert t''.value.accs == t'.accs[last.name := t''.value.accs[last.name]];
      }
    }
  }

  lemma {:induction false} MergeIntoSumsUnseen(t: Table, categories: seq<string>, hists: seq<Histogram>, n: Value, ds: seq<seq<int>>)
    requires ValidTable(t) && HoldsSum(t, n, ds) && Uniform(ds + GroupData(hists, n))
    requires MergeInto(t, categories, hists, AsArray).Success?
    ensures HoldsSum(MergeInto(t, categories, hists, AsArray).value, n, ds + GroupData(hists, n))
  {
    if hists == [] {
      assert ds + GroupData(hists, n) == ds;
    } else {
      var prefix := hists[..|hists| - 1];
      var last := hists[|hists| - 1];
      var t' := MergeInto(t, categories, prefix, AsArray).value;
      assert last.categories == categories && MergeInto(t, categories, hists, AsArray) == AddAll(t', last.series, AsArray);
      var a := GroupData(prefix, n);
      var b := NamedData(last.series, n);
      assert GroupData(hists, n) == a + b;
      Associative(ds, a, b);
      UniformPrefix(ds + a, b);
      MergeIntoSumsUnseen(t, categories, prefix, n, ds);
      AddAllSumsUnseen(t', last.series, n, ds + a);
    }
  }

  /**
   * With unseen names stored as arrays, a name absent from the first
   * histogram whose later series all have one length comes out as the
   * element-wise sum of those series.
   */
  lemma MergeSumsLaterNames(hists: seq<Histogram>, n: Value)
    requires |hists| > 0 && (forall s :: s in hists[0].series ==> s.name != n) && Occurs(hists[1..], n)
    requires Uniform(GroupData(hists[1..], n)) && MergeGroup(hists, AsArray).Success?
    ensures GroupData(hists[1..], n) != []
    ensures var out := MergeGroup(hists, AsArray).value.series;
      exists k :: 0 <= k < |out| && out[k] == Series(n, SumAll(GroupData(hists[1..], n)))
  {
    var init := InitTable(hists[0].series);
    var ds := GroupData(hists[1..], n);
    InitTableLookup(hists[0].series, n);
    assert [] + ds == ds;
    MergeIntoSumsUnseen(init, hists[0].categories, hists[1..], n, []);
    var t := MergeInto(init, hists[0].categories, hists[1..], AsArray).value;
    MergeIntoKeys(init, hists[0].categories, hists[1..], n, AsArray);
    var k :| 0 <= k < |t.names| && t.names[k] == n;
    assert MergeGroup(hists, AsArray).value.series[k] == Output(t)[k];
  }

  /**
   * A later histogram whose axis differs from the first's makes the merge
   * fail: with `AssertionError` when it is checked, or with an earlier
   * `ValueError` from a series before it.
   */
  lemma MismatchedAxisFails(hists: seq<Histogram>, i: nat, unseen: Unseen)
    requires 0 < i < |hists| && hists[i].categories != hists[0].categories
    ensures MergeGroup(hists, unseen).Failure?
    ensures MergeGroup(hists, unseen).error == AssertionError || MergeGroup(hists, unseen).error == ValueError
  {
    if MergeGroup(hists, unseen).Success? {
      MergeKeepsFirst(hists, unseen);
    }
  }
}
