/**
 * Concrete merges: equal-length series under a name of the first histogram
 * are summed; a name first met in a later histogram has its data joined as
 * the merge is written, and summed when it is stored as an array.
 */
module AggregationExamples {
  import opened PyValues
  import opened Records
  import opened Aggregation

  lemma AddAllSingle(t: Table, s: Series, unseen: Unseen)
    requires ValidTable(t)
    ensures AddAll(t, [s], unseen) == AddSeries(t, s, unseen)
  {
    assert [s][..0] == [];
  }

  lemma MergeIntoSingle(t: Table, categories: seq<string>, h: Histogram, unseen: Unseen)
    requires ValidTable(t) && h.categories == categories
    ensures MergeInto(t, categories, [h], unseen) == AddAll(t, h.series, unseen)
  {
    assert [h][..0] == [];
  }

  lemma MergeIntoSnoc(t: Table, categories: seq<string>, hists: seq<Histogram>, h: Histogram, unseen: Unseen)
    requires ValidTable(t) && MergeInto(t, categories, hists, unseen).Success? && h.categories == categories
    ensures MergeInto(t, categories, hists + [h], unseen) == AddAll(MergeInto(t, categories, hists, unseen).value, h.series, unseen)
  {
    assert (hists + [h])[..|hists|] == hists;
  }

  lemma ArraySum()
    ensures AccAdd(Arr([1, 2, 3]), [4, 5, 6]) == Success(Arr([5, 7, 9]))
  {
    assert AddElementwise([1, 2, 3], [4, 5, 6]) == [5, 7, 9];
  }

  lemma ListJoin()
    ensures AccAdd(Lst([1, 2]), [3, 4]) == Success(Lst([1, 2, 3, 4]))
  {
    assert [1, 2] + [3, 4] == [1, 2, 3, 4];
  }

  lemma ArrayJoin()
    ensures AccAdd(Arr([1, 2]), [3, 4]) == Success(Arr([4, 6]))
  {
    assert AddElementwise([1, 2], [3, 4]) == [4, 6];
  }

  const All: Value := Str("all")

  lemma SumStart()
    ensures InitTable([Series(All, [1, 2, 3])]) == Table([All], map[All := Arr([1, 2, 3])])
  {
    assert [Series(All, [1, 2, 3])][..0] == [];
  }

  lemma SumStep(unseen: Unseen)
    ensures AddAll(Table([All], map[All := Arr([1, 2, 3])]), [Series(All, [4, 5, 6])], unseen)
      == Success(Table([All], map[All := Arr([5, 7, 9])]))
  {
    var init := Table([All], map[All := Arr([1, 2, 3])]);
    AddAllSingle(init, Series(All, [4, 5, 6]), unseen);
    ArraySum();
    assert init.accs[All := Arr([5, 7, 9])] == map[All := Arr([5, 7, 9])];
  }

  /** Two histograms with the same label and axis, and series `[1, 2, 3]` and `[4, 5, 6]`: the merge is `[5, 7, 9]`. */
  lemma SumExample(first: Histogram, second: Histogram, unseen: Unseen)
    requires first.categories == second.categories
    requires first.series == [Series(All, [1, 2, 3])] && second.series == [Series(All, [4, 5, 6])]
    ensures MergeGroup([first, second], unseen) == Success(first.(series := [Series(All, [5, 7, 9])]))
  {
    var init := Table([All], map[All := Arr([1, 2, 3])]);
    var merged := Table([All], map[All := Arr([5, 7, 9])]);
    SumStart();
    SumStep(unseen);
    assert [first, second][1..] == [second];
    MergeIntoSingle(init, first.categories, second, unseen);
    assert Output(merged) == [Series(All, [5, 7, 9])];
  }

  const X: Value := Str("x")

  /** The table after the first sighting of `x` with data `[1, 2]`. */
  function Sighted(unseen: Unseen): Table {
    Table([X], map[X := Fresh(unseen, [1, 2])])
  }

  function Joined(unseen: Unseen): Table {
    Table([X], map[X := if unseen.AsList? then Lst([1, 2, 3, 4]) else Arr([4, 6])])
  }

  lemma FirstSighting(unseen: Unseen)
    ensures AddAll(EmptyTable, [Series(X, [1, 2])], unseen) == Success(Sighted(unseen))
  {
    AddAllSingle(EmptyTable, Series(X, [1, 2]), unseen);
    assert Put(EmptyTable, X, Fresh(unseen, [1, 2])) == Sighted(unseen);
  }

  lemma SecondSighting(unseen: Unseen)
    ensures AddAll(Sighted(unseen), [Series(X, [3, 4])], unseen) == Success(Joined(unseen))
  {
    var t := Sighted(unseen);
    var acc := Joined(unseen).accs[X];
    AddAllSingle(t, Series(X, [3, 4]), unseen);
    if unseen.AsList? { ListJoin(); } else { ArrayJoin(); }
    assert AccAdd(t.accs[X], [3, 4]) == Success(acc);
    assert t.accs[X := acc] == Joined(unseen).accs;
    assert AddSeries(t, Series(X, [3, 4]), unseen) == Success(Put(t, X, acc));
  }

  /** The merge step of a group, once the accumulated table is known. */
  lemma MergeGroupOf(hists: seq<Histogram>, t: Table, unseen: Unseen)
    requires |hists| > 0
    requires MergeInto(InitTable(hists[0].series), hists[0].categories, hists[1..], unseen) == Success(t)
    ensures MergeGroup(hists, unseen) == Success(hists[0].(series := Output(t)))
  {
  }

  lemma LaterSightings(second: Histogram, third: Histogram, categories: seq<string>, unseen: Unseen)
    requires second.categories == third.categories == categories
    requires second.series == [Series(X, [1, 2])] && third.series == [Series(X, [3, 4])]
    ensures MergeInto(EmptyTable, categories, [second] + [third], unseen) == Success(Joined(unseen))
  {
    FirstSighting(unseen);
    MergeIntoSingle(EmptyTable, categories, second, unseen);
    SecondSighting(unseen);
    MergeIntoSnoc(EmptyTable, categories, [second], third, unseen);
  }

  /** The merge of a first histogram without series and two with a series `x` of data `[1, 2]` and `[3, 4]`. */
  lemma LaterNameMerge(first: Histogram, second: Histogram, third: Histogram, unseen: Unseen)
    requires first.categories == second.categories == third.categories
    requires first.series == [] && second.series == [Series(X, [1, 2])] && third.series == [Series(X, [3, 4])]
    ensures MergeGroup([first, second, third], unseen) == Success(first.(series := Output(Joined(unseen))))
  {
    var hists := [first, second, third];
    LaterSightings(second, third, first.categories, unseen);
    assert hists[1..] == [second] + [third];
    assert InitTable(first.series) == EmptyTable;
    MergeGroupOf(hists, Joined(unseen), unseen);
  }

  /** As written, `x` is the two lists joined: `[1, 2, 3, 4]`, twice as long as the axis it is counted against. */
  lemma ConcatenationExample(first: Histogram, second: Histogram, third: Histogram)
    requires first.categories == second.categories == third.categories
    requires first.series == [] && second.series == [Series(X, [1, 2])] && third.series == [Series(X, [3, 4])]
    ensures MergeGroup([first, second, third], AsList) == Success(first.(series := [Series(X, [1, 2, 3, 4])]))
  {
    LaterNameMerge(first, second, third, AsList);
    assert Output(Joined(AsList)) == [Series(X, [1, 2, 3, 4])];
  }

  /** Stored as an array on first sight, `x` is the element-wise sum `[4, 6]`. */
  lemma CorrectedExample(first: Histogram, second: Histogram, third: Histogram)
    requires first.categories == second.categories == third.categories
    requires first.series == [] && second.series == [Series(X, [1, 2])] && third.series == [Series(X, [3, 4])]
    ensures MergeGroup([first, second, third], AsArray) == Success(first.(series := [Series(X, [4, 6])]))
  {
    LaterNameMerge(first, second, third, AsArray);
    assert Output(Joined(AsArray)) == [Series(X, [4, 6])];
  }
}
