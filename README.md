# Histograms of a dependent variable, and their cross-node merge

A Dafny model of the histogram logic of `python-histograms/histograms.py`. That script does two things:
- It computes chart-ready histograms of a dependent variable: one over the whole series, and one per nominal (categorical) independent variable used as a grouping.
- In its aggregate mode, it merges the histogram lists computed on separate nodes into one list.

The modules follow the script's structure:

| file | module | models |
|---|---|---|
| `values.dfy` | `PyValues` | Python values (`None`, strings, integers); the exceptions raised; `str()` of an integer, `int()` of a string, `str.lower`, and `<` on strings |
| `records.dfy` | `Records` | variable records, series `{name, data}`, histograms `{label, title, categories, series}`, parameters; `is_nominal`, `is_integer` |
| `counting.dfy` | `Counting` | `count`: an ordered table of counters, zeroed and then bumped in a loop |
| `categories.dfy` | `Categories` | `compute_categories`: the nominal axis, the integer bins, and the empty-series error |
| `series.dfy` | `NominalSeries` | the nominal branch of `compute_series` |
| `histograms.dfy` | `HistogramAssembly` | `compute_histogram(s)` and `error_histogram(s)` |
| `parameters.dfy` | `Parameters` | `get_bins_param` and `get_boolean_param` |
| `aggregation.dfy` | `Aggregation` | `_load_intermediate_data` and the grouping and merge loops of `aggregate_histograms` |
| `aggregation_examples.dfy` | `AggregationExamples` | concrete merges |

The source's loops are methods proved equal to specification functions. The loops are `count`, the two parameter searches, the list building of `compute_histograms` and `error_histograms`, and the nested merge loops. The properties are then proved about those functions. A result either carries a value or names the exception the source raises:
- `UserError`, with its two messages;
- `TypeError`, `ZeroDivisionError` and `ValueError`, which the source does not catch;
- `AssertionError`, raised when a merge finds two different axes.

Some decisions follow from the exact behaviour of the code:
- `compute_histograms` tests `len(dep_var) > 0`, and `dep_var` is a record or `[]`. The test therefore asks whether the dependent record exists, not whether its series is empty. An empty series reaches `compute_categories`, which raises `UserError`; it does not yield an empty list. The model takes the record as an `Option`.
- `dep_var.get('minValue', min(values))` evaluates `min(values)` even when a bound is recorded. A series that cannot be ordered, such as one holding a `None` and a number, raises `TypeError` in every non-nominal branch.
- `numpy.arange` refuses a zero step. So an integer variable whose span is 0 raises, as does a `bins` of 0 (`ZeroDivisionError` in both cases).
- Two duplicate collapses are modelled:
  - In `count`, a category listed twice keeps a single counter, at its first position.
  - In the merge, a series name repeated within the first histogram keeps its first position and its last data.

## Model

| member | source | states |
|---|---|---|
| PyValues.NatToDecimal | python-histograms/histograms.py:256 | `str(n)` of a natural number is non-empty and all digits, and starts with `0` only for 0 |
| PyValues.PyStrNone | python-histograms/histograms.py:253-256 | only `None` and the string `'None'` have `'None'` as their `str()` |
| PyValues.IntIsNeverNone | python-histograms/histograms.py:253-256 | the string of an integer is never `'None'`, so only a real `None` is counted under `'None'` |
| PyValues.ParseIntOfDecimal | python-histograms/histograms.py:267 | `int()` reads back what `str()` writes, for every integer, negative ones included |
| PyValues.ParseIntAccepts | python-histograms/histograms.py:267 | what `int()` accepts: after stripping, a digit or sign first and a digit last; only a leading `-` gives a negative number; text without a digit raises `ValueError` |
| PyValues.AsciiLower | python-histograms/histograms.py:277 | same length; each ASCII capital becomes its small letter, every other character is kept, and no ASCII capital is left |
| PyValues.LexLessIrreflexive | python-histograms/histograms.py:84 | no label sorts before itself |
| PyValues.LexLessTransitive | python-histograms/histograms.py:84 | the label order is transitive |
| PyValues.LexLessTotal | python-histograms/histograms.py:84 | of two different labels, one sorts first |
| Records.NominalSelection | python-histograms/histograms.py:283-288 | the grouping filter keeps exactly the variables typed `binominal` or `polynominal`, never an integer one; a second pass changes nothing; and it leaves a list unchanged exactly when every variable of it is nominal |
| Records.IsInteger | python-histograms/histograms.py:287-288 | a variable is integer exactly when its type name is `integer`, and then it is not nominal |
| Records.NominalVars | python-histograms/histograms.py:124 | the grouping variables are exactly the nominal independent variables, no more of them than there are independent variables; a single variable is kept exactly when it is nominal |
| Records.NominalVarsAppend | python-histograms/histograms.py:124 | filtering a concatenation filters each part and keeps their order, so the grouping variables come in the input order |
| Records.NominalVarsOfNominal | python-histograms/histograms.py:124 | filtering a list of nominal variables keeps it unchanged |
| Counting.Distinct | python-histograms/histograms.py:250 | the keys of the counter table have no duplicates and are exactly the given categories |
| Counting.DistinctFirstOccurrence | python-histograms/histograms.py:250 | the keys come in first-occurrence order: a key listed before another first occurs earlier in the categories |
| Counting.DistinctOfDistinct | python-histograms/histograms.py:250 | categories without duplicates are their own keys, in their own order |
| Counting.ZeroedTable | python-histograms/histograms.py:250 | the table is keyed by the distinct categories, each counter at 0 |
| Counting.KeyIsStr | python-histograms/histograms.py:253-256 | the key an item is counted under is its `str()`, and it is `'None'` only for `None` and the string `'None'` |
| Counting.OccurrencesZero | python-histograms/histograms.py:251-256 | a category counts at most every item, and counts none exactly when no item has it as its key |
| Counting.CountOne | python-histograms/histograms.py:252-258 | one item bumps the counter of its key by one and leaves the others; a key that is not in the table changes nothing |
| Counting.CountItems | python-histograms/histograms.py:251-259 | the counting loop keeps the table's keys and leaves each counter at the number of data items counted under its key |
| Counting.Count | python-histograms/histograms.py:249-260 | one counter per distinct category, in category order; counter i is the number of data items counted under key i (`'None'` for `None`, else `str(v)`); unknown items are skipped; equal to `Tally` |
| Counting.Tally | python-histograms/histograms.py:249-260 | the counters number exactly the distinct categories |
| Counting.NoneCountsNulls | python-histograms/histograms.py:253-254 | when no item is the string `'None'`, the `'None'` counter is the number of `None` items |
| Counting.TallyTotal | python-histograms/histograms.py:251-260 | the counters sum to at most the number of items, with equality exactly when every item's key is a category |
| Categories.NominalCategories | python-histograms/histograms.py:192-197 | categories and labels are one list: the enumeration as strings in order, followed by `'None'` and `'No data'` when the series holds a `None` |
| Categories.Orderable | python-histograms/histograms.py:201-202 | `min` and `max` succeed on an all-integer series, and raise on two items or more that include a `None` or mix an integer with a string |
| Categories.Bound | python-histograms/histograms.py:201-202 | a recorded bound is used as is; otherwise the bound is known exactly when the series is all integers, and is then an item of the series below (for the minimum) or above (for the maximum) all others |
| Categories.MinInt | python-histograms/histograms.py:201 | `min` of an all-integer series is one of its items and bounds all of them from below |
| Categories.MaxInt | python-histograms/histograms.py:202 | `max` of an all-integer series is one of its items and bounds all of them from above |
| Categories.CeilDiv | python-histograms/histograms.py:205 | the exact ceiling of a quotient, for either sign of the divisor |
| Categories.IntArange | python-histograms/histograms.py:206 | `arange` on integers: term i is `start + i * step`, every term is short of `stop`, and one more step would reach it; both signs of step |
| Categories.EdgeLabelReadsBack | python-histograms/histograms.py:207 | an edge label is the edge, `" - "` and the edge plus the step, each number reading back with `int()` |
| Categories.IntegerEdges | python-histograms/histograms.py:204-207 | the axis exists exactly when neither the bin count nor the step is zero, and then has one label per edge; every failure, a zero `nb_bins` in the division or a zero step in `arange`, is `ZeroDivisionError` |
| Categories.IntegerEdgesShape | python-histograms/histograms.py:204-207 | for `nb_bins > 0` and `max > min`: a positive step; edges `min, min + step, ...`, all below `max`, that together reach it; between 1 and `nb_bins` of them; label i is `"e_i - (e_i + step)"` |
| Categories.ComputeCategories | python-histograms/histograms.py:185-216 | an empty series raises `UserError`; a nominal variable gets the nominal axis of its enumeration, with `'None'` and `'No data'` exactly when its series holds a `None`; an unorderable non-nominal series raises `TypeError`; an integer variable gets the integer bins between its bounds, or `TypeError` when a bound is not a number; the axis kind matches the variable kind |
| Categories.IntegerSeriesBins | python-histograms/histograms.py:200-207 | an all-integer series with two distinct values and no recorded bounds gets bins starting at its minimum, all below its maximum, and at most `nb_bins` of them |
| NominalSeries.ZipFilter | python-histograms/histograms.py:227 | at most as many values as the shorter list; none when the grouping value never matches, all of them when it always does |
| NominalSeries.ComputeSeries | python-histograms/histograms.py:222-228 | one series `"all"` without grouping, one per grouping-enumeration value with it; each has one counter per distinct category |
| NominalSeries.UngroupedSeriesCounts | python-histograms/histograms.py:223-224 | the `"all"` series counts the whole dependent series |
| NominalSeries.GroupedSeriesCounts | python-histograms/histograms.py:226-228 | series i is named by enumeration value i; its counter j is the number of zipped pairs, over the shorter series, whose grouping value is that name and whose dependent value falls under category j |
| NominalSeries.GroupedSeriesPartition | python-histograms/histograms.py:226-228 | with a duplicate-free enumeration, a category's counters summed over all grouped series are at most its count in the zipped prefix, and equal it when every paired grouping value is enumerated |
| HistogramAssembly.LabelsIdentifyGrouping | python-histograms/histograms.py:130-133 | two histograms have the same label exactly when both are ungrouped or both are grouped by variables of the same name |
| HistogramAssembly.Titles | python-histograms/histograms.py:128-167 | both titles start with the dependent variable's name and end with the grouping variable's, and the error title never equals the computed one |
| HistogramAssembly.ComputeHistogram | python-histograms/histograms.py:129-151 | raises what computing the axis raises, including `UserError` for an empty series; otherwise has the label and title of its grouping and the axis labels as categories. For a nominal variable it succeeds exactly when the series is non-empty, and its series are exactly `compute_series` over the axis categories |
| HistogramAssembly.ErrorHistogram | python-histograms/histograms.py:162-182 | the same label as the computed histogram, with no categories and no series |
| HistogramAssembly.ComputeHistograms | python-histograms/histograms.py:120-127 | no record gives `[]`; an empty series raises `UserError`. Otherwise `1 + #nominal independents` histograms: the ungrouped one labelled `"Histogram"`, then one per nominal independent in order, labelled `"Histogram - <name>"`. Otherwise the first exception, with all histograms before it computed |
| HistogramAssembly.ErrorHistograms | python-histograms/histograms.py:153-160 | the same list shape and labels as `compute_histograms`, every entry with empty categories and series |
| Parameters.GetBinsParam | python-histograms/histograms.py:263-271 | the value of the first entry that has the name and converts to an integer; entries that do not convert are skipped; 20 when none converts |
| Parameters.GetBooleanParam | python-histograms/histograms.py:273-281 | the first entry with the name decides: true exactly when its lower-cased value is `yes`, `true`, `t` or `1`; the default when no entry has the name |
| Parameters.BinsOfDecimal | python-histograms/histograms.py:263-268 | a `bins` entry written as an integer, first of its name, yields that integer |
| Aggregation.Chain | python-histograms/histograms.py:112 | the chained list holds exactly the jobs' histograms, and is empty exactly when every job's list is; one job's chain is its list |
| Aggregation.ChainAppend | python-histograms/histograms.py:112 | chaining a concatenation of jobs concatenates their chains, so the histograms come in job order |
| Aggregation.LoadIntermediateData | python-histograms/histograms.py:109-117 | raises `UserError` naming the job ids exactly when no job has data; otherwise the non-empty chained list |
| Aggregation.InsertLabel | python-histograms/histograms.py:84 | inserting a label into an ascending list keeps it strictly ascending, holding the old labels and the new one |
| Aggregation.SortedLabels | python-histograms/histograms.py:84-85 | the group keys are strictly ascending and are exactly the labels present |
| Aggregation.WithLabel | python-histograms/histograms.py:84-86 | a group holds exactly the histograms with its label, and is non-empty exactly when that label is present; a single histogram is kept exactly when it has the label |
| Aggregation.WithLabelAppend | python-histograms/histograms.py:84-86 | selecting a label from a concatenation selects it from each part, in order, so a group keeps the input order |
| Aggregation.InitTable | python-histograms/histograms.py:89 | the initial dict is well formed: names without duplicates, each with an entry (what each entry holds is `InitTableLookup`) |
| Aggregation.Put | python-histograms/histograms.py:97-99 | dict assignment: a new name goes last, an existing name keeps its place, and the table stays duplicate-free |
| Aggregation.AccAdd | python-histograms/histograms.py:99 | `+=` on a plain list appends; on an array it is element-wise for equal lengths and broadcasts a one-element list; it raises `ValueError` exactly for an array and any other length |
| Aggregation.AddSeries | python-histograms/histograms.py:96-99 | an unseen name is stored with the series' data; a seen one is `+=`-ed; only that name's entry changes |
| Aggregation.AddAll | python-histograms/histograms.py:95-99 | the inner loop keeps the dict well formed, never drops a name, and fails only with `ValueError` |
| Aggregation.MergeInto | python-histograms/histograms.py:93-99 | the outer loop keeps the dict well formed, never drops a name, and fails only with `AssertionError` or `ValueError` |
| Aggregation.Output | python-histograms/histograms.py:102 | one series per dict entry, in insertion order, each with that name's accumulated data |
| Aggregation.MergeGroup | python-histograms/histograms.py:86-102 | a successful merge is the first histogram with only its series replaced; a failed one raises `AssertionError` or `ValueError` |
| Aggregation.AddAllLoop | python-histograms/histograms.py:95-99 | the inner loop computes the specification fold, stopping at the first `ValueError` |
| Aggregation.MergeHistogram | python-histograms/histograms.py:93-99 | one pass of the outer loop, the axis check and then the inner loop, is exactly one more step of `MergeInto` |
| Aggregation.MergeGroupLoop | python-histograms/histograms.py:86-102 | the nested loops compute the specification merge `MergeGroup`, with the axis check and the first exception |
| Aggregation.CollectValues | python-histograms/histograms.py:85-103 | when every group's merge succeeds, the result list holds each merge's value, in order |
| Aggregation.CollectSucceeds | python-histograms/histograms.py:85-103 | the loop over groups succeeds exactly when every group's merge does |
| Aggregation.CollectFailure | python-histograms/histograms.py:85-103 | a failed loop raises what the first failing group raises, all groups before it having merged |
| Aggregation.GroupLabel | python-histograms/histograms.py:84-91 | the merge of a label's group carries that label |
| Aggregation.MergedLabels | python-histograms/histograms.py:84-103 | merges listed in label order carry the labels in that order |
| Aggregation.MergedGroups | python-histograms/histograms.py:84-103 | a successful loop over groups gives one merge per label, each carrying its label and equal to the merge of its group; for either handling of unseen names |
| Aggregation.MergeGroups | python-histograms/histograms.py:85-103 | the loop over the sorted labels collects each group's merge in order, stopping at the first exception; for either handling of unseen names |
| Aggregation.FirstFailingAt | python-histograms/histograms.py:85-103 | a failed loop over groups raises what the first failing group's merge raises; for either handling of unseen names |
| Aggregation.AggregateHistograms | python-histograms/histograms.py:74-103 | `UserError` when there is no data. Otherwise one merged histogram per distinct label, with labels strictly ascending and exactly those present, each the merge of its group in input order. Otherwise the first exception any group raises. With `AsList` this is the program as written; with `AsArray` it is the corrected merge of the finding below |
| Aggregation.InitTableLookup | python-histograms/histograms.py:88 | the initial table holds exactly the first histogram's names, each as an array of the last data given under it |
| Aggregation.MergeKeepsFirst | python-histograms/histograms.py:91-94 | a successful merge keeps the first histogram's label, title and categories, and every merged input has those categories |
| Aggregation.MismatchedAxisFails | python-histograms/histograms.py:94 | a group with two different axes fails to merge: with `AssertionError` at the check, or earlier with a `ValueError` |
| Aggregation.MergeNames | python-histograms/histograms.py:88-102 | the merged series have distinct names, and a name appears exactly when some input series has it (their order is `MergeOrder`) |
| Aggregation.MergeOrder | python-histograms/histograms.py:88-102 | the merged names are the group's series names at their first occurrence, the first histogram's before the later ones': the first histogram's names come first, in their own order (exactly its series' names when none repeats), and a name listed before another is met before it in the group |
| Aggregation.MergeSumsFirstNames | python-histograms/histograms.py:88-99 | for a name of the first histogram, when all later series of that name have the same length, the merged data is the element-wise sum over all inputs carrying it |
| Aggregation.MergeConcatenatesLaterNames | python-histograms/histograms.py:96-99 | as written, a name absent from the first histogram ends up as all its data joined end to end |
| Aggregation.MergeSumsLaterNames | python-histograms/histograms.py:96-99 | stored as an array on first sight, such a name ends up as the element-wise sum of its equal-length series |
| AggregationExamples.SumExample | python-histograms/histograms.py:88-102 | series `[1, 2, 3]` and `[4, 5, 6]` under one name merge to `[5, 7, 9]` |
| AggregationExamples.ConcatenationExample | python-histograms/histograms.py:96-99 | as written, a later name given `[1, 2]` then `[3, 4]` merges to `[1, 2, 3, 4]` |
| AggregationExamples.CorrectedExample | python-histograms/histograms.py:96-99 | when stored as an array, the same input merges to `[4, 6]` |

## Left out

- Process plumbing is not modelled:
  - `main`, the strict and exit-on-error handling, `sys.exit`, argparse and logging;
  - fetching inputs and job results, and storing results: `io_helper` is not part of this model.
- JSON encoding and decoding are not modelled: histograms are records, and a job's stored result is its already-parsed list (an empty or missing one is `[]`).
- The chart fields that never vary (`chart`, `yAxis`) are not modelled.
- The continuous branch of `compute_categories` and the numeric branch of `compute_series` are parameters of `HistogramAssembly.ComputeHistogram` (its `NumericBackend`). They use floats, `numpy.histogram` and pandas, and their results are taken as given: any labels, any series, or any exception. Like the source, they are reached only after `min` and `max` have been evaluated.
- Values are `None`, strings and integers. Booleans and floats are left out, and with them Python's `True == 1` and `1 == 1.0`.
- A `minValue`/`maxValue` recorded as `null` is left out: a recorded bound is an integer.
- Categories.CeilDiv: computes `math.ceil` of the quotient exactly, with no float rounding. The source divides in floating point, which can differ for spans beyond 2^53.
- Categories.IntArange: integer `arange` computed exactly; numpy's float-length computation is not modelled.
- PyValues.ParseInt: accepts ASCII digits, ASCII whitespace, single underscores between digits and one sign. The Unicode digits and spaces that `int()` also accepts are left out.
- PyValues.AsciiLower: lower-cases ASCII letters only. That is exact for the comparison against the four ASCII words, except for the few non-ASCII characters that `str.lower` maps into ASCII (such as the Kelvin sign).
- Parameter values are strings; non-string values are not modelled.
- Aggregation.AccAdd: numpy's `int64` wrap-around on `+=` is not modelled; the merged sums are unbounded integers.
- The merge's dict is taken to iterate in insertion order, as Python guarantees from version 3.7; older interpreters give no such order.
- The aggregate mode's merged list is returned rather than stored.

## Findings

| source | as written | input that shows it | evidently intended | confidence | as-written member | corrected member |
|---|---|---|---|---|---|---|
| python-histograms/histograms.py:96-99 | a series name absent from the first histogram of a label is stored as the plain list it came with, so a later `+=` on that name extends the list | one label and one axis over three histograms: the first has no series, the next two have a series `x` with data `[1, 2]` and `[3, 4]`; `x` comes out as `[1, 2, 3, 4]`, twice as long as the axis | `x` is `[4, 6]`, summed element-wise like the names of the first histogram | medium (not executed) | Aggregation.MergeConcatenatesLaterNames, AggregationExamples.ConcatenationExample | Aggregation.MergeSumsLaterNames, AggregationExamples.CorrectedExample |
