/**
 * `count(data, categories)`: tally the items of a series against the
 * categories of a nominal axis. An ordered table is created with one zero
 * counter per category (an `OrderedDict`, so a repeated category gets one
 * counter, at its first position); every item bumps the counter of its string
 * form (`None` under `'None'`); an item whose string form is not a category is
 * skipped.
 */
module Counting {
  import opened PyValues

  predicate NoDuplicates<T(==)>(s: seq<T>) {
    forall i, j :: 0 <= i < j < |s| ==> s[i] != s[j]
  }

  /** The keys of the table built from `categories`: the first occurrence of each, in order. */
  function Distinct<T(==,!new)>(categories: seq<T>): (r: seq<T>)
    ensures NoDuplicates(r)
    ensures forall c :: c in r <==> c in categories
  {
    if categories == [] then []
    else
      var prefix := Distinct(categories[..|categories| - 1]);
      var c := categories[|categories| - 1];
      if c in prefix then prefix else prefix + [c]
  }

  /** A list without repetitions is its own table of keys. */
  lemma {:induction false} DistinctOfDistinct<T(!new)>(categories: seq<T>)
    requires NoDuplicates(categories)
    ensures Distinct(categories) == categories
  {
    if categories != [] {
      DistinctOfDistinct(categories[..|categories| - 1]);
    }
  }

  /** One more item adds a key exactly when it is new. */
  lemma DistinctSnoc<T(!new)>(s: seq<T>, x: T)
    ensures Distinct(s + [x]) == if x in Distinct(s) then Distinct(s) else Distinct(s) + [x]
  {
    assert (s + [x])[..|s|] == s;
  }

  /** More items keep the keys already there, in their places: new keys only come after them. */
  lemma {:induction false} DistinctPrefix<T(!new)>(a: seq<T>, b: seq<T>)
    ensures |Distinct(a)| <= |Distinct(a + b)|
    ensures Distinct(a + b)[..|Distinct(a)|] == Distinct(a)
  {
    if b == [] {
      assert a + b == a;
    } else {
      var b' := b[..|b| - 1];
      DistinctPrefix(a, b');
      assert a + b == (a + b') + [b[|b| - 1]];
      DistinctSnoc(a + b', b[|b| - 1]);
    }
  }

  /** The position of the first `c` in `s`. */
  function FirstIndex<T(==)>(s: seq<T>, c: T): (k: nat)
    requires c in s
    ensures k < |s| && s[k] == c
    ensures forall j :: 0 <= j < k ==> s[j] != c
  {
    if s[0] == c then 0 else 1 + FirstIndex(s[1..], c)
  }

  /** A position holding `c` with no `c` before it is the first one. */
  lemma FirstIndexAt<T>(s: seq<T>, c: T, k: nat)
    requires k < |s| && s[k] == c && forall j :: 0 <= j < k ==> s[j] != c
    ensures FirstIndex(s, c) == k
  {
  }

  /**
   * The keys come in the order in which the categories first occur: a key
   * listed before another first occurs before it in `categories`.
   */
  lemma {:induction false} DistinctFirstOccurrence<T(!new)>(categories: seq<T>)
    ensures forall i, j :: 0 <= i < j < |Distinct(categories)| ==>
      FirstIndex(categories, Distinct(categories)[i]) < FirstIndex(categories, Distinct(categories)[j])
  {
    if categories != [] {
      var n := |categories| - 1;
      var front := categories[..n];
      var c := categories[n];
      var prefix := Distinct(front);
      DistinctFirstOccurrence(front);
      assert categories == front + [c];
      forall x | x in front
        ensures FirstIndex(categories, x) == FirstIndex(front, x)
      {
        FirstIndexAt(categories, x, FirstIndex(front, x));
      }
      if c !in prefix {
        FirstIndexAt(categories, c, n);
        var r := prefix + [c];
        forall i, j | 0 <= i < j < |r|
          ensures FirstIndex(categories, r[i]) < FirstIndex(categories, r[j])
        {
          assert r[i] == prefix[i] && r[i] in front;
          assert FirstIndex(categories, r[i]) == FirstIndex(front, r[i]) < n;
          if j < |prefix| {
            assert r[j] == prefix[j] && r[j] in front;
            assert FirstIndex(categories, r[j]) == FirstIndex(front, r[j]);
            assert FirstIndex(front, prefix[i]) < FirstIndex(front, prefix[j]);
          } else {
            assert r[j] == c;
          }
        }
      }
    }
  }

  /** The key an item is counted under: `'None'` for `None`, `str(v)` otherwise. */
  function Key(v: Value): string {
    if v.Null? then "None" else PyStr(v)
  }

  /**
   * The key is `str(v)` in every case, `str(None)` being `'None'`; so only
   * `None` and the string `'None'` are counted under `'None'`.
   */
  lemma KeyIsStr(v: Value)
    ensures Key(v) == PyStr(v)
    ensures Key(v) == "None" <==> v == Null || v == Str("None")
  {
    PyStrNone(v);
  }

  /** The number of items of `data` counted under category `c`. */
  function Occurrences(data: seq<Value>, c: string): nat {
    if data == [] then 0
    else Occurrences(data[..|data| - 1], c) + (if Key(data[|data| - 1]) == c then 1 else 0)
  }

  /** A category counts at most every item, and nothing exactly when no item has it as its key. */
  lemma {:induction false} OccurrencesZero(data: seq<Value>, c: string)
    ensures Occurrences(data, c) <= |data|
    ensures Occurrences(data, c) == 0 <==> forall i :: 0 <= i < |data| ==> Key(data[i]) != c
  {
    if data != [] {
      var front := data[..|data| - 1];
      OccurrencesZero(front, c);
      assert Occurrences(data, c) == Occurrences(front, c) + (if Key(data[|front|]) == c then 1 else 0);
      assert forall i :: 0 <= i < |front| ==> front[i] == data[i];
    }
  }

  lemma OccurrencesSnoc(data: seq<Value>, v: Value, c: string)
    ensures Occurrences(data + [v], c) == Occurrences(data, c) + (if Key(v) == c then 1 else 0)
  {
    assert (data + [v])[..|data|] == data;
  }

  /** The number of items of `data` whose key is one of `keys`, i.e. that are counted at all. */
  function Matched(data: seq<Value>, keys: seq<string>): nat {
    if data == [] then 0
    else Matched(data[..|data| - 1], keys) + (if Key(data[|data| - 1]) in keys then 1 else 0)
  }

  /** What `count` returns: one counter per distinct category, in category order. */
  function Tally(data: seq<Value>, categories: seq<string>): (r: seq<nat>)
    ensures |r| == |Distinct(categories)|
  {
    var keys := Distinct(categories);
    seq(|keys|, i requires 0 <= i < |keys| => Occurrences(data, keys[i]))
  }

  function Sum(s: seq<nat>): nat {
    if s == [] then 0 else s[0] + Sum(s[1..])
  }

  /** `count(data, categories)`, as the source runs it: build the zeroed table, then one pass over the data. */
  method Count(data: seq<Value>, categories: seq<string>) returns (r: seq<nat>)
    ensures |r| == |Distinct(categories)|
    ensures forall i :: 0 <= i < |r| ==> r[i] == Occurrences(data, Distinct(categories)[i])
    ensures r == Tally(data, categories)
  {
    var keys, table := ZeroedTable(categories);
    table := CountItems(data, keys, table);

    // list(items_count.values())
    r := seq(|keys|, n requires 0 <= n < |keys| => table[keys[n]]);
    var expected := Tally(data, categories);
    assert forall n :: 0 <= n < |r| ==> r[n] == expected[n];
  }

  /** `for v in data: items_count[key] += 1`, a key that is not in the table being logged and skipped. */
  method CountItems(data: seq<Value>, keys: seq<string>, zeroed: map<string, nat>) returns (table: map<string, nat>)
    requires forall k :: k in zeroed <==> k in keys
    requires forall k :: k in zeroed ==> zeroed[k] == 0
    ensures forall k :: k in table <==> k in keys
    ensures forall k :: k in table ==> table[k] == Occurrences(data, k)
  {
    table := zeroed;
    var i := 0;
    while i < |data|
      invariant 0 <= i <= |data|
      invariant forall k :: k in table <==> k in keys
      invariant forall k :: k in table ==> table[k] == Occurrences(data[..i], k)
    {
      table := CountOne(table, data[i]);
      assert forall k :: k in table ==> table[k] == Occurrences(data[..i + 1], k) by {
        OccurrencesStep(data, i);
      }
      i := i + 1;
    }
    assert data[..i] == data;
  }

  /**
   * `items_count['None'] += 1` for `None`, `items_count[str(v)] += 1`
   * otherwise, or nothing when that key is not in the table (the `KeyError`
   * that is logged).
   */
  method CountOne(table: map<string, nat>, v: Value) returns (t: map<string, nat>)
    ensures forall k :: k in t <==> k in table
    ensures forall k :: k in t ==> t[k] == table[k] + (if Key(v) == k then 1 else 0)
  {
    var key := if v == Null then "None" else PyStr(v);
    t := table;
    if key in table {
      t := table[key := table[key] + 1];
    }
  }

  lemma OccurrencesStep(data: seq<Value>, i: nat)
    requires i < |data|
    ensures forall k :: Occurrences(data[..i + 1], k) == Occurrences(data[..i], k) + (if Key(data[i]) == k then 1 else 0)
  {
    assert data[..i + 1][..i] == data[..i];
  }

  /** `OrderedDict([(c, 0) for c in categories])`: the keys in insertion order and their zero counters. */
  method ZeroedTable(categories: seq<string>) returns (keys: seq<string>, table: map<string, nat>)
    ensures keys == Distinct(categories)
    ensures forall k :: k in table <==> k in keys
    ensures forall k :: k in table ==> table[k] == 0
  {
    keys, table := [], map[];
    var j := 0;
    while j < |categories|
      invariant 0 <= j <= |categories|
      invariant keys == Distinct(categories[..j])
      invariant forall k :: k in table <==> k in keys
      invariant forall k :: k in table ==> table[k] == 0
    {
      var c := categories[j];
      assert categories[..j + 1][..j] == categories[..j];
      if c !in table {
        keys := keys + [c];
      }
      table := table[c := 0];
      j := j + 1;
    }
    assert categories[..j] == categories;
  }

  /** No item counted under `'None'` except a `None` or the string `'None'`. */
  function NullCount(data: seq<Value>): nat {
    if data == [] then 0
    else NullCount(data[..|data| - 1]) + (if data[|data| - 1] == Null then 1 else 0)
  }

  /** When no item is the string `'None'`, the `'None'` counter is exactly the number of `None` items. */
  lemma {:induction false} NoneCountsNulls(data: seq<Value>)
    requires Str("None") !in data
    ensures Occurrences(data, "None") == NullCount(data)
  {
    if data != [] {
      var last := data[|data| - 1];
      assert last in data;
      PyStrNone(last);
      NoneCountsNulls(data[..|data| - 1]);
    }
  }

  lemma {:induction false} MatchedCons(data: seq<Value>, k: string, keys: seq<string>)
    requires k !in keys
    ensures Matched(data, [k] + keys) == Occurrences(data, k) + Matched(data, keys)
  {
    if data != [] {
      MatchedCons(data[..|data| - 1], k, keys);
    }
  }

  /** Summing the counters of distinct keys counts every matched item once. */
  lemma {:induction false} SumOfCounters(data: seq<Value>, keys: seq<string>)
    requires NoDuplicates(keys)
    ensures Sum(seq(|keys|, i requires 0 <= i < |keys| => Occurrences(data, keys[i]))) == Matched(data, keys)
  {
    var counters := seq(|keys|, i requires 0 <= i < |keys| => Occurrences(data, keys[i]));
    if keys == [] {
      MatchedNone(data);
    } else {
      var rest := keys[1..];
      assert counters[1..] == seq(|rest|, i requires 0 <= i < |rest| => Occurrences(data, rest[i]));
      SumOfCounters(data, rest);
      assert keys == [keys[0]] + rest;
      MatchedCons(data, keys[0], rest);
    }
  }

  lemma {:induction false} MatchedNone(data: seq<Value>)
    ensures Matched(data, []) == 0
  {
    if data != [] {
      MatchedNone(data[..|data| - 1]);
    }
  }

  /** Every item is matched at most once, and all are matched exactly when every key is a category. */
  lemma {:induction false} MatchedBound(data: seq<Value>, keys: seq<string>)
    ensures Matched(data, keys) <= |data|
    ensures Matched(data, keys) == |data| <==> forall v :: v in data ==> Key(v) in keys
  {
    if data != [] {
      var prefix := data[..|data| - 1];
      var last := data[|data| - 1];
      MatchedBound(prefix, keys);
      assert data == prefix + [last];
      assert forall v :: v in data <==> v in prefix || v == last;
    }
  }

  /**
   * `count` never fails and never counts an item twice: the counters add up to
   * at most the number of items, and to exactly that number precisely when
   * every item's key is one of the categories.
   */
  lemma TallyTotal(data: seq<Value>, categories: seq<string>)
    ensures Sum(Tally(data, categories)) <= |data|
    ensures Sum(Tally(data, categories)) == |data| <==> forall v :: v in data ==> Key(v) in categories
  {
    var keys := Distinct(categories);
    SumOfCounters(data, keys);
    MatchedBound(data, keys);
  }
}
