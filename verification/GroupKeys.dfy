/**
 * What a grouping delivers, whatever the order of the rows below it: one row for each distinct
 * group key, with the aggregates over all the rows that have it (execution/GroupByPlan.cpp).
 */
module GroupKeys {
  import opened Seqs
  import opened Values
  import opened Source
  import opened GroupBy
  import opened Multisets

  ghost function HasKey(groupby: seq<nat>, key: Row): Row -> bool {
    (row: Row) => KeyOf(row, groupby) == key
  }

  /** All the rows with a key, wherever they stand. */
  ghost function RowsWith(rows: seq<Row>, groupby: seq<nat>, key: Row): seq<Row> {
    Filter(rows, HasKey(groupby, key))
  }

  ghost function RowOfKey(rows: seq<Row>, groupby: seq<nat>, aggrs: seq<AggrFunc>, key: Row): Row {
    var group := RowsWith(rows, groupby, key);
    if group == [] then [] else OutputRow(aggrs, group)
  }

  ghost function ByKey(rows: seq<Row>, groupby: seq<nat>, aggrs: seq<AggrFunc>): Row -> Row {
    (key: Row) => RowOfKey(rows, groupby, aggrs, key)
  }

  ghost function RowPerKey(rows: seq<Row>, groupby: seq<nat>, aggrs: seq<AggrFunc>): seq<Row> {
    Image(Distinct(KeysOf(rows, groupby)), ByKey(rows, groupby, aggrs))
  }

  // ---------- a run is all the rows with its key ----------

  /** The keys of the runs, one for one. */
  function RunKeySeq(keys: seq<Row>): (r: seq<Row>)
    ensures |r| == |Runs(keys, 0)|
    ensures forall i :: 0 <= i < |r| ==> Runs(keys, 0)[i].start < |keys| && r[i] == keys[Runs(keys, 0)[i].start]
  {
    var runs := Runs(keys, 0);
    RunsPartition(keys, 0);
    assert forall i :: 0 <= i < |runs| ==> OneKey(keys, runs[i]);
    seq(|runs|, i requires 0 <= i < |runs| => keys[runs[i].start])
  }

  lemma NoRunKeyTwice(keys: seq<Row>)
    requires Grouped(keys, 0)
    ensures NoRepeats(RunKeySeq(keys))
  {
    hide Runs;
    OneRunPerKeyExactly(keys, 0);
    RunsPartition(keys, 0);
    assert forall i :: 0 <= i < |Runs(keys, 0)| ==> OneKey(keys, Runs(keys, 0)[i]);
  }

  lemma EveryKeyHasARun(keys: seq<Row>, k: nat)
    requires k < |keys|
    ensures keys[k] in RunKeySeq(keys)
  {
    hide Runs;
    var runs := Runs(keys, 0);
    RunsPartition(keys, 0);
    RunKeys(keys, 0, k);
    var i :| 0 <= i < |runs| && runs[i].start <= k < runs[i].end;
    assert OneKey(keys, runs[i]) && RunKeySeq(keys)[i] == keys[k];
  }

  /** When equal keys stand together, the keys of the runs are the keys, each once. */
  lemma RunKeysAreDistinct(keys: seq<Row>)
    requires Grouped(keys, 0)
    ensures multiset(RunKeySeq(keys)) == multiset(Distinct(keys))
  {
    hide Runs, Grouped, NoRepeats;
    var runKeys := RunKeySeq(keys);
    NoRunKeyTwice(keys);
    forall key | key in keys ensures key in runKeys {
      var k :| 0 <= k < |keys| && keys[k] == key;
      EveryKeyHasARun(keys, k);
    }
    assert forall key :: key in Distinct(keys) <==> key in keys;
    SameMembers(runKeys, Distinct(keys));
  }

  /** When equal keys stand together, a run is all the rows with its key. */
  lemma RunIsAllOfKey(rows: seq<Row>, groupby: seq<nat>, i: nat)
    requires Grouped(KeysOf(rows, groupby), 0) && i < |Runs(KeysOf(rows, groupby), 0)|
    ensures var (keys, run) := (KeysOf(rows, groupby), Runs(KeysOf(rows, groupby), 0)[i]);
            run.start < run.end <= |rows| && rows[run.start..run.end] == RowsWith(rows, groupby, keys[run.start])
  {
    var keys := KeysOf(rows, groupby);
    var runs := Runs(keys, 0);
    var run := runs[i];
    RunsPartition(keys, 0);
    OneRunPerKeyExactly(keys, 0);
    assert OneKey(keys, run);
    forall k | 0 <= k < |rows| ensures HasKey(groupby, keys[run.start])(rows[k]) <==> run.start <= k < run.end {
      assert keys[k] == KeyOf(rows[k], groupby);
      RunKeys(keys, 0, k);
      var j :| 0 <= j < |runs| && runs[j].start <= k < runs[j].end;
      assert OneKey(keys, runs[j]);
      if j < i || i < j {
        assert keys[runs[j].start] != keys[run.start];
        InOneRun(keys, i, j, k);
      }
    }
    FilterSlice(rows, run.start, run.end, HasKey(groupby, keys[run.start]));
  }

  lemma InOneRun(keys: seq<Row>, i: nat, j: nat, k: nat)
    requires i < |Runs(keys, 0)| && j < |Runs(keys, 0)| && i != j && k < |keys|
    requires Runs(keys, 0)[j].start <= k < Runs(keys, 0)[j].end
    requires OneKey(keys, Runs(keys, 0)[i]) && OneKey(keys, Runs(keys, 0)[j])
    requires keys[Runs(keys, 0)[i].start] != keys[Runs(keys, 0)[j].start]
    ensures !(Runs(keys, 0)[i].start <= k < Runs(keys, 0)[i].end)
  {
  }

  /** The output over rows whose equal keys stand together: one row for each distinct key. */
  lemma OutputPerKey(rows: seq<Row>, groupby: seq<nat>, aggrs: seq<AggrFunc>)
    requires Grouped(KeysOf(rows, groupby), 0)
    ensures multiset(GroupOutput(rows, groupby, aggrs, 0)) == multiset(RowPerKey(rows, groupby, aggrs))
  {
    hide Runs, OutputRow, Grouped, KeyOf, KeysOf;
    var keys := KeysOf(rows, groupby);
    var (output, runKeys) := (GroupOutput(rows, groupby, aggrs, 0), RunKeySeq(keys));
    OutputPerRun(rows, groupby, aggrs, 0);
    forall i | 0 <= i < |output| ensures output[i] == ByKey(rows, groupby, aggrs)(runKeys[i]) {
      RunIsAllOfKey(rows, groupby, i);
    }
    assert output == Image(runKeys, ByKey(rows, groupby, aggrs));
    RunKeysAreDistinct(keys);
    ImageSameMultiset(runKeys, Distinct(keys), ByKey(rows, groupby, aggrs));
  }

  // ---------- the order of the rows does not matter ----------

  lemma SumWithout(s: seq<Value>, k: nat)
    requires k < |s|
    ensures SumOf(s) == IntOf(s[k]) + SumOf(s[..k] + s[k + 1..])
  {
    hide SumOf, IntOf;
    var (front, v, back) := (s[..k], [s[k]], s[k + 1..]);
    assert s == front + (v + back);
    SumOfParts(front, v + back);
    SumOfParts(v, back);
    SumOfParts(front, back);
    SumOfOne(v);
  }

  lemma {:induction false} SumSame(a: seq<Value>, b: seq<Value>)
    requires multiset(a) == multiset(b)
    ensures SumOf(a) == SumOf(b)
    decreases |a|
  {
    SameLength(a, b);
    if a != [] {
      var k := PositionOf(a, b);
      WithoutFirst(a, b, k);
      SumSame(a[1..], b[..k] + b[k + 1..]);
      SumWithout(a, 0);
      SumWithout(b, k);
      assert a[..0] + a[0 + 1..] == a[1..];
    } else {
      assert b == [];
    }
  }

  lemma MinMaxSame(a: seq<Value>, b: seq<Value>)
    requires multiset(a) == multiset(b) && a != [] && b != []
    ensures MinOf(a) == MinOf(b) && MaxOf(a) == MaxOf(b)
  {
    MinMaxMeaning(a);
    MinMaxMeaning(b);
    assert forall v :: v in a <==> v in multiset(a);
    assert forall v :: v in b <==> v in multiset(b);
    CompareOrder(MinOf(a), MinOf(b));
    CompareOrder(MaxOf(a), MaxOf(b));
  }

  /** An aggregate depends on the values only, not on their order; the first one when they are all equal. */
  lemma ResultSame(func: FuncType, a: seq<Value>, b: seq<Value>)
    requires multiset(a) == multiset(b) && a != [] && b != []
    requires func == FIRST ==> forall i :: 0 <= i < |a| ==> a[i] == a[0]
    ensures ResultOf(func, a) == ResultOf(func, b)
  {
    SameLength(a, b);
    SumSame(a, b);
    MinMaxSame(a, b);
    assert b[0] in multiset(b) && b[0] in a;
  }

  /** The columns that a group row takes from its first row are group columns. */
  predicate FirstsAreKeys(groupby: seq<nat>, aggrs: seq<AggrFunc>) {
    forall i :: 0 <= i < |aggrs| && aggrs[i].func == FIRST ==> aggrs[i].index in groupby
  }

  lemma SameColumn(a: seq<Row>, b: seq<Row>, index: nat)
    requires multiset(a) == multiset(b)
    ensures multiset(GroupBy.Column(a, index)) == multiset(GroupBy.Column(b, index))
  {
    var at := (row: Row) => At(row, index);
    ImageSameMultiset(a, b, at);
    assert GroupBy.Column(a, index) == Image(a, at) && GroupBy.Column(b, index) == Image(b, at);
  }

  /** The rows with one key agree on the group columns. */
  lemma KeyColumnIsConstant(rows: seq<Row>, groupby: seq<nat>, key: Row, index: nat)
    requires index in groupby
    ensures var column := GroupBy.Column(RowsWith(rows, groupby, key), index);
            forall i :: 0 <= i < |column| ==> column[i] == column[0]
  {
    var g :| 0 <= g < |groupby| && groupby[g] == index;
    var group := RowsWith(rows, groupby, key);
    forall i | 0 <= i < |group| ensures |key| == |groupby| && At(group[i], index) == key[g] {
      assert group[i] in group && KeyOf(group[i], groupby) == key;
    }
  }

  lemma RowOfKeySame(a: seq<Row>, b: seq<Row>, groupby: seq<nat>, aggrs: seq<AggrFunc>, key: Row)
    requires multiset(a) == multiset(b) && FirstsAreKeys(groupby, aggrs)
    ensures RowOfKey(a, groupby, aggrs, key) == RowOfKey(b, groupby, aggrs, key)
  {
    hide ResultOf, Filter, KeyOf;
    var (s, t) := (RowsWith(a, groupby, key), RowsWith(b, groupby, key));
    FilterSameMultiset(a, b, HasKey(groupby, key));
    SameLength(s, t);
    if s != [] {
      forall i | 0 <= i < |aggrs| ensures OutputRow(aggrs, s)[i] == OutputRow(aggrs, t)[i] {
        SameColumn(s, t, aggrs[i].index);
        if aggrs[i].func == FIRST {
          KeyColumnIsConstant(a, groupby, key, aggrs[i].index);
        }
        ResultSame(aggrs[i].func, GroupBy.Column(s, aggrs[i].index), GroupBy.Column(t, aggrs[i].index));
      }
    }
  }

  lemma KeysSame(a: seq<Row>, b: seq<Row>, groupby: seq<nat>)
    requires multiset(a) == multiset(b)
    ensures multiset(Distinct(KeysOf(a, groupby))) == multiset(Distinct(KeysOf(b, groupby)))
  {
    var key := (row: Row) => KeyOf(row, groupby);
    var (s, t) := (KeysOf(a, groupby), KeysOf(b, groupby));
    ImageSameMultiset(a, b, key);
    assert s == Image(a, key) && t == Image(b, key);
    assert forall k :: k in s <==> k in multiset(s);
    assert forall k :: k in t <==> k in multiset(t);
    assert forall k :: k in Distinct(s) <==> k in s;
    assert forall k :: k in Distinct(t) <==> k in t;
    SameMembers(Distinct(s), Distinct(t));
  }

  /** The same rows in another order have the same group rows, in another order. */
  lemma PerKeySame(a: seq<Row>, b: seq<Row>, groupby: seq<nat>, aggrs: seq<AggrFunc>)
    requires multiset(a) == multiset(b) && FirstsAreKeys(groupby, aggrs)
    ensures multiset(RowPerKey(a, groupby, aggrs)) == multiset(RowPerKey(b, groupby, aggrs))
  {
    hide RowOfKey, KeysOf, Distinct;
    var (s, t) := (Distinct(KeysOf(a, groupby)), Distinct(KeysOf(b, groupby)));
    KeysSame(a, b, groupby);
    ImageSameMultiset(s, t, ByKey(a, groupby, aggrs));
    forall i | 0 <= i < |t| ensures ByKey(a, groupby, aggrs)(t[i]) == ByKey(b, groupby, aggrs)(t[i]) {
      RowOfKeySame(a, b, groupby, aggrs, t[i]);
    }
    assert Image(t, ByKey(a, groupby, aggrs)) == Image(t, ByKey(b, groupby, aggrs));
  }

  /** A row of zeros, but for one column. */
  function ZerosBut(index: nat, n: int): (row: Row)
    ensures At(row, index) == IntV(n)
  {
    seq(index + 1, i requires 0 <= i <= index => IntV(if i == index then n else 0))
  }

  lemma DistinctOfTwo(key: Row)
    ensures Distinct([key, key]) == [key]
  {
    assert [key][..0] == [] && Distinct<Row>([]) == [] && Distinct([key]) == [key];
    assert [key, key][..1] == [key];
  }

  lemma KeysOfTwo(groupby: seq<nat>, index: nat, m: int, n: int)
    requires index !in groupby
    ensures var (r, s) := (ZerosBut(index, m), ZerosBut(index, n));
            KeyOf(s, groupby) == KeyOf(r, groupby) && KeysOf([r, s], groupby) == [KeyOf(r, groupby), KeyOf(r, groupby)]
  {
  }

  /** Two rows that differ in a column outside the group key make one group, in whatever order. */
  lemma OneGroupOfTwo(groupby: seq<nat>, aggrs: seq<AggrFunc>, index: nat, m: int, n: int)
    requires index !in groupby
    ensures var rows := [ZerosBut(index, m), ZerosBut(index, n)];
            RowPerKey(rows, groupby, aggrs) == [OutputRow(aggrs, rows)]
  {
    hide KeyOf, KeysOf, OutputRow, Filter, Distinct, ZerosBut;
    var (r, s) := (ZerosBut(index, m), ZerosBut(index, n));
    var key := KeyOf(r, groupby);
    KeysOfTwo(groupby, index, m, n);
    DistinctOfTwo(key);
    FilterAll([r, s], HasKey(groupby, key));
  }

  /**
   * The group rows do not depend on the order of the rows exactly when every column that is
   * taken from the first row of a group is a group column.
   */
  lemma OrderIrrelevantExactly(groupby: seq<nat>, aggrs: seq<AggrFunc>)
    ensures FirstsAreKeys(groupby, aggrs) <==>
            forall a, b | multiset(a) == multiset(b) ::
              multiset(RowPerKey(a, groupby, aggrs)) == multiset(RowPerKey(b, groupby, aggrs))
  {
    hide RowPerKey, OutputRow;
    if FirstsAreKeys(groupby, aggrs) {
      forall a, b | multiset(a) == multiset(b)
        ensures multiset(RowPerKey(a, groupby, aggrs)) == multiset(RowPerKey(b, groupby, aggrs))
      {
        PerKeySame(a, b, groupby, aggrs);
      }
    } else {
      var i :| 0 <= i < |aggrs| && aggrs[i].func == FIRST && aggrs[i].index !in groupby;
      var (r, s) := (ZerosBut(aggrs[i].index, 0), ZerosBut(aggrs[i].index, 1));
      OneGroupOfTwo(groupby, aggrs, aggrs[i].index, 0, 1);
      OneGroupOfTwo(groupby, aggrs, aggrs[i].index, 1, 0);
      SwapTwo(r, s);
      OtherFirst(aggrs, i, r, s);
    }
  }

  lemma SwapTwo(r: Row, s: Row)
    ensures multiset([r, s]) == multiset([s, r])
  {
  }

  lemma OtherFirst(aggrs: seq<AggrFunc>, i: nat, r: Row, s: Row)
    requires i < |aggrs| && aggrs[i].func == FIRST && At(r, aggrs[i].index) != At(s, aggrs[i].index)
    ensures multiset([OutputRow(aggrs, [r, s])]) != multiset([OutputRow(aggrs, [s, r])])
  {
    var (a, b) := (OutputRow(aggrs, [r, s]), OutputRow(aggrs, [s, r]));
    assert a[i] == At(r, aggrs[i].index) && b[i] == At(s, aggrs[i].index);
    assert a in multiset([a]) && multiset([b])[a] == 0;
  }
}
