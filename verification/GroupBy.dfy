/**
 * Aggregation over runs of equal group keys (execution/GroupByPlan.cpp, execution/GroupByPlan.h).
 */
module GroupBy {
  import opened Seqs
  import opened Values
  import opened Source

  datatype FuncType = FIRST | SUM | AVG | COUNT | MAX | MIN

  datatype AggrFunc = AggrFunc(func: FuncType, index: nat)

  function KeyOf(row: Row, columns: seq<nat>): Row {
    seq(|columns|, i requires 0 <= i < |columns| => At(row, columns[i]))
  }

  /** Rows have the same key exactly when they agree on every group column. */
  lemma SameKeyExactly(a: Row, b: Row, columns: seq<nat>)
    ensures KeyOf(a, columns) == KeyOf(b, columns) <==> forall c :: c in columns ==> At(a, c) == At(b, c)
  {
    if KeyOf(a, columns) == KeyOf(b, columns) {
      forall c | c in columns ensures At(a, c) == At(b, c) {
        var i :| 0 <= i < |columns| && columns[i] == c;
        assert KeyOf(a, columns)[i] == KeyOf(b, columns)[i];
      }
    }
  }

  function KeysOf(rows: seq<Row>, columns: seq<nat>): seq<Row> {
    seq(|rows|, i requires 0 <= i < |rows| => KeyOf(rows[i], columns))
  }

  function Column(rows: seq<Row>, index: nat): seq<Value> {
    seq(|rows|, i requires 0 <= i < |rows| => At(rows[i], index))
  }

  // ---------- runs of equal keys ----------

  /** The rows from `start` up to, not including, `end`. */
  datatype Run = Run(start: nat, end: nat)

  /** The end of the run that starts at `start`, looking from `i` on. */
  function RunEnd(keys: seq<Row>, start: nat, i: nat): (end: nat)
    requires start < i <= |keys|
    ensures i <= end <= |keys|
    ensures forall k :: i <= k < end ==> keys[k] == keys[start]
    ensures end < |keys| ==> keys[end] != keys[start]
    decreases |keys| - i
  {
    if i < |keys| && keys[i] == keys[start] then RunEnd(keys, start, i + 1) else i
  }

  /** The maximal runs of equal keys, from `start` on. */
  function Runs(keys: seq<Row>, start: nat): seq<Run>
    requires start <= |keys|
    decreases |keys| - start
  {
    if start == |keys| then []
    else
      var end := RunEnd(keys, start, start + 1);
      [Run(start, end)] + Runs(keys, end)
  }

  /** A stretch that is not empty and has one key. */
  predicate OneKey(keys: seq<Row>, run: Run) {
    run.start < run.end <= |keys| && forall k :: run.start <= k < run.end ==> keys[k] == keys[run.start]
  }

  /**
   * Runs follow one another without a gap from `start` to the end, each with its own key,
   * neighbours with different keys.
   */
  predicate Partition(keys: seq<Row>, runs: seq<Run>, start: nat) {
    && (forall i :: 0 <= i < |runs| ==> OneKey(keys, runs[i]) && start <= runs[i].start)
    && (forall i :: 1 <= i < |runs| ==>
          runs[i].start == runs[i - 1].end && keys[runs[i].start] != keys[runs[i - 1].start])
    && (if runs == [] then start == |keys| else runs[0].start == start && runs[|runs| - 1].end == |keys|)
  }

  lemma {:induction false} RunsPartition(keys: seq<Row>, start: nat)
    requires start <= |keys|
    ensures Partition(keys, Runs(keys, start), start)
    decreases |keys| - start
  {
    if start < |keys| {
      var end := RunEnd(keys, start, start + 1);
      RunsPartition(keys, end);
      PartitionCons(keys, Run(start, end), Runs(keys, end));
    }
  }

  lemma PartitionCons(keys: seq<Row>, run: Run, later: seq<Run>)
    requires OneKey(keys, run) && Partition(keys, later, run.end)
    requires run.end < |keys| ==> keys[run.end] != keys[run.start]
    ensures Partition(keys, [run] + later, run.start)
  {
    var runs := [run] + later;
    assert forall i :: 1 <= i < |runs| ==> runs[i] == later[i - 1];
    forall i | 1 <= i < |runs|
      ensures runs[i].start == runs[i - 1].end && keys[runs[i].start] != keys[runs[i - 1].start]
    {
      if i > 1 {
        assert runs[i] == later[i - 1] && runs[i - 1] == later[i - 2];
      }
    }
  }

  /** There is no other way to cut the keys into such runs. */
  lemma {:induction false} RunsAreUnique(keys: seq<Row>, runs: seq<Run>, start: nat)
    requires start <= |keys| && Partition(keys, runs, start)
    ensures runs == Runs(keys, start)
    decreases |runs|
  {
    if runs != [] {
      var (end, later) := (RunEnd(keys, start, start + 1), runs[1..]);
      assert OneKey(keys, runs[0]);
      assert runs[0].end == end by {
        if |runs| > 1 {
          assert runs[1].start == runs[0].end && OneKey(keys, runs[1]);
        }
      }
      assert Partition(keys, later, end) by {
        LaterRuns(keys, runs);
      }
      RunsAreUnique(keys, later, end);
      assert runs == [runs[0]] + later;
    }
  }

  lemma {:induction false} StartsAfterFirst(keys: seq<Row>, runs: seq<Run>, k: nat)
    requires 1 <= k < |runs| && Partition(keys, runs, runs[0].start)
    ensures runs[0].end <= runs[k].start
  {
    assert OneKey(keys, runs[k - 1]) && runs[k].start == runs[k - 1].end;
    if k > 1 {
      StartsAfterFirst(keys, runs, k - 1);
    }
  }

  lemma LaterRuns(keys: seq<Row>, runs: seq<Run>)
    requires runs != [] && Partition(keys, runs, runs[0].start)
    ensures Partition(keys, runs[1..], runs[0].end)
  {
    var later := runs[1..];
    forall i | 0 <= i < |later| ensures OneKey(keys, later[i]) && runs[0].end <= later[i].start {
      StartsAfterFirst(keys, runs, i + 1);
      assert OneKey(keys, runs[i + 1]);
    }
    forall i | 1 <= i < |later|
      ensures later[i].start == later[i - 1].end && keys[later[i].start] != keys[later[i - 1].start]
    {
      assert runs[i + 1].start == runs[i + 1 - 1].end;
    }
  }

  /** Equal keys stand together. */
  predicate Grouped(keys: seq<Row>, start: nat) {
    forall i, j, k :: start <= i < j < k < |keys| && keys[i] == keys[k] ==> keys[j] == keys[i]
  }

  /** No two runs have the same key. */
  predicate KeysDistinct(keys: seq<Row>, runs: seq<Run>) {
    forall i, j :: 0 <= i < j < |runs| && OneKey(keys, runs[i]) && OneKey(keys, runs[j]) ==>
      keys[runs[i].start] != keys[runs[j].start]
  }

  /** The keys of the runs are the keys of the rows. */
  lemma {:induction false} RunKeys(keys: seq<Row>, start: nat, k: nat)
    requires start <= k < |keys|
    ensures exists i :: 0 <= i < |Runs(keys, start)| && Runs(keys, start)[i].start <= k < Runs(keys, start)[i].end
    decreases |keys| - start
  {
    var end := RunEnd(keys, start, start + 1);
    var (runs, later) := (Runs(keys, start), Runs(keys, end));
    if k < end {
      assert runs[0].start <= k < runs[0].end;
    } else {
      RunKeys(keys, end, k);
      var i :| 0 <= i < |later| && later[i].start <= k < later[i].end;
      assert runs[i + 1] == later[i];
    }
  }

  /** There is one run for each distinct key exactly when equal keys stand together. */
  lemma {:induction false} OneRunPerKeyExactly(keys: seq<Row>, start: nat)
    requires start <= |keys|
    ensures KeysDistinct(keys, Runs(keys, start)) <==> Grouped(keys, start)
    decreases |keys| - start
  {
    hide RunEnd;
    if start < |keys| {
      var end := RunEnd(keys, start, start + 1);
      var (runs, later) := (Runs(keys, start), Runs(keys, end));
      OneRunPerKeyExactly(keys, end);
      RunsPartition(keys, start);
      RunsPartition(keys, end);
      assert later == runs[1..];
      if k :| end <= k < |keys| && keys[k] == keys[start] {
        assert start < end < k && keys[end] != keys[start];
        RunKeys(keys, end, k);
        var i :| 0 <= i < |later| && later[i].start <= k < later[i].end;
        assert OneKey(keys, later[i]) && OneKey(keys, runs[0]) && runs[i + 1] == later[i];
      } else {
        GroupedFrom(keys, start, end);
        DistinctFrom(keys, runs);
      }
    }
  }

  lemma GroupedFrom(keys: seq<Row>, start: nat, end: nat)
    requires OneKey(keys, Run(start, end))
    requires forall k :: end <= k < |keys| ==> keys[k] != keys[start]
    ensures Grouped(keys, start) <==> Grouped(keys, end)
  {
  }

  lemma DistinctFrom(keys: seq<Row>, runs: seq<Run>)
    requires runs != [] && OneKey(keys, runs[0])
    requires forall i :: 1 <= i < |runs| ==> OneKey(keys, runs[i]) && keys[runs[i].start] != keys[runs[0].start]
    ensures KeysDistinct(keys, runs) <==> KeysDistinct(keys, runs[1..])
  {
  }

  // ---------- aggregates ----------

  function MinOf(column: seq<Value>): Value
    requires column != []
  {
    if |column| == 1 then column[0]
    else
      var (m, v) := (MinOf(column[..|column| - 1]), column[|column| - 1]);
      if Compare(v, m) < 0 then v else m
  }

  function MaxOf(column: seq<Value>): Value
    requires column != []
  {
    if |column| == 1 then column[0]
    else
      var (m, v) := (MaxOf(column[..|column| - 1]), column[|column| - 1]);
      if Compare(v, m) > 0 then v else m
  }

  function IntOf(v: Value): int {
    if v.IntV? then v.n else 0
  }

  function SumOf(column: seq<Value>): int {
    if column == [] then 0 else SumOf(column[..|column| - 1]) + IntOf(column[|column| - 1])
  }

  /** MIN is a value of the run that no value of the run is below, MAX likewise from above. */
  lemma {:induction false} MinMaxMeaning(column: seq<Value>)
    requires column != []
    ensures MinOf(column) in column && forall v :: v in column ==> Compare(MinOf(column), v) <= 0
    ensures MaxOf(column) in column && forall v :: v in column ==> Compare(v, MaxOf(column)) <= 0
  {
    var (init, last) := (column[..|column| - 1], column[|column| - 1]);
    assert column == init + [last];
    CompareOrder(last, last);
    if init != [] {
      MinMaxMeaning(init);
      CompareOrder(last, MinOf(init));
      CompareOrder(last, MaxOf(init));
      forall v | v in column ensures Compare(MinOf(column), v) <= 0 && Compare(v, MaxOf(column)) <= 0 {
        if v in init {
          if Compare(last, MinOf(init)) < 0 {
            CompareTransitive(last, MinOf(init), v);
          }
          if Compare(last, MaxOf(init)) > 0 {
            CompareTransitive(v, MaxOf(init), last);
          }
        }
      }
    }
  }

  /** Sums over two parts add up. */
  lemma {:induction false} SumOfParts(a: seq<Value>, b: seq<Value>)
    ensures SumOf(a + b) == SumOf(a) + SumOf(b)
  {
    if b == [] {
      assert a + b == a;
    } else {
      assert (a + b)[..|a + b| - 1] == a + b[..|b| - 1];
      SumOfParts(a, b[..|b| - 1]);
    }
  }

  /** What 64 bits hold of an integer, in two's complement. */
  function Wrapped(n: int): int {
    (n + 0x8000_0000_0000_0000) % 0x1_0000_0000_0000_0000 - 0x8000_0000_0000_0000
  }

  lemma WrappedExactly(n: int)
    ensures Wrapped(n) == n <==> -0x8000_0000_0000_0000 <= n <= 0x7FFF_FFFF_FFFF_FFFF
  {
  }

  lemma WrappedTwice(m: int, n: int)
    ensures Wrapped(Wrapped(m) + n) == Wrapped(m + n)
  {
  }

  /** The value that a projection has gathered over the rows of a run so far. */
  function Partial(func: FuncType, column: seq<Value>): Value
    requires column != []
  {
    match func
    case FIRST | COUNT => column[0]
    case MIN => MinOf(column)
    case MAX => MaxOf(column)
    case SUM | AVG => if |column| == 1 then column[0] else IntV(Wrapped(SumOf(column)))
  }

  /** A sum over more than one value is exact exactly when 64 bits hold it. */
  lemma SumIsExact(column: seq<Value>)
    requires |column| > 1
    ensures Partial(SUM, column) == IntV(SumOf(column)) <==>
            -0x8000_0000_0000_0000 <= SumOf(column) <= 0x7FFF_FFFF_FFFF_FFFF
  {
    WrappedExactly(SumOf(column));
  }

  /** The aggregate of a run; averages are exact quotients of the sum that 64 bits hold. */
  function ResultOf(func: FuncType, column: seq<Value>): Value
    requires column != []
  {
    match func
    case COUNT => IntV(|column|)
    case AVG => RealV(IntOf(Partial(AVG, column)) as real / |column| as real)
    case _ => Partial(func, column)
  }

  function OutputRow(proj: seq<AggrFunc>, rows: seq<Row>): Row
    requires rows != []
  {
    seq(|proj|, i requires 0 <= i < |proj| => ResultOf(proj[i].func, Column(rows, proj[i].index)))
  }

  // ---------- what the aggregates mean ----------

  /** Integers with a sum that 64 bits hold. */
  predicate SumInReach(column: seq<Value>) {
    && (forall i :: 0 <= i < |column| ==> column[i].IntV?)
    && -0x8000_0000_0000_0000 <= SumOf(column) <= 0x7FFF_FFFF_FFFF_FFFF
  }

  /** `v` is the aggregate over the rows, which are at least one. */
  ghost predicate IsAggregate(f: AggrFunc, rows: seq<Row>, v: Value)
    requires rows != []
  {
    var column := Column(rows, f.index);
    match f.func
    case FIRST => v == At(rows[0], f.index)
    case COUNT => v == IntV(|rows|)
    case MIN => v in column && forall w :: w in column ==> Compare(v, w) <= 0
    case MAX => v in column && forall w :: w in column ==> Compare(w, v) <= 0
    case SUM => SumInReach(column) ==> v == IntV(SumOf(column))
    case AVG => SumInReach(column) ==> IsAverage(column, v)
  }

  /** Times the number of values it is their exact sum, and it lies between the least and the greatest of them. */
  ghost predicate IsAverage(column: seq<Value>, v: Value)
    requires column != []
  {
    && v.RealV? && v.r * |column| as real == SumOf(column) as real
    && IntOf(MinOf(column)) as real <= v.r <= IntOf(MaxOf(column)) as real
  }

  lemma {:induction false} SumBetween(column: seq<Value>, low: int, high: int)
    requires forall i :: 0 <= i < |column| ==> column[i].IntV? && low <= column[i].n <= high
    ensures low * |column| <= SumOf(column) <= high * |column|
  {
    if column != [] {
      SumBetween(column[..|column| - 1], low, high);
      assert low * |column| == low * (|column| - 1) + low && high * |column| == high * (|column| - 1) + high;
    }
  }

  lemma QuotientOfSum(sum: int, n: int, low: int, high: int)
    requires n > 0 && low * n <= sum <= high * n
    ensures var r := sum as real / n as real; r * n as real == sum as real && low as real <= r <= high as real
  {
    var (r, d) := (sum as real / n as real, n as real);
    assert (low * n) as real == low as real * d && (high * n) as real == high as real * d;
    assert r < low as real ==> (low as real - r) * d > 0.0;
    assert r > high as real ==> (r - high as real) * d > 0.0;
  }

  /** The average of a column. */
  lemma AverageMeaning(column: seq<Value>)
    requires column != [] && SumInReach(column)
    ensures IsAverage(column, ResultOf(AVG, column))
  {
    hide MinOf, MaxOf, Wrapped;
    var (least, greatest) := (MinOf(column), MaxOf(column));
    MinMaxMeaning(column);
    assert least.IntV? && greatest.IntV?;
    forall i | 0 <= i < |column| ensures least.n <= column[i].n <= greatest.n {
      assert column[i] in column;
    }
    SumBetween(column, least.n, greatest.n);
    QuotientOfSum(SumOf(column), |column|, least.n, greatest.n);
    SumOfOne(column);
    WrappedExactly(SumOf(column));
  }

  /** Every column of an output row is the aggregate that its projection names. */
  lemma OutputMeaning(proj: seq<AggrFunc>, rows: seq<Row>, i: nat)
    requires rows != [] && i < |proj|
    ensures IsAggregate(proj[i], rows, OutputRow(proj, rows)[i])
  {
    hide MinOf, MaxOf, Wrapped, IsAverage;
    var column := Column(rows, proj[i].index);
    MinMaxMeaning(column);
    SumOfOne(column);
    WrappedExactly(SumOf(column));
    if proj[i].func == AVG && SumInReach(column) {
      AverageMeaning(column);
    }
  }

  /** The output for the runs that start at `start` or later: one row each. */
  function GroupOutput(rows: seq<Row>, columns: seq<nat>, proj: seq<AggrFunc>, start: nat): seq<Row>
    requires start <= |rows|
    decreases |rows| - start
  {
    if start == |rows| then []
    else
      var end := RunEnd(KeysOf(rows, columns), start, start + 1);
      [OutputRow(proj, rows[start..end])] + GroupOutput(rows, columns, proj, end)
  }

  /** The output from the start of a run on: its row, and then the output from its end on. */
  lemma FirstOutput(rows: seq<Row>, columns: seq<nat>, proj: seq<AggrFunc>, start: nat)
    requires start < |rows|
    ensures var end := RunEnd(KeysOf(rows, columns), start, start + 1);
            var output := GroupOutput(rows, columns, proj, start);
            && output != [] && output[0] == OutputRow(proj, rows[start..end])
            && output[1..] == GroupOutput(rows, columns, proj, end)
    ensures GroupOutput(rows, columns, proj, |rows|) == []
  {
  }

  /** The output rows are the aggregates over the runs, one for one. */
  lemma {:induction false} OutputPerRun(rows: seq<Row>, columns: seq<nat>, proj: seq<AggrFunc>, start: nat)
    requires start <= |rows|
    ensures var (runs, output) := (Runs(KeysOf(rows, columns), start), GroupOutput(rows, columns, proj, start));
            && |output| == |runs|
            && forall i :: 0 <= i < |runs| ==>
                 runs[i].start < runs[i].end <= |rows| && output[i] == OutputRow(proj, rows[runs[i].start..runs[i].end])
    decreases |rows| - start
  {
    if start < |rows| {
      OutputPerRun(rows, columns, proj, RunEnd(KeysOf(rows, columns), start, start + 1));
    }
  }

  function SumOfCounts(output: seq<Row>, i: nat): int {
    if output == [] then 0
    else IntOf(At(output[0], i)) + SumOfCounts(output[1..], i)
  }

  /** The counts of all output rows add up to the number of input rows. */
  lemma {:induction false} CountsAddUp(rows: seq<Row>, columns: seq<nat>, proj: seq<AggrFunc>, start: nat, i: nat)
    requires start <= |rows| && i < |proj| && proj[i].func == COUNT
    ensures SumOfCounts(GroupOutput(rows, columns, proj, start), i) == |rows| - start
    decreases |rows| - start
  {
    if start < |rows| {
      CountsAddUp(rows, columns, proj, RunEnd(KeysOf(rows, columns), start, start + 1), i);
    }
  }

  // ---------- the plan ----------

  /** The column types below a grouping; None is the double of an average. */
  type ResultTypes = seq<Option<ColType>>

  /**
   * Sums are taken over the columns of tables, and averages over integers: a sum of averages is
   * not modelled, and an average of strings is an error.
   */
  predicate Summable(types: ResultTypes, proj: seq<AggrFunc>) {
    forall p :: 0 <= p < |proj| && proj[p].func in {SUM, AVG} ==>
      && proj[p].index < |types| && types[proj[p].index].Some?
      && (proj[p].func == AVG ==> IsInt(types[proj[p].index].value))
  }

  /** What `checkValue` accepts; there is no sum of booleans or strings. */
  predicate ValueAccepted(t: ColType, value: int) {
    IsInt(t) && t != Bool && MinInt(t) <= value <= MaxInt(t)
  }

  /** `add` forms the sum in 64 bits and then checks it against the limits of the type. */
  predicate SumAccepted(t: ColType, n: int) {
    ValueAccepted(t, Wrapped(n))
  }

  /** Adding up these rows, `add` accepts the sums and averages. */
  predicate SumsFitAt(types: ResultTypes, proj: seq<AggrFunc>, rows: seq<Row>)
    requires Summable(types, proj)
  {
    forall p :: 0 <= p < |proj| && proj[p].func in {SUM, AVG} ==>
      SumAccepted(types[proj[p].index].value, SumOf(Column(rows, proj[p].index)))
  }

  lemma SumsFitOneMore(types: ResultTypes, proj: seq<AggrFunc>, i: nat, rows: seq<Row>)
    requires i < |proj| && Summable(types, proj)
    ensures Summable(types, proj[..i]) && Summable(types, proj[..i + 1])
    ensures var fits := proj[i].func in {SUM, AVG} ==>
              SumAccepted(types[proj[i].index].value, SumOf(Column(rows, proj[i].index)));
            && (SumsFitAt(types, proj[..i], rows) ==> (fits <==> SumsFitAt(types, proj[..i + 1], rows)))
            && (!fits ==> !SumsFitAt(types, proj, rows))
  {
    hide SumOf, SumAccepted, Column;
    assert proj[..i + 1] == proj[..i] + [proj[i]];
  }

  /** So they do each time a row of the run is added to the rows before it. */
  predicate SumsFit(types: ResultTypes, proj: seq<AggrFunc>, run: seq<Row>)
    requires Summable(types, proj)
  {
    forall j :: 2 <= j <= |run| ==> SumsFitAt(types, proj, run[..j])
  }

  /** So they do in every run from `start` on. */
  predicate RunsFit(types: ResultTypes, rows: seq<Row>, columns: seq<nat>, proj: seq<AggrFunc>, start: nat)
    requires Summable(types, proj) && start <= |rows|
    decreases |rows| - start
  {
    start == |rows| ||
    var end := RunEnd(KeysOf(rows, columns), start, start + 1);
    SumsFit(types, proj, rows[start..end]) && RunsFit(types, rows, columns, proj, end)
  }

  /** The sums fit in one run. */
  predicate RunFits(types: ResultTypes, rows: seq<Row>, proj: seq<AggrFunc>, run: Run)
    requires Summable(types, proj)
  {
    run.start < run.end <= |rows| && SumsFit(types, proj, rows[run.start..run.end])
  }

  /** They do exactly when they do in each of the runs. */
  lemma {:induction false} RunsFitExactly(types: ResultTypes, rows: seq<Row>, columns: seq<nat>, proj: seq<AggrFunc>,
                                          start: nat)
    requires Summable(types, proj) && start <= |rows|
    ensures RunsFit(types, rows, columns, proj, start) <==>
            forall run :: run in Runs(KeysOf(rows, columns), start) ==> RunFits(types, rows, proj, run)
    decreases |rows| - start
  {
    hide SumsFit, Summable, RunEnd;
    if start < |rows| {
      var keys := KeysOf(rows, columns);
      var end := RunEnd(keys, start, start + 1);
      RunsFitExactly(types, rows, columns, proj, end);
      assert Runs(keys, start) == [Run(start, end)] + Runs(keys, end);
      assert RunFits(types, rows, proj, Run(start, end)) <==> SumsFit(types, proj, rows[start..end]);
    }
  }

  /** No sum of 64-bit columns is refused, in whatever order the rows come. */
  lemma {:induction false} WideRunsFit(types: ResultTypes, rows: seq<Row>, columns: seq<nat>, proj: seq<AggrFunc>,
                                       start: nat)
    requires Summable(types, proj) && start <= |rows|
    requires forall p :: 0 <= p < |proj| && proj[p].func in {SUM, AVG} ==>
               IsInt(types[proj[p].index].value) && Width(types[proj[p].index].value) == 8
    ensures RunsFit(types, rows, columns, proj, start)
    decreases |rows| - start
  {
    if start < |rows| {
      var end := RunEnd(KeysOf(rows, columns), start, start + 1);
      WideRunsFit(types, rows, columns, proj, end);
    }
  }

  /** Sums that have been accepted all along are exact in the narrower types. */
  lemma {:induction false} AcceptedSumsAreExact(t: ColType, column: seq<Value>)
    requires column != [] && forall i :: 0 <= i < |column| ==> Storable(t, column[i])
    requires forall j :: 2 <= j <= |column| ==> SumAccepted(t, SumOf(column[..j]))
    requires IsInt(t) && Width(t) < 8
    ensures MinInt(t) <= SumOf(column) <= MaxInt(t) && Partial(SUM, column) == IntV(SumOf(column))
  {
    var init := column[..|column| - 1];
    SumOfOne(column);
    if init != [] {
      assert forall j :: 2 <= j <= |init| ==> init[..j] == column[..j];
      AcceptedSumsAreExact(t, init);
      assert column[..|column|] == column;
      WrappedExactly(SumOf(column));
    }
  }

  /** Of the sums that 64 bits hold, those within the limits of the type are accepted. */
  lemma SumAcceptedExactly(t: ColType, n: int)
    requires -0x8000_0000_0000_0000 <= n <= 0x7FFF_FFFF_FFFF_FFFF
    ensures SumAccepted(t, n) <==> IsInt(t) && t != Bool && MinInt(t) <= n <= MaxInt(t)
  {
    WrappedExactly(n);
  }

  /** A sum or an average is taken over a column whose type is narrower than 64 bits, in which the values fit. */
  predicate Narrow(types: ResultTypes, f: AggrFunc, rows: seq<Row>)
    requires f.index < |types| && types[f.index].Some?
  {
    var t := types[f.index].value;
    IsInt(t) && t != Bool && Width(t) < 8 && forall k :: 0 <= k < |rows| ==> Storable(t, At(rows[k], f.index))
  }

  /** The running sum of the first `j` rows is within the limits of its type. */
  predicate RunningSumFits(types: ResultTypes, f: AggrFunc, run: seq<Row>, j: nat)
    requires f.index < |types| && types[f.index].Some? && j <= |run|
  {
    var t := types[f.index].value;
    IsInt(t) && MinInt(t) <= SumOf(Column(run[..j], f.index)) <= MaxInt(t)
  }

  /** Sums of narrower columns are refused exactly when a running sum leaves the limits of its type. */
  lemma RefusedExactly(types: ResultTypes, proj: seq<AggrFunc>, run: seq<Row>)
    requires Summable(types, proj)
    requires forall p :: 0 <= p < |proj| && proj[p].func in {SUM, AVG} ==> Narrow(types, proj[p], run)
    ensures SumsFit(types, proj, run) <==>
            forall p, j :: 0 <= p < |proj| && proj[p].func in {SUM, AVG} && 2 <= j <= |run| ==>
              RunningSumFits(types, proj[p], run, j)
  {
    hide SumAccepted, SumOf, Narrow, RunningSumFits;
    forall p | 0 <= p < |proj| && proj[p].func in {SUM, AVG}
      ensures (forall j :: 2 <= j <= |run| ==> RunningSumFits(types, proj[p], run, j)) <==>
              forall j :: 2 <= j <= |run| ==>
                SumAccepted(types[proj[p].index].value, SumOf(Column(run[..j], proj[p].index)))
    {
      OneColumnExactly(types, proj[p], run);
    }
    assert SumsFit(types, proj, run) <==>
           forall j, p :: 2 <= j <= |run| && 0 <= p < |proj| && proj[p].func in {SUM, AVG} ==>
             SumAccepted(types[proj[p].index].value, SumOf(Column(run[..j], proj[p].index)));
  }

  lemma OneColumnExactly(types: ResultTypes, f: AggrFunc, run: seq<Row>)
    requires f.index < |types| && types[f.index].Some? && Narrow(types, f, run)
    ensures (forall j :: 2 <= j <= |run| ==> RunningSumFits(types, f, run, j)) <==>
            forall j :: 2 <= j <= |run| ==> SumAccepted(types[f.index].value, SumOf(Column(run[..j], f.index)))
  {
    hide SumOf, SumAccepted;
    var (t, column) := (types[f.index].value, Column(run, f.index));
    forall j | 2 <= j <= |run| ensures Column(run[..j], f.index) == column[..j] {
    }
    if forall j :: 2 <= j <= |run| ==> RunningSumFits(types, f, run, j) {
      forall j | 2 <= j <= |run| ensures SumAccepted(t, SumOf(column[..j])) {
        assert RunningSumFits(types, f, run, j);
        SumAcceptedExactly(t, SumOf(column[..j]));
      }
    }
    if forall j :: 2 <= j <= |run| ==> SumAccepted(t, SumOf(Column(run[..j], f.index))) {
      forall j | 2 <= j <= |run| ensures RunningSumFits(types, f, run, j) {
        assert forall k :: 2 <= k <= j ==> column[..j][..k] == Column(run[..k], f.index);
        AcceptedSumsAreExact(t, column[..j]);
      }
    }
  }

  /** Of a 64-bit type no sum is refused, and two of the largest values add up to -2. */
  lemma SilentOverflow(rows: seq<Row>)
    requires rows == [[IntV(0x7FFF_FFFF_FFFF_FFFF)], [IntV(0x7FFF_FFFF_FFFF_FFFF)]]
    ensures SumsFit([Some(Int64)], [AggrFunc(SUM, 0)], rows)
    ensures OutputRow([AggrFunc(SUM, 0)], rows) == [IntV(-2)]
  {
    var column := Column(rows, 0);
    assert column == [IntV(0x7FFF_FFFF_FFFF_FFFF), IntV(0x7FFF_FFFF_FFFF_FFFF)];
    assert column[..1] == [IntV(0x7FFF_FFFF_FFFF_FFFF)];
    SumOfOne(column[..1]);
  }

  /** The result of one projection from what it has gathered. */
  function Finish(func: FuncType, value: Value, count: nat): Value
    requires count > 0
  {
    match func
    case COUNT => IntV(count)
    case AVG => RealV(IntOf(value) as real / count as real)
    case _ => value
  }

  /** Gathering over a run and finishing gives the aggregate of the run. */
  lemma FinishIsResult(func: FuncType, column: seq<Value>)
    requires column != []
    ensures Finish(func, Partial(func, column), |column|) == ResultOf(func, column)
  {
  }

  lemma SumOfOne(column: seq<Value>)
    requires column != []
    ensures |column| == 1 ==> SumOf(column) == IntOf(column[0])
  {
  }

  /** The sum that has been gathered is the exact one, as far as 64 bits hold it. */
  lemma SumSoFar(func: FuncType, column: seq<Value>)
    requires column != [] && func in {SUM, AVG}
    ensures Wrapped(IntOf(Partial(func, column))) == Wrapped(SumOf(column))
  {
    SumOfOne(column);
    WrappedTwice(SumOf(column), 0);
  }

  /** One more row of the run. */
  lemma PartialStep(func: FuncType, column: seq<Value>, v: Value)
    requires column != []
    ensures Partial(func, column + [v]) ==
              match func
              case FIRST | COUNT => Partial(func, column)
              case MIN => (if Compare(v, Partial(func, column)) < 0 then v else Partial(func, column))
              case MAX => (if Compare(v, Partial(func, column)) > 0 then v else Partial(func, column))
              case SUM | AVG => IntV(Wrapped(IntOf(Partial(func, column)) + IntOf(v)))
    ensures func in {SUM, AVG} ==> Wrapped(SumOf(column + [v])) == Wrapped(IntOf(Partial(func, column)) + IntOf(v))
  {
    assert (column + [v])[..|column|] == column;
    if func in {SUM, AVG} {
      SumSoFar(func, column);
      WrappedTwice(SumOf(column), IntOf(v));
      WrappedTwice(IntOf(Partial(func, column)), IntOf(v));
    }
  }

  class GroupByPlan {
    const child: RowSource
    const types: ResultTypes
    const groupby: seq<nat>
    const proj: seq<AggrFunc>
    var hasMore: bool
    var last: seq<Value>
    var values: seq<Value>
    var counts: seq<nat>

    constructor (child: RowSource, types: ResultTypes, groupby: seq<nat>, proj: seq<AggrFunc>)
      ensures this.child == child && this.types == types && this.groupby == groupby && this.proj == proj
    {
      this.child, this.types, this.groupby, this.proj := child, types, groupby, proj;
      hasMore, last, values, counts := false, [], [], [];
    }

    ghost predicate Running()
      reads this, child
    {
      && Summable(types, proj) && child.pos <= |child.rows|
      && (hasMore ==> child.pos > 0 && last == KeyOf(child.Current(), groupby))
    }

    /** The output rows still to come. */
    ghost function Remaining(): seq<Row>
      requires Running()
      reads this, child
    {
      if hasMore then GroupOutput(child.rows, groupby, proj, child.pos - 1) else []
    }

    /** The rows of the run that `next` is to gather. */
    ghost function CurrentRun(): seq<Row>
      requires Running() && hasMore
      reads this, child
    {
      child.rows[child.pos - 1..RunEnd(KeysOf(child.rows, groupby), child.pos - 1, child.pos)]
    }

    method Begin()
      requires Summable(types, proj)
      modifies this, child
      ensures Running() && Remaining() == GroupOutput(child.rows, groupby, proj, 0)
    {
      child.Begin();
      hasMore := child.Next();
      last := [];
      if hasMore {
        for i := 0 to |groupby|
          invariant hasMore && child.pos == 1 && last == KeyOf(child.rows[0], groupby)[..i]
        {
          last := last + [At(child.Current(), groupby[i])];
        }
      }
    }

    /** The result of projection `i` for the run gathered last. */
    function GetResult(i: nat): Value
      requires i < |proj| && i < |values| && i < |counts| && counts[i] > 0
      reads this
    {
      Finish(proj[i].func, values[i], counts[i])
    }

    /** The results of the projections are the values of the row. */
    ghost predicate Shows(row: Row)
      reads this
    {
      && |values| == |counts| == |proj| == |row|
      && forall i :: 0 <= i < |proj| ==> counts[i] > 0 && GetResult(i) == row[i]
    }

    /** The results of the projections are their aggregates over the rows. */
    ghost predicate ShowsAggregates(run: seq<Row>)
      reads this
    {
      && run != [] && |values| == |counts| == |proj|
      && forall i :: 0 <= i < |proj| ==> counts[i] > 0 && IsAggregate(proj[i], run, GetResult(i))
    }

    /** The projections hold what they gather over the rows. */
    ghost predicate Gathered(rows: seq<Row>)
      reads `values, `counts
    {
      && rows != [] && |values| == |counts| == |proj|
      && forall i :: 0 <= i < |proj| ==>
           counts[i] == |rows| && values[i] == Partial(proj[i].func, Column(rows, proj[i].index))
    }

    /**
     * The projections give the next output row. `failed` is the error of a sum outside the range
     * of its type; it ends the statement, and nothing is claimed about the plan after it.
     */
    method Next() returns (ok: bool, failed: bool)
      requires Running()
      modifies this, child
      ensures failed <==> old(hasMore) && !SumsFit(types, proj, old(CurrentRun()))
      ensures !failed ==> Running() && ok == (old(Remaining()) != [])
      ensures ok && !failed ==> Shows(old(Remaining())[0]) && Remaining() == old(Remaining())[1..]
      ensures ok && !failed ==> old(hasMore) && ShowsAggregates(old(CurrentRun()))
    {
      if !hasMore {
        return false, false;
      }
      hide *;
      ghost var start := child.pos - 1;
      ghost var end := RunEnd(KeysOf(child.rows, groupby), start, start + 1);
      StartOfRun(end);
      failed := GatherRun(start, end);
      if failed {
        return false, true;
      }
      EndOfRun(end);
      ResultsOfRun(child.rows[start..end]);
      return true, false;
    }

    lemma StartOfRun(end: nat)
      requires Running() && hasMore && end == RunEnd(KeysOf(child.rows, groupby), child.pos - 1, child.pos)
      ensures CurrentRun() == child.rows[child.pos - 1..end]
      ensures Remaining() != [] && Remaining()[0] == OutputRow(proj, child.rows[child.pos - 1..end])
      ensures Remaining()[1..] == GroupOutput(child.rows, groupby, proj, end)
    {
      FirstOutput(child.rows, groupby, proj, child.pos - 1);
    }

    lemma EndOfRun(end: nat)
      requires Running() && end <= |child.rows| && hasMore == (end < |child.rows|) && (hasMore ==> child.pos == end + 1)
      ensures Remaining() == GroupOutput(child.rows, groupby, proj, end)
    {
    }

    /** What has been gathered over a run is its output row. */
    lemma ResultsOfRun(run: seq<Row>)
      requires Gathered(run)
      ensures Shows(OutputRow(proj, run)) && ShowsAggregates(run)
    {
      hide ResultOf, Partial, Finish, IsAggregate;
      forall i | 0 <= i < |proj| ensures GetResult(i) == OutputRow(proj, run)[i] {
        FinishIsResult(proj[i].func, Column(run, proj[i].index));
      }
      forall i | 0 <= i < |proj| ensures IsAggregate(proj[i], run, GetResult(i)) {
        OutputMeaning(proj, run, i);
      }
    }

    /** The loop of `next`: takes rows from the child up to the end of the run. */
    method GatherRun(ghost start: nat, ghost end: nat) returns (failed: bool)
      requires Running() && hasMore && start == child.pos - 1
      requires end == RunEnd(KeysOf(child.rows, groupby), start, start + 1)
      modifies this, child
      ensures failed == !SumsFit(types, proj, child.rows[start..end])
      ensures !failed ==> Running() && Gathered(child.rows[start..end])
      ensures !failed ==> hasMore == (end < |child.rows|) && (hasMore ==> child.pos == end + 1)
    {
      hide Gathered, SumsFit, RunEnd;
      StartRun();
      assert child.rows[start..start + 1] == [child.rows[start]];
      OneRowFits(start);
      var sameGroup := true;
      while sameGroup
        invariant start < child.pos <= |child.rows|
        invariant sameGroup ==>
                    && child.pos <= end && Gathered(child.rows[start..child.pos])
                    && last == KeyOf(child.rows[start], groupby) && SumsFit(types, proj, child.rows[start..child.pos])
        invariant !sameGroup ==>
                    && hasMore && child.pos == end + 1 && Gathered(child.rows[start..end])
                    && last == KeyOf(child.Current(), groupby) && SumsFit(types, proj, child.rows[start..end])
        decreases sameGroup, |child.rows| - child.pos
      {
        hasMore := child.Next();
        if !hasMore {
          break;
        }
        sameGroup := UpdateKey();
        assert sameGroup == (KeysOf(child.rows, groupby)[start] == KeysOf(child.rows, groupby)[child.pos - 1]);
        if sameGroup {
          failed := AddRow(start);
          OneMoreFits(start, child.pos, end);
          if failed {
            return true;
          }
        }
      }
      return false;
    }

    lemma OneRowFits(start: nat)
      requires start < |child.rows| && Summable(types, proj)
      ensures SumsFit(types, proj, child.rows[start..start + 1])
    {
    }

    /** The sums fit up to one row more, or not up to there and so not in the whole run. */
    lemma OneMoreFits(start: nat, pos: nat, end: nat)
      requires start + 1 < pos <= end <= |child.rows| && Summable(types, proj)
      requires SumsFit(types, proj, child.rows[start..pos - 1])
      ensures SumsFit(types, proj, child.rows[start..pos]) == SumsFitAt(types, proj, child.rows[start..pos])
      ensures !SumsFitAt(types, proj, child.rows[start..pos]) ==> !SumsFit(types, proj, child.rows[start..end])
    {
      hide SumsFitAt;
      var (before, now, run) := (child.rows[start..pos - 1], child.rows[start..pos], child.rows[start..end]);
      assert now[..|now|] == now && run[..|now|] == now;
      assert forall j :: 2 <= j < |now| ==> now[..j] == before[..j];
    }

    /** The first row of a run sets every projection. */
    method StartRun()
      requires 0 < child.pos <= |child.rows|
      modifies `values, `counts
      ensures Gathered([child.Current()])
    {
      values, counts := [], [];
      for i := 0 to |proj|
        invariant |values| == |counts| == i
        invariant forall k :: 0 <= k < i ==> counts[k] == 1 && values[k] == At(child.Current(), proj[k].index)
      {
        values := values + [At(child.Current(), proj[i].index)];
        counts := counts + [1];
      }
    }

    /** Compares the group columns with the last key and makes the last key the current one. */
    method UpdateKey() returns (same: bool)
      requires 0 < child.pos <= |child.rows| && |last| == |groupby|
      modifies `last
      ensures same == (old(last) == KeyOf(child.Current(), groupby)) && last == KeyOf(child.Current(), groupby)
    {
      same := true;
      ghost var (was, key) := (last, KeyOf(child.Current(), groupby));
      for i := 0 to |last|
        invariant |last| == |groupby|
        invariant forall k :: 0 <= k < |last| ==> last[k] == if k < i then key[k] else was[k]
        invariant same == forall k :: 0 <= k < i ==> was[k] == key[k]
      {
        var result := At(child.Current(), groupby[i]);
        CompareOrder(result, last[i]);
        if Compare(result, last[i]) != 0 {
          last := last[i := result];
          same := false;
        }
      }
    }

    /** A further row of the run updates every projection, until a sum leaves the range of its type. */
    method AddRow(ghost start: nat) returns (failed: bool)
      requires start + 1 < child.pos <= |child.rows| && Gathered(child.rows[start..child.pos - 1])
      requires Summable(types, proj)
      modifies `values, `counts
      ensures failed == !SumsFitAt(types, proj, child.rows[start..child.pos])
      ensures !failed ==> Gathered(child.rows[start..child.pos])
    {
      ghost var (run, more) := (child.rows[start..child.pos - 1], child.rows[start..child.pos]);
      for i := 0 to |proj|
        invariant |values| == |counts| == |proj|
        invariant forall k :: 0 <= k < |proj| ==>
                    && counts[k] == (if k < i then |more| else |run|)
                    && values[k] == Partial(proj[k].func, Column(if k < i then more else run, proj[k].index))
        invariant Summable(types, proj[..i]) && SumsFitAt(types, proj[..i], more)
      {
        hide SumsFitAt, Partial;
        ghost var column := Column(run, proj[i].index);
        assert Column(more, proj[i].index) == column + [At(child.Current(), proj[i].index)];
        SumsFitOneMore(types, proj, i, more);
        failed := AddValue(i, column);
        if failed {
          return;
        }
      }
      assert proj[..|proj|] == proj;
      return false;
    }

    /** One value more for one projection. */
    method AddValue(i: nat, ghost column: seq<Value>) returns (failed: bool)
      requires i < |proj| == |values| == |counts| && 0 < child.pos <= |child.rows| && column != []
      requires Summable(types, proj)
      requires values[i] == Partial(proj[i].func, column)
      modifies `values, `counts
      ensures failed == (proj[i].func in {SUM, AVG} && !ValueFits(i, column + [At(child.Current(), proj[i].index)]))
      ensures counts == old(counts)[i := old(counts)[i] + 1]
      ensures !failed ==>
              values == old(values)[i := Partial(proj[i].func, column + [At(child.Current(), proj[i].index)])]
    {
      hide Partial, SumOf;
      var (func, v) := (proj[i].func, At(child.Current(), proj[i].index));
      PartialStep(func, column, v);
      counts := counts[i := counts[i] + 1];
      failed := false;
      match func
      case FIRST | COUNT =>
      case MIN =>
        if Compare(v, values[i]) < 0 {
          values := values[i := v];
        }
      case MAX =>
        if Compare(v, values[i]) > 0 {
          values := values[i := v];
        }
      case SUM | AVG =>
        var sum := Wrapped(IntOf(values[i]) + IntOf(v));
        if !ValueAccepted(types[proj[i].index].value, sum) {
          return true;
        }
        values := values[i := IntV(sum)];
    }

    predicate ValueFits(i: nat, column: seq<Value>)
      requires i < |proj| && Summable(types, proj) && proj[i].func in {SUM, AVG}
    {
      SumAccepted(types[proj[i].index].value, SumOf(column))
    }
  }
}
