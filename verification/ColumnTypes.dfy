/**
 * The result types that plans give to their columns are the types of the values that they deliver
 * (`getResultType` in execution/GroupByPlan.h, ProjectionPlan.h and UnionAllPlan.h).
 */
module ColumnTypes {
  import opened Multisets
  import opened Seqs
  import opened Values
  import opened Source
  import opened Scan
  import opened Sort
  import opened GroupBy
  import opened SelectPlan
  import SelectBuilder

  /** A value of a column of the type; None is the double of an average. */
  predicate TypedValue(t: Option<ColType>, v: Value) {
    match t
    case None => v.RealV?
    case Some(c) => Storable(c, v)
  }

  predicate TypedRows(types: ResultTypes, rows: seq<Row>) {
    forall i :: 0 <= i < |rows| ==>
      |rows[i]| == |types| && forall j :: 0 <= j < |types| ==> TypedValue(types[j], rows[i][j])
  }

  /**
   * The rows of tables and files are of their types, the scans of a union have the same columns, and
   * the columns that are named exist.
   */
  predicate WellTyped(p: Plan) {
    match p
    case Table(s) => TypedRows(Known(s.columns), s.rows)
    case Union(ss, _) =>
      forall i :: 0 <= i < |ss| ==> ss[i].columns == ss[0].columns && TypedRows(Known(ss[i].columns), ss[i].rows)
    case File(types, rows) => TypedRows(Known(types), rows)
    case Filtering(c, _) => WellTyped(c)
    case Projection(c, columns) => WellTyped(c) && forall i :: 0 <= i < |columns| ==> columns[i] < |TypesOf(c)|
    case Sorting(c, _) => WellTyped(c)
    case Grouping(c, _, aggrs) => WellTyped(c) && forall i :: 0 <= i < |aggrs| ==> aggrs[i].index < |TypesOf(c)|
  }

  /** The number of rows at the bottom of the plan. */
  function RowCount(p: Plan): nat {
    match p
    case Table(s) => |s.rows|
    case Union(ss, _) => |Concat(ForwardRows(ss))|
    case File(_, rows) => |rows|
    case Filtering(c, _) => RowCount(c)
    case Projection(c, _) => RowCount(c)
    case Sorting(c, _) => RowCount(c)
    case Grouping(c, _, _) => RowCount(c)
  }

  lemma TypedMembers(types: ResultTypes, rows: seq<Row>, out: seq<Row>)
    requires TypedRows(types, rows) && forall row :: row in out ==> row in rows
    ensures TypedRows(types, out)
  {
    forall i | 0 <= i < |out|
      ensures |out[i]| == |types| && forall j :: 0 <= j < |types| ==> TypedValue(types[j], out[i][j])
    {
      assert out[i] in out;
      var k :| 0 <= k < |rows| && rows[k] == out[i];
    }
  }

  /** Values of the scans' types are of the wider types of the union. */
  lemma WidenedRows(columns: seq<ColType>, rows: seq<Row>)
    requires TypedRows(Known(columns), rows)
    ensures TypedRows(Known(Widened(columns)), rows)
  {
    forall i, j | 0 <= i < |rows| && 0 <= j < |columns| ensures TypedValue(Known(Widened(columns))[j], rows[i][j]) {
      assert TypedValue(Known(columns)[j], rows[i][j]);
    }
  }

  lemma {:induction false} TypedConcat(types: ResultTypes, parts: seq<seq<Row>>)
    requires forall i :: 0 <= i < |parts| ==> TypedRows(types, parts[i])
    ensures TypedRows(types, Concat(parts))
  {
    if parts != [] {
      TypedConcat(types, parts[1..]);
    }
  }

  /** A gathered sum of at least two values that has been accepted is of the column's type. */
  lemma TypedAggregate(types: ResultTypes, aggrs: seq<AggrFunc>, i: nat, run: seq<Row>)
    requires i < |aggrs| && aggrs[i].index < |types| && TypedRows(types, run) && run != []
    requires Summable(types, aggrs) && SumsFit(types, aggrs, run) && |run| <= MaxInt(Int64)
    ensures TypedValue(TypeOfAggr(types, aggrs[i]), ResultOf(aggrs[i].func, Column(run, aggrs[i].index)))
  {
    hide MinOf, MaxOf, SumOf, Wrapped, RunEnd;
    var (f, column) := (aggrs[i], Column(run, aggrs[i].index));
    MinMaxMeaning(column);
    assert forall v :: v in column ==> TypedValue(types[f.index], v) by {
      assert forall k :: 0 <= k < |column| ==> TypedValue(types[f.index], run[k][f.index]);
    }
    assert column[0] in column;
    if f.func == SUM && |run| > 1 {
      assert run[..|run|] == run && SumsFitAt(types, aggrs, run[..|run|]);
      assert SumAccepted(types[f.index].value, SumOf(column));
    }
  }

  lemma {:induction false} TypedGroups(types: ResultTypes, rows: seq<Row>, groupby: seq<nat>, aggrs: seq<AggrFunc>,
                                       start: nat)
    requires TypedRows(types, rows) && start <= |rows| <= MaxInt(Int64)
    requires Summable(types, aggrs) && forall i :: 0 <= i < |aggrs| ==> aggrs[i].index < |types|
    requires RunsFit(types, rows, groupby, aggrs, start)
    ensures var out := GroupOutput(rows, groupby, aggrs, start);
            && TypedRows(seq(|aggrs|, i requires 0 <= i < |aggrs| => TypeOfAggr(types, aggrs[i])), out)
            && |out| <= |rows| - start
    decreases |rows| - start
  {
    hide SumsFit, Summable, TypedValue, TypeOfAggr, ResultOf, RunEnd;
    if start < |rows| {
      var end := RunEnd(KeysOf(rows, groupby), start, start + 1);
      TypedGroups(types, rows, groupby, aggrs, end);
      forall i | 0 <= i < |aggrs|
        ensures TypedValue(TypeOfAggr(types, aggrs[i]), OutputRow(aggrs, rows[start..end])[i])
      {
        TypedAggregate(types, aggrs, i, rows[start..end]);
      }
    }
  }

  lemma TypedProjection(types: ResultTypes, rows: seq<Row>, columns: seq<nat>)
    requires TypedRows(types, rows) && forall i :: 0 <= i < |columns| ==> columns[i] < |types|
    ensures TypedRows(seq(|columns|, i requires 0 <= i < |columns| => TypeAt(types, columns[i])),
                      Projected(rows, columns)) && |Projected(rows, columns)| == |rows|
  {
    forall i, j | 0 <= i < |rows| && 0 <= j < |columns|
      ensures TypedValue(TypeAt(types, columns[j]), Projected(rows, columns)[i][j])
    {
      assert TypedValue(types[columns[j]], rows[i][columns[j]]);
    }
  }

  lemma TypedChildren(scans: seq<TableScan>)
    requires WellTyped(Union(scans, Any))
    ensures TypedRows(TypesOf(Union(scans, Any)), Concat(ForwardRows(scans)))
  {
    hide TypedRows;
    forall i | 0 <= i < |scans| ensures TypedRows(TypesOf(Union(scans, Any)), ForwardRows(scans)[i]) {
      WidenedRows(scans[i].columns, scans[i].rows);
    }
    TypedConcat(TypesOf(Union(scans, Any)), ForwardRows(scans));
  }

  lemma TypedUnion(scans: seq<TableScan>, order: SortOrder, out: seq<Row>)
    requires WellTyped(Union(scans, order)) && Delivers(Union(scans, order), out)
    ensures TypedRows(TypesOf(Union(scans, order)), out) && |out| == RowCount(Union(scans, order))
  {
    hide TypedRows, WellTyped, TypesOf, Outputs;
    assert WellTyped(Union(scans, Any)) && TypesOf(Union(scans, order)) == TypesOf(Union(scans, Any)) by {
      OrderHasNoType(scans, order);
    }
    var rows := Concat(ForwardRows(scans));
    TypedChildren(scans);
    SelectBuilder.UnionRows(scans, order);
    SameLength(out, rows);
    assert forall row :: row in out ==> row in multiset(rows);
    TypedMembers(TypesOf(Union(scans, Any)), rows, out);
  }

  lemma OrderHasNoType(scans: seq<TableScan>, order: SortOrder)
    ensures WellTyped(Union(scans, order)) == WellTyped(Union(scans, Any))
    ensures TypesOf(Union(scans, order)) == TypesOf(Union(scans, Any))
  {
  }

  /**
   * Whatever a plan delivers has the types that the plan gives to its columns: integers are within
   * their limits, also where a union widens them, counts are 64-bit integers and averages doubles.
   */
  lemma {:induction false} TypesAreRight(p: Plan, out: seq<Row>)
    requires WellTyped(p) && Delivers(p, out) && RowCount(p) <= MaxInt(Int64)
    ensures TypedRows(TypesOf(p), out) && |out| <= RowCount(p)
    decreases p
  {
    hide TypedRows, Projected, GroupOutput, RunsFit, SortedFrom, Summable;
    match p
    case Table(s) =>
      TypedMembers(TypesOf(p), s.rows, out);
    case Union(ss, order) =>
      TypedUnion(ss, order, out);
    case File(_, _) =>
    case Filtering(c, ors) =>
      var input :| Delivers(c, input) && out == Filter(input, Keeps(ors));
      TypesAreRight(c, input);
      FilterIsPart(input, Keeps(ors));
      TypedMembers(TypesOf(c), input, out);
    case Projection(c, columns) =>
      var input :| Delivers(c, input) && out == Projected(input, columns);
      TypesAreRight(c, input);
      TypedProjection(TypesOf(c), input, columns);
    case Sorting(c, specs) =>
      var input :| Delivers(c, input) && SortedFrom(input, specs, out);
      TypesAreRight(c, input);
      SelectBuilder.SortedIsPermuted(input, specs, out);
      SameLength(out, input);
      assert forall row :: row in out ==> row in multiset(input);
      TypedMembers(TypesOf(c), input, out);
    case Grouping(c, g, aggrs) =>
      var input :| Delivers(c, input) && GroupedTo(TypesOf(c), input, g, aggrs, out);
      TypesAreRight(c, input);
      TypedGroups(TypesOf(c), input, g, aggrs, 0);
  }

  lemma {:induction false} FilterIsPart(rows: seq<Row>, f: Row -> bool)
    ensures |Filter(rows, f)| <= |rows| && forall row :: row in Filter(rows, f) ==> row in rows
  {
    if rows != [] {
      FilterIsPart(rows[1..], f);
    }
  }
}
