/**
 * The plan tree of a SELECT, the requests for a sort order that go down it, and what its promises
 * mean for the rows (`ensureSortOrder` in execution/BasePlan.h, UnionAllPlan.h, ProjectionPlan.h,
 * SortPlan.cpp and LevelDBScanPlan.cpp).
 */
module SelectPlan {
  import opened Seqs
  import opened Values
  import opened Predicates
  import opened Source
  import opened Scan
  import opened Plans
  import opened Sort
  import opened GroupBy
  import opened GroupKeys
  import StdSort

  /**
   * A range scan with or without its residual filter. The first `keys` columns of its rows are
   * the key; `rows` is what it delivers when it runs forward.
   */
  datatype TableScan = TableScan(columns: seq<ColType>, keys: nat, rows: seq<Row>, order: SortOrder)
  {
    function Output(): seq<Row> {
      if order == Descend then Reverse(rows) else rows
    }
  }

  datatype Plan =
    | Table(scan: TableScan)
    | Union(scans: seq<TableScan>, order: SortOrder)
    | File(types: seq<ColType>, rows: seq<Row>)
    | Filtering(child: Plan, predicatesInOr: seq<seq<Pred>>)
    | Projection(child: Plan, columns: seq<nat>)
    | Sorting(child: Plan, specs: seq<SortSpec>)
    | Grouping(child: Plan, groupby: seq<nat>, aggrs: seq<AggrFunc>)

  // ---------- requests for a sort order ----------

  function EnsureScan(s: TableScan, index: nat, column: nat, requested: SortOrder): (bool, TableScan) {
    var (ok, order) := ScanEnsures(s.keys, s.order, index, column, requested);
    (ok, s.(order := order))
  }

  /** Child by child until one refuses. */
  function EnsureScans(scans: seq<TableScan>, index: nat, column: nat, requested: SortOrder)
    : (r: (bool, seq<TableScan>))
    ensures |r.1| == |scans|
  {
    if scans == [] then (true, [])
    else
      var (ok, s) := EnsureScan(scans[0], index, column, requested);
      if !ok then (false, [s] + scans[1..])
      else
        var (all, rest) := EnsureScans(scans[1..], index, column, requested);
        (all, [s] + rest)
  }

  /** `ensureSortOrder`: whether the plan can deliver the column as the item `index` of a sort, and the plan then. */
  function Ensure(p: Plan, index: nat, column: nat, requested: SortOrder): (bool, Plan) {
    match p
    case Table(s) =>
      var (ok, s') := EnsureScan(s, index, column, requested);
      (ok, Table(s'))
    case Union(ss, order) =>
      var (ok, ss') := EnsureScans(ss, index, column, requested);
      (ok, Union(ss', if ok then requested else order))
    case File(_, _) => (false, p)
    case Filtering(c, ors) =>
      var (ok, c') := Ensure(c, index, column, requested);
      (ok, Filtering(c', ors))
    case Projection(c, columns) =>
      if column >= |columns| then (false, p)
      else
        var (ok, c') := Ensure(c, index, columns[column], requested);
        (ok, Projection(c', columns))
    case Sorting(c, specs) =>
      var (ok, specs') := SortEnsures(specs, index, column, requested);
      (ok, Sorting(c, specs'))
    case Grouping(c, g, aggrs) =>
      if column >= |aggrs| || aggrs[column].func != FIRST then (false, p)
      else
        var (ok, c') := Ensure(c, index, aggrs[column].index, requested);
        (ok, Grouping(c', g, aggrs))
  }

  /** The requests from item `i` on, up to the first refusal. */
  function Requests(p: Plan, items: seq<SortSpec>, i: nat): (bool, Plan)
    requires i <= |items|
    decreases |items| - i
  {
    if i == |items| then (true, p)
    else
      var (ok, q) := Ensure(p, i, items[i].index, items[i].order);
      if !ok then (false, q) else Requests(q, items, i + 1)
  }

  // ---------- what a plan delivers ----------

  function Outputs(scans: seq<TableScan>): seq<seq<Row>> {
    seq(|scans|, i requires 0 <= i < |scans| => scans[i].Output())
  }

  function Keeps(predicatesInOr: seq<seq<Pred>>): Row -> bool {
    (row: Row) => AnyHolds(predicatesInOr, row)
  }

  /** One row for each run of equal group keys. */
  function GroupRows(rows: seq<Row>, groupby: seq<nat>, aggrs: seq<AggrFunc>): seq<Row> {
    GroupOutput(rows, groupby, aggrs, 0)
  }

  // ---------- the types of columns ----------

  function Known(columns: seq<ColType>): ResultTypes {
    seq(|columns|, i requires 0 <= i < |columns| => Some(columns[i]))
  }

  /** Under a union integers are of 64 bits. */
  function Widened(columns: seq<ColType>): (r: seq<ColType>)
    ensures |r| == |columns|
  {
    seq(|columns|, i requires 0 <= i < |columns| => if columns[i] in {Int16, Int32} then Int64 else columns[i])
  }

  /** The type of a column; the columns that a plan names exist. */
  function TypeAt(types: ResultTypes, index: nat): Option<ColType> {
    if index < |types| then types[index] else None
  }

  function TypeOfAggr(types: ResultTypes, aggr: AggrFunc): Option<ColType> {
    match aggr.func
    case AVG => None
    case COUNT => Some(Int64)
    case _ => TypeAt(types, aggr.index)
  }

  /** `getResultType` of the columns of a plan. */
  function TypesOf(p: Plan): ResultTypes {
    match p
    case Table(s) => Known(s.columns)
    case Union(ss, _) => if ss == [] then [] else Known(Widened(ss[0].columns))
    case File(columns, _) => Known(columns)
    case Filtering(c, _) => TypesOf(c)
    case Projection(c, columns) => seq(|columns|, i requires 0 <= i < |columns| => TypeAt(TypesOf(c), columns[i]))
    case Sorting(c, _) => TypesOf(c)
    case Grouping(c, _, aggrs) => seq(|aggrs|, i requires 0 <= i < |aggrs| => TypeOfAggr(TypesOf(c), aggrs[i]))
  }

  /** Over a union no sum or average of integers is refused: they are all of 64 bits there. */
  lemma UnionRefusesNoSum(scans: seq<TableScan>, order: SortOrder, rows: seq<Row>, groupby: seq<nat>,
                          aggrs: seq<AggrFunc>)
    requires scans != []
    requires forall p :: 0 <= p < |aggrs| && aggrs[p].func in {SUM, AVG} ==>
               && aggrs[p].index < |scans[0].columns|
               && scans[0].columns[aggrs[p].index] in {Int16, Int32, Int64, Date, DateTime}
    ensures var types := TypesOf(Union(scans, order));
            Summable(types, aggrs) && RunsFit(types, rows, groupby, aggrs, 0)
  {
    WideRunsFit(TypesOf(Union(scans, order)), rows, groupby, aggrs, 0);
  }

  /** The output of a grouping whose sums are all accepted. */
  predicate GroupedTo(types: ResultTypes, input: seq<Row>, groupby: seq<nat>, aggrs: seq<AggrFunc>, out: seq<Row>) {
    Summable(types, aggrs) && RunsFit(types, input, groupby, aggrs, 0) && out == GroupRows(input, groupby, aggrs)
  }

  /**
   * `out` is an output of the plan, without an error; only the order of rows that a sort finds
   * equal is open.
   */
  ghost predicate Delivers(p: Plan, out: seq<Row>)
    decreases p
  {
    match p
    case Table(s) => out == s.Output()
    case Union(ss, order) => out == Concat(if order == Descend then Reverse(Outputs(ss)) else Outputs(ss))
    case File(_, rows) => out == rows
    case Filtering(c, ors) => exists input :: Delivers(c, input) && out == Filter(input, Keeps(ors))
    case Projection(c, columns) => exists input :: Delivers(c, input) && out == Projected(input, columns)
    case Sorting(c, specs) => exists input :: Delivers(c, input) && SortedFrom(input, specs, out)
    case Grouping(c, g, aggrs) => exists input :: Delivers(c, input) && GroupedTo(TypesOf(c), input, g, aggrs, out)
  }

  ghost predicate SortedFrom(input: seq<Row>, specs: seq<SortSpec>, out: seq<Row>) {
    && SortedRows(specs, out)
    && exists perm: seq<nat> :: StdSort.IsPermutation(perm, |input|) && out == StdSort.Permuted(input, perm)
  }

  // ---------- plans that keep their promises ----------

  function KeySpecs(keys: nat, order: SortOrder): seq<SortSpec> {
    seq(keys, i requires 0 <= i < keys => SortSpec(i, order))
  }

  function ForwardRows(scans: seq<TableScan>): seq<seq<Row>> {
    seq(|scans|, i requires 0 <= i < |scans| => scans[i].rows)
  }

  function KeyParts(parts: seq<seq<Row>>, columns: seq<nat>): seq<seq<Row>> {
    seq(|parts|, i requires 0 <= i < |parts| => KeysOf(parts[i], columns))
  }

  /** A key of two parts is the only key in both of them and in the parts between. */
  ghost predicate Blocks(parts: seq<seq<Row>>) {
    forall i, r, j, k, w ::
      0 <= i <= r <= j < |parts| && i < j && k in parts[i] && k in parts[j] && w in parts[r] ==> w == k
  }

  /** The children of a union scan in one direction, and in turn their rows ascend. */
  ghost predicate CoherentUnion(scans: seq<TableScan>) {
    && scans != []
    && (forall i :: 0 <= i < |scans| ==> scans[i].keys == scans[0].keys && scans[i].order == scans[0].order)
    && SortedRows(KeySpecs(scans[0].keys, Ascend), Concat(ForwardRows(scans)))
  }

  /** Children that share a prefix of the key have no other. */
  ghost predicate Whole(scans: seq<TableScan>) {
    scans != [] && forall m: nat :: m <= scans[0].keys ==> Blocks(KeyParts(ForwardRows(scans), FirstIndices(m)))
  }

  /** Scans run over sorted rows, and sums are taken over columns of tables. */
  ghost predicate Coherent(p: Plan) {
    match p
    case Table(s) => SortedRows(KeySpecs(s.keys, Ascend), s.rows)
    case Union(ss, _) => CoherentUnion(ss)
    case File(_, _) => true
    case Filtering(c, _) => Coherent(c)
    case Projection(c, _) => Coherent(c)
    case Sorting(c, _) => Coherent(c)
    case Grouping(c, _, aggrs) => Coherent(c) && Summable(TypesOf(c), aggrs)
  }

  /** A union runs its children in the order that their direction calls for. */
  predicate UnionInStep(scans: seq<TableScan>, order: SortOrder) {
    scans != [] && (scans[0].order == Descend <==> order == Descend)
  }

  /** So does the union that requests for a sort order reach. */
  predicate InStep(p: Plan) {
    match p
    case Table(_) | File(_, _) | Sorting(_, _) => true
    case Union(ss, order) => UnionInStep(ss, order)
    case Filtering(c, _) => InStep(c)
    case Projection(c, _) => InStep(c)
    case Grouping(c, _, _) => InStep(c)
  }

  /** Every union is in step, or its children share key prefixes as blocks do. */
  ghost predicate Kept(p: Plan) {
    match p
    case Table(_) | File(_, _) => true
    case Union(ss, order) => Whole(ss) || UnionInStep(ss, order)
    case Filtering(c, _) => Kept(c)
    case Projection(c, _) => Kept(c)
    case Sorting(c, _) => Kept(c)
    case Grouping(c, _, _) => Kept(c)
  }

  /** An open request does no harm to the union that it reaches. */
  ghost predicate Turnable(p: Plan) {
    match p
    case Table(_) | File(_, _) | Sorting(_, _) => true
    case Union(ss, order) => Whole(ss) || order != Descend
    case Filtering(c, _) => Turnable(c)
    case Projection(c, _) => Turnable(c)
    case Grouping(c, _, _) => Turnable(c)
  }

  function Mapped(columns: seq<nat>, specs: seq<SortSpec>): seq<SortSpec> {
    seq(|specs|, j requires 0 <= j < |specs| =>
      SortSpec(if specs[j].index < |columns| then columns[specs[j].index] else 0, specs[j].order))
  }

  function Sources(aggrs: seq<AggrFunc>): seq<nat> {
    seq(|aggrs|, i requires 0 <= i < |aggrs| => aggrs[i].index)
  }

  /** The items that the plan has granted so far. */
  ghost predicate Promised(p: Plan, specs: seq<SortSpec>) {
    match p
    case Table(s) => PromisedByScan(s, specs)
    case Union(ss, _) => forall i :: 0 <= i < |ss| ==> PromisedByScan(ss[i], specs)
    case File(_, _) => specs == []
    case Filtering(c, _) => Promised(c, specs)
    case Projection(c, columns) =>
      (forall j :: 0 <= j < |specs| ==> specs[j].index < |columns|) && Promised(c, Mapped(columns, specs))
    case Sorting(_, own) =>
      && |specs| <= |own|
      && forall j :: 0 <= j < |specs| ==>
           specs[j].index == own[j].index && (specs[j].order == Any || specs[j].order == own[j].order)
    case Grouping(c, _, aggrs) =>
      && (forall j :: 0 <= j < |specs| ==> specs[j].index < |aggrs| && aggrs[specs[j].index].func == FIRST)
      && Promised(c, Mapped(Sources(aggrs), specs))
  }

  ghost predicate PromisedByScan(s: TableScan, specs: seq<SortSpec>) {
    && |specs| <= s.keys
    && forall j :: 0 <= j < |specs| ==> specs[j].index == j && (specs[j].order == Any || specs[j].order == s.order)
  }

  lemma MappedAppend(columns: seq<nat>, specs: seq<SortSpec>, spec: SortSpec)
    requires spec.index < |columns|
    ensures Mapped(columns, specs + [spec]) == Mapped(columns, specs) + [SortSpec(columns[spec.index], spec.order)]
  {
  }

  lemma {:induction false} EnsureScansAll(scans: seq<TableScan>, index: nat, column: nat, requested: SortOrder)
    ensures var (ok, now) := EnsureScans(scans, index, column, requested);
            && (forall i :: 0 <= i < |scans| ==> now[i] in {scans[i], EnsureScan(scans[i], index, column, requested).1})
            && (ok ==> forall i :: 0 <= i < |scans| ==>
                  EnsureScan(scans[i], index, column, requested) == (true, now[i]))
            && (!ok ==> exists i :: 0 <= i < |scans| && !EnsureScan(scans[i], index, column, requested).0)
  {
    if scans != [] {
      var (ok, s) := EnsureScan(scans[0], index, column, requested);
      if ok {
        EnsureScansAll(scans[1..], index, column, requested);
        var (all, rest) := EnsureScans(scans[1..], index, column, requested);
        if !all {
          var k :| 0 <= k < |scans[1..]| && !EnsureScan(scans[1..][k], index, column, requested).0;
          assert scans[1..][k] == scans[k + 1];
        }
      }
    }
  }

  /** No request takes a promise back. */
  lemma {:induction false} EnsureKeeps(p: Plan, index: nat, column: nat, requested: SortOrder, specs: seq<SortSpec>)
    requires Promised(p, specs)
    ensures Promised(Ensure(p, index, column, requested).1, specs)
    decreases p
  {
    match p
    case Table(_) =>
    case Union(ss, _) => EnsureScansAll(ss, index, column, requested);
    case File(_, _) =>
    case Filtering(c, _) => EnsureKeeps(c, index, column, requested, specs);
    case Projection(c, columns) =>
      if column < |columns| {
        EnsureKeeps(c, index, columns[column], requested, Mapped(columns, specs));
      }
    case Sorting(_, _) =>
    case Grouping(c, _, aggrs) =>
      if column < |aggrs| {
        EnsureKeeps(c, index, aggrs[column].index, requested, Mapped(Sources(aggrs), specs));
      }
  }

  /** A granted request is one more promise. */
  lemma {:induction false} EnsureAdds(p: Plan, column: nat, requested: SortOrder, specs: seq<SortSpec>)
    requires Promised(p, specs) && Ensure(p, |specs|, column, requested).0
    ensures Promised(Ensure(p, |specs|, column, requested).1, specs + [SortSpec(column, requested)])
    decreases p
  {
    match p
    case Table(_) =>
    case Union(ss, _) => EnsureScansAll(ss, |specs|, column, requested);
    case File(_, _) =>
    case Filtering(c, _) => EnsureAdds(c, column, requested, specs);
    case Projection(c, columns) =>
      MappedAppend(columns, specs, SortSpec(column, requested));
      EnsureAdds(c, columns[column], requested, Mapped(columns, specs));
    case Sorting(_, _) =>
    case Grouping(c, _, aggrs) =>
      MappedAppend(Sources(aggrs), specs, SortSpec(column, requested));
      EnsureAdds(c, aggrs[column].index, requested, Mapped(Sources(aggrs), specs));
  }

  /** When all the requests are granted the plan has promised the whole list. */
  lemma {:induction false} RequestsPromise(p: Plan, items: seq<SortSpec>, i: nat, kept: seq<SortSpec>)
    requires i <= |items| && Promised(p, items[..i]) && Promised(p, kept)
    ensures Promised(Requests(p, items, i).1, kept)
    ensures Requests(p, items, i).0 ==> Promised(Requests(p, items, i).1, items)
    decreases |items| - i
  {
    if i == |items| {
      assert items[..i] == items;
    } else {
      var (ok, q) := Ensure(p, i, items[i].index, items[i].order);
      EnsureKeeps(p, i, items[i].index, items[i].order, kept);
      if ok {
        assert items[..i + 1] == items[..i] + [SortSpec(items[i].index, items[i].order)];
        EnsureAdds(p, items[i].index, items[i].order, items[..i]);
        RequestsPromise(q, items, i + 1, kept);
      }
    }
  }

  // ---------- what the promises mean for the rows ----------

  /** Two lists that sort alike: the same columns, descending at the same places. */
  predicate Alike(a: seq<SortSpec>, b: seq<SortSpec>) {
    && |a| == |b|
    && forall j :: 0 <= j < |a| ==>
         a[j].index == b[j].index && (a[j].order == Descend <==> b[j].order == Descend)
  }

  lemma {:induction false} AlikePrecedes(a: seq<SortSpec>, b: seq<SortSpec>, x: Row, y: Row)
    requires Alike(a, b)
    ensures Precedes(a, x, y) == Precedes(b, x, y)
  {
    if a != [] {
      AlikePrecedes(a[1..], b[1..], x, y);
    }
  }

  lemma {:induction false} PrefixPrecedes(specs: seq<SortSpec>, n: nat, x: Row, y: Row)
    requires n <= |specs| && Precedes(specs[..n], x, y)
    ensures Precedes(specs, x, y)
  {
    assert specs[..n][1..] == specs[1..][..n - 1];
    if Compare(At(x, specs[0].index), At(y, specs[0].index)) == 0 {
      PrefixPrecedes(specs[1..], n - 1, x, y);
    }
  }

  /** Rows sorted by a list are sorted by every list like a prefix of it. */
  lemma SortedByPrefix(specs: seq<SortSpec>, prefix: seq<SortSpec>, rows: seq<Row>)
    requires |prefix| <= |specs| && Alike(specs[..|prefix|], prefix) && SortedRows(specs, rows)
    ensures SortedRows(prefix, rows)
  {
    forall i, j | 0 <= i < j < |rows| ensures !Precedes(prefix, rows[j], rows[i]) {
      AlikePrecedes(specs[..|prefix|], prefix, rows[j], rows[i]);
      if Precedes(specs[..|prefix|], rows[j], rows[i]) {
        PrefixPrecedes(specs, |prefix|, rows[j], rows[i]);
      }
    }
  }

  lemma {:induction false} OppositePrecedes(a: seq<SortSpec>, b: seq<SortSpec>, x: Row, y: Row)
    requires |a| == |b|
    requires forall j :: 0 <= j < |a| ==> a[j].index == b[j].index && (a[j].order == Descend <==> b[j].order != Descend)
    ensures Precedes(a, x, y) == Precedes(b, y, x)
  {
    if a != [] {
      CompareOrder(At(x, a[0].index), At(y, a[0].index));
      OppositePrecedes(a[1..], b[1..], x, y);
    }
  }

  /** Rows sorted by the key, turned when they are wanted descending, are sorted in that direction. */
  lemma SortedInDirection(keys: nat, rows: seq<Row>, order: SortOrder)
    requires SortedRows(KeySpecs(keys, Ascend), rows)
    ensures SortedRows(KeySpecs(keys, order), if order == Descend then Reverse(rows) else rows)
  {
    var out := if order == Descend then Reverse(rows) else rows;
    forall i, j | 0 <= i < j < |out| ensures !Precedes(KeySpecs(keys, order), out[j], out[i]) {
      if order == Descend {
        OppositePrecedes(KeySpecs(keys, order), KeySpecs(keys, Ascend), out[j], out[i]);
      } else {
        AlikePrecedes(KeySpecs(keys, order), KeySpecs(keys, Ascend), out[j], out[i]);
      }
    }
  }

  lemma {:induction false} FilterSorted(specs: seq<SortSpec>, rows: seq<Row>, f: Row -> bool)
    requires SortedRows(specs, rows)
    ensures SortedRows(specs, Filter(rows, f))
  {
    if rows != [] {
      var (rest, out) := (Filter(rows[1..], f), Filter(rows, f));
      FilterSorted(specs, rows[1..], f);
      forall i, j | 0 <= i < j < |out| ensures !Precedes(specs, out[j], out[i]) {
        if f(rows[0]) && i == 0 {
          assert out[j] == rest[j - 1] && rest[j - 1] in rows[1..];
          var k :| 0 <= k < |rows[1..]| && rows[1..][k] == out[j];
          assert rows[k + 1] == out[j];
        } else if f(rows[0]) {
          assert out[i] == rest[i - 1] && out[j] == rest[j - 1];
        }
      }
    }
  }

  lemma {:induction false} ProjectedPrecedes(columns: seq<nat>, specs: seq<SortSpec>, x: Row, y: Row)
    requires forall j :: 0 <= j < |specs| ==> specs[j].index < |columns|
    ensures Precedes(specs, Project(x, columns), Project(y, columns)) == Precedes(Mapped(columns, specs), x, y)
  {
    if specs != [] {
      assert Mapped(columns, specs)[1..] == Mapped(columns, specs[1..]);
      ProjectedPrecedes(columns, specs[1..], x, y);
    }
  }

  /** Where a column of the group rows comes from: the first row of the run. */
  lemma GroupColumn(rows: seq<Row>, groupby: seq<nat>, aggrs: seq<AggrFunc>, i: nat, c: nat)
    requires i < |GroupRows(rows, groupby, aggrs)| && c < |aggrs| && aggrs[c].func == FIRST
    ensures var runs := Runs(KeysOf(rows, groupby), 0);
            && |runs| == |GroupRows(rows, groupby, aggrs)| && runs[i].start < |rows|
            && At(GroupRows(rows, groupby, aggrs)[i], c) == At(rows[runs[i].start], aggrs[c].index)
  {
    OutputPerRun(rows, groupby, aggrs, 0);
    var run := Runs(KeysOf(rows, groupby), 0)[i];
    assert GroupBy.Column(rows[run.start..run.end], aggrs[c].index)[0] == At(rows[run.start], aggrs[c].index);
  }

  lemma RunsAscend(keys: seq<Row>, i: nat, j: nat)
    requires i < j < |Runs(keys, 0)|
    ensures Runs(keys, 0)[i].start < Runs(keys, 0)[j].start
  {
    RunsPartition(keys, 0);
    var runs := Runs(keys, 0);
    var k := i + 1;
    while k < j
      invariant i < k <= j && runs[i].start < runs[k].start
    {
      assert OneKey(keys, runs[k]);
      k := k + 1;
    }
    assert OneKey(keys, runs[i]);
  }

  lemma {:induction false} GroupPrecedes(rows: seq<Row>, groupby: seq<nat>, aggrs: seq<AggrFunc>,
                                         specs: seq<SortSpec>, i: nat, j: nat)
    requires i < |GroupRows(rows, groupby, aggrs)| && j < |GroupRows(rows, groupby, aggrs)|
    requires forall k :: 0 <= k < |specs| ==> specs[k].index < |aggrs| && aggrs[specs[k].index].func == FIRST
    ensures var (runs, out) := (Runs(KeysOf(rows, groupby), 0), GroupRows(rows, groupby, aggrs));
            && |runs| == |out| && runs[i].start < |rows| && runs[j].start < |rows|
            && Precedes(specs, out[i], out[j]) ==
               Precedes(Mapped(Sources(aggrs), specs), rows[runs[i].start], rows[runs[j].start])
  {
    OutputPerRun(rows, groupby, aggrs, 0);
    if specs != [] {
      GroupColumn(rows, groupby, aggrs, i, specs[0].index);
      GroupColumn(rows, groupby, aggrs, j, specs[0].index);
      assert Mapped(Sources(aggrs), specs)[1..] == Mapped(Sources(aggrs), specs[1..]);
      GroupPrecedes(rows, groupby, aggrs, specs[1..], i, j);
    }
  }

  lemma GroupSorted(rows: seq<Row>, groupby: seq<nat>, aggrs: seq<AggrFunc>, specs: seq<SortSpec>)
    requires forall k :: 0 <= k < |specs| ==> specs[k].index < |aggrs| && aggrs[specs[k].index].func == FIRST
    requires SortedRows(Mapped(Sources(aggrs), specs), rows)
    ensures SortedRows(specs, GroupRows(rows, groupby, aggrs))
  {
    var out := GroupRows(rows, groupby, aggrs);
    forall i, j | 0 <= i < j < |out| ensures !Precedes(specs, out[j], out[i]) {
      GroupPrecedes(rows, groupby, aggrs, specs, j, i);
      RunsAscend(KeysOf(rows, groupby), i, j);
    }
  }

  lemma OutputsInDirection(scans: seq<TableScan>)
    requires scans != [] && forall i :: 0 <= i < |scans| ==> scans[i].order == scans[0].order
    ensures scans[0].order == Descend ==> Reverse(Outputs(scans)) == ReverseParts(ForwardRows(scans))
    ensures scans[0].order != Descend ==> Outputs(scans) == ForwardRows(scans)
  {
  }

  /** A union in step runs all its rows in the direction of its children. */
  lemma UnionOutput(scans: seq<TableScan>, order: SortOrder)
    requires CoherentUnion(scans) && UnionInStep(scans, order)
    ensures Concat(if order == Descend then Reverse(Outputs(scans)) else Outputs(scans)) ==
              if scans[0].order == Descend then Reverse(Concat(ForwardRows(scans))) else Concat(ForwardRows(scans))
  {
    hide SortedRows, Concat, Outputs, ForwardRows, Reverse, ReverseParts;
    OutputsInDirection(scans);
    ReverseConcat(ForwardRows(scans));
  }

  /** The promised list with the directions that the plan gives to its open items. */
  function Resolve(p: Plan, specs: seq<SortSpec>): (r: seq<SortSpec>)
    ensures |r| == |specs| && forall j :: 0 <= j < |specs| ==> r[j].index == specs[j].index
    decreases p
  {
    match p
    case Table(s) => seq(|specs|, j requires 0 <= j < |specs| => SortSpec(specs[j].index, s.order))
    case Union(ss, _) =>
      seq(|specs|, j requires 0 <= j < |specs| => SortSpec(specs[j].index, if ss == [] then Any else ss[0].order))
    case File(_, _) => specs
    case Filtering(c, _) => Resolve(c, specs)
    case Projection(c, columns) =>
      var r := Resolve(c, Mapped(columns, specs));
      seq(|specs|, j requires 0 <= j < |specs| => SortSpec(specs[j].index, r[j].order))
    case Sorting(_, own) =>
      seq(|specs|, j requires 0 <= j < |specs| => SortSpec(specs[j].index, if j < |own| then own[j].order else Any))
    case Grouping(c, _, aggrs) =>
      var r := Resolve(c, Mapped(Sources(aggrs), specs));
      seq(|specs|, j requires 0 <= j < |specs| => SortSpec(specs[j].index, r[j].order))
  }

  /** Items with a direction keep it; only open items get theirs from the plan. */
  lemma {:induction false} ResolveKeepsDirections(p: Plan, specs: seq<SortSpec>)
    requires Coherent(p) && Promised(p, specs)
    ensures forall j :: 0 <= j < |specs| && specs[j].order != Any ==> Resolve(p, specs)[j] == specs[j]
    decreases p
  {
    match p
    case Filtering(c, _) => ResolveKeepsDirections(c, specs);
    case Projection(c, columns) => ResolveKeepsDirections(c, Mapped(columns, specs));
    case Grouping(c, _, aggrs) => ResolveKeepsDirections(c, Mapped(Sources(aggrs), specs));
    case _ =>
  }

  lemma ScansSorted(keys: nat, rows: seq<Row>, order: SortOrder, specs: seq<SortSpec>)
    requires SortedRows(KeySpecs(keys, Ascend), rows)
    requires |specs| <= keys && forall j :: 0 <= j < |specs| ==> specs[j] == SortSpec(j, order)
    ensures SortedRows(specs, if order == Descend then Reverse(rows) else rows)
  {
    SortedInDirection(keys, rows, order);
    SortedByPrefix(KeySpecs(keys, order), specs, if order == Descend then Reverse(rows) else rows);
  }

  lemma ProjectionSorted(columns: seq<nat>, specs: seq<SortSpec>, rows: seq<Row>)
    requires forall j :: 0 <= j < |specs| ==> specs[j].index < |columns|
    requires SortedRows(Mapped(columns, specs), rows)
    ensures SortedRows(specs, Projected(rows, columns))
  {
    forall i, j | 0 <= i < j < |rows| ensures !Precedes(specs, Project(rows[j], columns), Project(rows[i], columns)) {
      ProjectedPrecedes(columns, specs, rows[j], rows[i]);
    }
  }

  /** Whatever a coherent plan delivers in step is sorted by what it has promised. */
  lemma {:induction false} PromisesAreKept(p: Plan, specs: seq<SortSpec>, out: seq<Row>)
    requires Coherent(p) && InStep(p) && Promised(p, specs) && Delivers(p, out)
    ensures SortedRows(Resolve(p, specs), out)
    decreases p
  {
    hide SortedRows, Precedes, GroupRows, Blocks;
    match p
    case Table(s) =>
      ScansSorted(s.keys, s.rows, s.order, Resolve(p, specs));
    case Union(ss, order) =>
      UnionOutput(ss, order);
      ScansSorted(ss[0].keys, Concat(ForwardRows(ss)), ss[0].order, Resolve(p, specs));
    case File(_, _) =>
      NothingToSortBy(out);
    case Filtering(c, ors) =>
      var input :| Delivers(c, input) && out == Filter(input, Keeps(ors));
      PromisesAreKept(c, specs, input);
      FilterSorted(Resolve(c, specs), input, Keeps(ors));
    case Projection(c, columns) =>
      var input :| Delivers(c, input) && out == Projected(input, columns);
      PromisesAreKept(c, Mapped(columns, specs), input);
      assert Mapped(columns, Resolve(p, specs)) == Resolve(c, Mapped(columns, specs));
      ProjectionSorted(columns, Resolve(p, specs), input);
    case Sorting(c, own) =>
      SortedByPrefix(own, Resolve(p, specs), out);
    case Grouping(c, g, aggrs) =>
      var input :| Delivers(c, input) && GroupedTo(TypesOf(c), input, g, aggrs, out);
      PromisesAreKept(c, Mapped(Sources(aggrs), specs), input);
      assert Mapped(Sources(aggrs), Resolve(p, specs)) == Resolve(c, Mapped(Sources(aggrs), specs));
      GroupSorted(input, g, aggrs, Resolve(p, specs));
  }

  lemma NothingToSortBy(rows: seq<Row>)
    ensures SortedRows([], rows)
  {
  }

  // ---------- equal group keys stand together ----------

  lemma {:induction false} NeitherPrecedes(specs: seq<SortSpec>, x: Row, y: Row)
    ensures !Precedes(specs, x, y) && !Precedes(specs, y, x) <==>
            forall k :: 0 <= k < |specs| ==> At(x, specs[k].index) == At(y, specs[k].index)
  {
    if specs != [] {
      CompareOrder(At(x, specs[0].index), At(y, specs[0].index));
      NeitherPrecedes(specs[1..], x, y);
      assert forall k :: 1 <= k < |specs| ==> specs[k] == specs[1..][k - 1];
      assert forall k :: 0 <= k < |specs[1..]| ==> specs[1..][k] == specs[k + 1];
    }
  }

  function OpenSpecs(groupby: seq<nat>): seq<SortSpec> {
    seq(|groupby|, i requires 0 <= i < |groupby| => SortSpec(groupby[i], Any))
  }

  /** Rows sorted by the group columns, in whatever directions, have equal group keys side by side. */
  lemma SortedMeansGrouped(specs: seq<SortSpec>, groupby: seq<nat>, rows: seq<Row>)
    requires |specs| == |groupby| && forall k :: 0 <= k < |specs| ==> specs[k].index == groupby[k]
    requires SortedRows(specs, rows)
    ensures Grouped(KeysOf(rows, groupby), 0)
  {
    var keys := KeysOf(rows, groupby);
    forall i, j, k | 0 <= i < j < k < |keys| && keys[i] == keys[k] ensures keys[j] == keys[i] {
      forall a, b | 0 <= a < |rows| && 0 <= b < |rows|
        ensures keys[a] == keys[b] <==> !Precedes(specs, rows[a], rows[b]) && !Precedes(specs, rows[b], rows[a])
      {
        NeitherPrecedes(specs, rows[a], rows[b]);
        if forall c :: 0 <= c < |specs| ==> At(rows[a], specs[c].index) == At(rows[b], specs[c].index) {
          assert keys[a] == keys[b];
        } else {
          var c :| 0 <= c < |specs| && At(rows[a], specs[c].index) != At(rows[b], specs[c].index);
          assert keys[a][c] != keys[b][c];
        }
      }
      PrecedesIsWeakOrder(specs, rows[i], rows[k], rows[j]);
    }
  }

  /** Part of the keys, in their order. */
  lemma GroupedPart(keys: seq<Row>, part: seq<Row>, places: seq<nat>)
    requires Grouped(keys, 0) && |places| == |part|
    requires forall i :: 0 <= i < |part| ==> places[i] < |keys| && part[i] == keys[places[i]]
    requires forall i, j :: 0 <= i < j < |part| ==> places[i] < places[j]
    ensures Grouped(part, 0)
  {
  }

  lemma FilterGrouped(rows: seq<Row>, groupby: seq<nat>, f: Row -> bool)
    requires Grouped(KeysOf(rows, groupby), 0)
    ensures Grouped(KeysOf(Filter(rows, f), groupby), 0)
  {
    var places := FilterPlaces(rows, f);
    GroupedPart(KeysOf(rows, groupby), KeysOf(Filter(rows, f), groupby), places);
  }

  function Picked(columns: seq<nat>, groupby: seq<nat>): seq<nat> {
    seq(|groupby|, i requires 0 <= i < |groupby| => if groupby[i] < |columns| then columns[groupby[i]] else 0)
  }

  lemma OpenMapped(columns: seq<nat>, groupby: seq<nat>)
    ensures Mapped(columns, OpenSpecs(groupby)) == OpenSpecs(Picked(columns, groupby))
  {
  }

  lemma ProjectedKeys(rows: seq<Row>, columns: seq<nat>, groupby: seq<nat>)
    requires forall i :: 0 <= i < |groupby| ==> groupby[i] < |columns|
    ensures KeysOf(Projected(rows, columns), groupby) == KeysOf(rows, Picked(columns, groupby))
  {
    var (a, b) := (KeysOf(Projected(rows, columns), groupby), KeysOf(rows, Picked(columns, groupby)));
    forall i | 0 <= i < |rows| ensures a[i] == b[i] {
      assert forall k :: 0 <= k < |groupby| ==> a[i][k] == b[i][k];
    }
  }

  /** Group rows keep the order of the rows they start with. */
  lemma GroupRowsGrouped(rows: seq<Row>, g: seq<nat>, aggrs: seq<AggrFunc>, groupby: seq<nat>)
    requires forall i :: 0 <= i < |groupby| ==> groupby[i] < |aggrs| && aggrs[groupby[i]].func == FIRST
    requires Grouped(KeysOf(rows, Picked(Sources(aggrs), groupby)), 0)
    ensures Grouped(KeysOf(GroupRows(rows, g, aggrs), groupby), 0)
  {
    hide GroupRows, Runs;
    var (out, runs) := (GroupRows(rows, g, aggrs), Runs(KeysOf(rows, g), 0));
    var (keys, part) := (KeysOf(rows, Picked(Sources(aggrs), groupby)), KeysOf(out, groupby));
    GroupRowsAndRuns(rows, g, aggrs);
    var places := seq(|out|, i requires 0 <= i < |out| => runs[i].start);
    forall i | 0 <= i < |out| ensures places[i] < |rows| && part[i] == keys[places[i]] {
      forall k | 0 <= k < |groupby| ensures places[i] < |rows| && part[i][k] == keys[places[i]][k] {
        GroupColumn(rows, g, aggrs, i, groupby[k]);
      }
    }
    forall i, j | 0 <= i < j < |out| ensures places[i] < places[j] {
      RunsAscend(KeysOf(rows, g), i, j);
    }
    GroupedPart(keys, part, places);
  }

  lemma GroupRowsAndRuns(rows: seq<Row>, g: seq<nat>, aggrs: seq<AggrFunc>)
    ensures |GroupRows(rows, g, aggrs)| == |Runs(KeysOf(rows, g), 0)|
    ensures forall i :: 0 <= i < |Runs(KeysOf(rows, g), 0)| ==> Runs(KeysOf(rows, g), 0)[i].start < |rows|
  {
    OutputPerRun(rows, g, aggrs, 0);
  }

  // Parts one after the other.

  lemma InSomePart(parts: seq<seq<Row>>, k: Row) returns (j: nat)
    requires k in Concat(parts)
    ensures j < |parts| && k in parts[j]
  {
    if k in parts[0] {
      j := 0;
    } else {
      assert k in Concat(parts[1..]);
      j := InSomePart(parts[1..], k);
      j := j + 1;
    }
  }

  /** When a key fills every part up to the last one that has it, it stands at the front. */
  lemma {:induction false} FrontOfConcat(parts: seq<seq<Row>>, k: Row)
    requires forall r, j, w :: 0 <= r <= j < |parts| && k in parts[j] && w in parts[r] ==> w == k
    ensures forall b, c :: 0 <= b <= c < |Concat(parts)| && Concat(parts)[c] == k ==> Concat(parts)[b] == k
  {
    if parts != [] {
      var (head, rest) := (parts[0], Concat(parts[1..]));
      FrontOfConcat(parts[1..], k);
      if k in rest {
        var j := InSomePart(parts[1..], k);
        assert k in parts[j + 1] && forall w :: w in head ==> w == k;
      }
      assert Concat(parts) == head + rest;
      assert forall b :: 0 <= b < |head| ==> head[b] in parts[0];
    }
  }

  lemma GroupedAppend(a: seq<Row>, b: seq<Row>)
    requires Grouped(a, 0) && Grouped(b, 0)
    requires forall k, w :: k in a && k in b && w in a ==> w == k
    requires forall k, i, j :: k in a && 0 <= i <= j < |b| && b[j] == k ==> b[i] == k
    ensures Grouped(a + b, 0)
  {
    var keys := a + b;
    forall i, j, k | 0 <= i < j < k < |keys| && keys[i] == keys[k] ensures keys[j] == keys[i] {
      if k >= |a| {
        assert keys[k] == b[k - |a|];
        if i < |a| {
          assert keys[i] == a[i] && a[i] in a && a[i] in b;
          if j < |a| {
            assert keys[j] in a;
          } else {
            assert keys[j] == b[j - |a|];
          }
        } else {
          assert keys[i] == b[i - |a|] && keys[j] == b[j - |a|];
        }
      }
    }
  }

  /** Parts that share keys as blocks do: equal keys stand together over all of them. */
  lemma {:induction false} BlocksGrouped(parts: seq<seq<Row>>)
    requires Blocks(parts) && forall i :: 0 <= i < |parts| ==> Grouped(parts[i], 0)
    ensures Grouped(Concat(parts), 0)
  {
    hide Grouped;
    if parts == [] {
      NothingGrouped();
    } else {
      var (head, later) := (parts[0], parts[1..]);
      LaterBlocks(parts);
      BlocksGrouped(later);
      forall k, w | k in head && k in Concat(later) && w in head ensures w == k {
        var j := InSomePart(later, k);
        assert k in parts[j + 1];
      }
      forall k, i, j | k in head && 0 <= i <= j < |Concat(later)| && Concat(later)[j] == k
        ensures Concat(later)[i] == k
      {
        assert forall r, j, w :: 0 <= r <= j < |later| && k in later[j] && w in later[r] ==> w == k by {
          forall r, j, w | 0 <= r <= j < |later| && k in later[j] && w in later[r] ensures w == k {
            assert k in parts[j + 1] && w in parts[r + 1];
          }
        }
        FrontOfConcat(later, k);
      }
      GroupedAppend(head, Concat(later));
    }
  }

  lemma NothingGrouped()
    ensures Grouped(Concat([]), 0)
  {
  }

  lemma LaterBlocks(parts: seq<seq<Row>>)
    requires parts != [] && Blocks(parts)
    ensures Blocks(parts[1..])
  {
    var later := parts[1..];
    forall i, r, j, k, w |
      0 <= i <= r <= j < |later| && i < j && k in later[i] && k in later[j] && w in later[r]
      ensures w == k
    {
      assert k in parts[i + 1] && k in parts[j + 1] && w in parts[r + 1];
    }
  }

  lemma OneKeyOfBlocks(parts: seq<seq<Row>>, i: nat, r: nat, j: nat, k: Row, w: Row)
    requires Blocks(parts) && i <= r <= j < |parts| && i < j && k in parts[i] && k in parts[j] && w in parts[r]
    ensures w == k
  {
  }

  lemma BlocksOf(parts: seq<seq<Row>>)
    requires forall i, r, j, k, w ::
      0 <= i <= r <= j < |parts| && i < j && k in parts[i] && k in parts[j] && w in parts[r] ==> w == k
    ensures Blocks(parts)
  {
  }

  lemma ReversedBlocks(parts: seq<seq<Row>>)
    requires Blocks(parts)
    ensures Blocks(Reverse(parts))
  {
    hide Blocks;
    var (n, back) := (|parts| - 1, Reverse(parts));
    forall i, r, j, k, w | 0 <= i <= r <= j < |back| && i < j && k in back[i] && k in back[j] && w in back[r]
      ensures w == k
    {
      OneKeyOfBlocks(parts, n - j, n - r, n - i, k, w);
    }
    BlocksOf(back);
  }

  /** Blocks are about the keys in the parts, not about their order there. */
  lemma SameBlocks(parts: seq<seq<Row>>, others: seq<seq<Row>>)
    requires Blocks(parts) && |others| == |parts|
    requires forall i, k :: 0 <= i < |parts| && k in others[i] ==> k in parts[i]
    ensures Blocks(others)
  {
    forall i, r, j, k, w | 0 <= i <= r <= j < |others| && i < j && k in others[i] && k in others[j] && w in others[r]
      ensures w == k
    {
      assert k in parts[i] && k in parts[j] && w in parts[r];
    }
  }

  lemma {:induction false} KeysOfConcat(parts: seq<seq<Row>>, groupby: seq<nat>)
    ensures KeysOf(Concat(parts), groupby) == Concat(KeyParts(parts, groupby))
  {
    if parts != [] {
      KeysOfConcat(parts[1..], groupby);
      assert KeyParts(parts, groupby)[1..] == KeyParts(parts[1..], groupby);
      assert KeysOf(parts[0] + Concat(parts[1..]), groupby) ==
             KeysOf(parts[0], groupby) + KeysOf(Concat(parts[1..]), groupby);
    }
  }

  /** Each part of sorted rows is sorted. */
  lemma {:induction false} PartSorted(specs: seq<SortSpec>, parts: seq<seq<Row>>, i: nat)
    requires SortedRows(specs, Concat(parts)) && i < |parts|
    ensures SortedRows(specs, parts[i])
  {
    var (head, rest) := (parts[0], Concat(parts[1..]));
    assert Concat(parts) == head + rest;
    if i == 0 {
      assert forall k :: 0 <= k < |head| ==> head[k] == Concat(parts)[k];
    } else {
      assert forall k :: 0 <= k < |rest| ==> rest[k] == Concat(parts)[|head| + k];
      PartSorted(specs, parts[1..], i - 1);
    }
  }

  /** The rows of one child: equal key prefixes stand together, whatever its direction. */
  lemma ChildGrouped(scans: seq<TableScan>, groupby: seq<nat>, i: nat)
    requires CoherentUnion(scans) && i < |scans| && PromisedByScan(scans[i], OpenSpecs(groupby))
    ensures Grouped(KeysOf(scans[i].Output(), groupby), 0)
  {
    hide SortedRows, Blocks, Grouped;
    var s := scans[i];
    PartSorted(KeySpecs(s.keys, Ascend), ForwardRows(scans), i);
    PromisesAreKept(Table(s), OpenSpecs(groupby), s.Output());
    SortedMeansGrouped(Resolve(Table(s), OpenSpecs(groupby)), groupby, s.Output());
  }

  lemma PromisedIsPrefix(s: TableScan, groupby: seq<nat>)
    requires PromisedByScan(s, OpenSpecs(groupby))
    ensures groupby == FirstIndices(|groupby|) && |groupby| <= s.keys
  {
    assert forall j :: 0 <= j < |groupby| ==> OpenSpecs(groupby)[j].index == groupby[j];
  }

  /** The keys of the children's outputs are blocks, in step or not. */
  lemma OutputBlocks(scans: seq<TableScan>, groupby: seq<nat>)
    requires Blocks(KeyParts(ForwardRows(scans), groupby))
    ensures Blocks(KeyParts(Outputs(scans), groupby))
  {
    hide SortedRows, Blocks;
    var (parts, others) := (KeyParts(ForwardRows(scans), groupby), KeyParts(Outputs(scans), groupby));
    forall i, k | 0 <= i < |parts| && k in others[i] ensures k in parts[i] {
      KeyOfOutput(scans[i], groupby, k);
    }
    SameBlocks(parts, others);
  }

  lemma KeyOfOutput(s: TableScan, groupby: seq<nat>, k: Row)
    requires k in KeysOf(s.Output(), groupby)
    ensures k in KeysOf(s.rows, groupby)
  {
    var (keys, outs) := (KeysOf(s.rows, groupby), KeysOf(s.Output(), groupby));
    var a :| 0 <= a < |outs| && outs[a] == k;
    assert k == if s.order == Descend then keys[|keys| - 1 - a] else keys[a];
  }

  /** A union of blocks keeps rows that agree on promised columns together, in step or not. */
  lemma UnionGrouped(scans: seq<TableScan>, order: SortOrder, groupby: seq<nat>)
    requires CoherentUnion(scans) && forall i :: 0 <= i < |scans| ==> PromisedByScan(scans[i], OpenSpecs(groupby))
    requires Blocks(KeyParts(ForwardRows(scans), groupby))
    ensures Grouped(KeysOf(Concat(if order == Descend then Reverse(Outputs(scans)) else Outputs(scans)), groupby), 0)
  {
    hide CoherentUnion, Blocks, Grouped, PromisedByScan;
    var outs := if order == Descend then Reverse(Outputs(scans)) else Outputs(scans);
    var parts := KeyParts(outs, groupby);
    forall i | 0 <= i < |scans| ensures Grouped(KeysOf(scans[i].Output(), groupby), 0) {
      ChildGrouped(scans, groupby, i);
    }
    OutputBlocks(scans, groupby);
    if order == Descend {
      assert parts == Reverse(KeyParts(Outputs(scans), groupby));
      ReversedBlocks(KeyParts(Outputs(scans), groupby));
    }
    assert forall i :: 0 <= i < |parts| ==> Grouped(parts[i], 0);
    BlocksGrouped(parts);
    KeysOfConcat(outs, groupby);
  }

  // Where an element of a part stands in the whole.

  function Place(parts: seq<seq<Row>>, i: nat, a: nat): nat
    requires i < |parts|
  {
    if i == 0 then a else |parts[0]| + Place(parts[1..], i - 1, a)
  }

  lemma {:induction false} AtPlace(parts: seq<seq<Row>>, i: nat, a: nat)
    requires i < |parts| && a < |parts[i]|
    ensures Place(parts, i, a) < |Concat(parts)| && Concat(parts)[Place(parts, i, a)] == parts[i][a]
  {
    if i > 0 {
      AtPlace(parts[1..], i - 1, a);
    }
  }

  predicate Before(i: nat, a: nat, j: nat, b: nat) {
    i < j || (i == j && a < b)
  }

  lemma {:induction false} PlacesAscend(parts: seq<seq<Row>>, i: nat, a: nat, j: nat, b: nat)
    requires i < |parts| && a < |parts[i]| && j < |parts| && Before(i, a, j, b)
    ensures Place(parts, i, a) < Place(parts, j, b)
  {
    if i > 0 {
      PlacesAscend(parts[1..], i - 1, a, j - 1, b);
    }
  }

  /** Between two equal keys of grouped parts there is no other key. */
  lemma NothingBetween(parts: seq<seq<Row>>, i: nat, a: nat, r: nat, c: nat, j: nat, b: nat)
    requires Grouped(Concat(parts), 0) && i < |parts| && a < |parts[i]| && r < |parts| && c < |parts[r]|
    requires j < |parts| && b < |parts[j]| && Before(i, a, r, c) && Before(r, c, j, b) && parts[i][a] == parts[j][b]
    ensures parts[r][c] == parts[i][a]
  {
    AtPlace(parts, i, a);
    AtPlace(parts, r, c);
    AtPlace(parts, j, b);
    PlacesAscend(parts, i, a, r, c);
    PlacesAscend(parts, r, c, j, b);
  }

  predicate EachReversed(parts: seq<seq<Row>>, turned: seq<seq<Row>>) {
    |turned| == |parts| && forall i :: 0 <= i < |parts| ==> turned[i] == Reverse(parts[i])
  }

  /** Parts that are grouped forward and also with each part, or all of them, turned around, are blocks. */
  lemma GroupedBothWays(parts: seq<seq<Row>>, turned: seq<seq<Row>>)
    requires Grouped(Concat(parts), 0) && Grouped(Concat(turned), 0)
    requires EachReversed(parts, turned) || turned == Reverse(parts)
    ensures Blocks(parts)
  {
    hide Grouped, Blocks, EachReversed;
    forall i, r, j, k, w | 0 <= i <= r <= j < |parts| && i < j && k in parts[i] && k in parts[j] && w in parts[r]
      ensures w == k
    {
      var a :| 0 <= a < |parts[i]| && parts[i][a] == k;
      var b :| 0 <= b < |parts[j]| && parts[j][b] == k;
      var c :| 0 <= c < |parts[r]| && parts[r][c] == w;
      if Before(i, a, r, c) && Before(r, c, j, b) {
        NothingBetween(parts, i, a, r, c, j, b);
      } else if turned == Reverse(parts) {
        NothingBehind(parts, turned, i, a, r, c, j, b);
      } else {
        NothingTurned(parts, turned, i, a, r, c, j, b);
      }
    }
    BlocksOf(parts);
  }

  lemma NothingBehind(parts: seq<seq<Row>>, turned: seq<seq<Row>>, i: nat, a: nat, r: nat, c: nat, j: nat, b: nat)
    requires Grouped(Concat(turned), 0) && turned == Reverse(parts) && i <= r <= j < |parts| && i < j
    requires a < |parts[i]| && c < |parts[r]| && b < |parts[j]| && parts[i][a] == parts[j][b]
    requires !(Before(i, a, r, c) && Before(r, c, j, b))
    ensures parts[r][c] == parts[i][a]
  {
    hide Grouped;
    var n := |parts| - 1;
    if !(r == i && c == a) && !(r == j && c == b) {
      assert turned[n - j] == parts[j] && turned[n - r] == parts[r] && turned[n - i] == parts[i];
      NothingBetween(turned, n - j, b, n - r, c, n - i, a);
    }
  }

  lemma NothingTurned(parts: seq<seq<Row>>, turned: seq<seq<Row>>, i: nat, a: nat, r: nat, c: nat, j: nat, b: nat)
    requires Grouped(Concat(turned), 0) && EachReversed(parts, turned) && i <= r <= j < |parts| && i < j
    requires a < |parts[i]| && c < |parts[r]| && b < |parts[j]| && parts[i][a] == parts[j][b]
    requires !(Before(i, a, r, c) && Before(r, c, j, b))
    ensures parts[r][c] == parts[i][a]
  {
    hide Grouped;
    if !(r == i && c == a) && !(r == j && c == b) {
      var (e, f, g) := (|parts[i]| - 1 - a, |parts[r]| - 1 - c, |parts[j]| - 1 - b);
      assert turned[i][e] == parts[i][a] && turned[r][f] == parts[r][c] && turned[j][g] == parts[j][b];
      NothingBetween(turned, i, e, r, f, j, g);
    }
  }

  /**
   * Exactly when a union out of step keeps rows that agree on promised columns together: when
   * children that share such a key have no other.
   */
  lemma UnionGroupedExactly(scans: seq<TableScan>, order: SortOrder, groupby: seq<nat>)
    requires CoherentUnion(scans) && forall i :: 0 <= i < |scans| ==> PromisedByScan(scans[i], OpenSpecs(groupby))
    requires !UnionInStep(scans, order)
    ensures Grouped(KeysOf(Concat(if order == Descend then Reverse(Outputs(scans)) else Outputs(scans)), groupby), 0)
            <==> Blocks(KeyParts(ForwardRows(scans), groupby))
  {
    hide Blocks, Grouped, SortedRows, PromisedByScan, EachReversed, KeyParts, Outputs, ForwardRows, Concat, Reverse,
      KeysOf;
    var outs := if order == Descend then Reverse(Outputs(scans)) else Outputs(scans);
    var (parts, turned) := (KeyParts(ForwardRows(scans), groupby), KeyParts(outs, groupby));
    if Blocks(parts) {
      UnionGrouped(scans, order, groupby);
    } else if Grouped(KeysOf(Concat(outs), groupby), 0) {
      ForwardGrouped(scans, groupby);
      KeysOfConcat(outs, groupby);
      KeysOfConcat(ForwardRows(scans), groupby);
      OutOfStepKeys(scans, order, groupby);
      GroupedBothWays(parts, turned);
    }
  }

  /** The keys of a union out of step: those of each child, or the children, in reverse order. */
  lemma OutOfStepKeys(scans: seq<TableScan>, order: SortOrder, groupby: seq<nat>)
    requires scans != [] && !UnionInStep(scans, order)
    requires forall i :: 0 <= i < |scans| ==> scans[i].order == scans[0].order
    ensures var parts := KeyParts(ForwardRows(scans), groupby);
            var turned := KeyParts(if order == Descend then Reverse(Outputs(scans)) else Outputs(scans), groupby);
            if order == Descend then turned == Reverse(parts) else EachReversed(parts, turned)
  {
    hide KeyOf;
    if order != Descend {
      forall i | 0 <= i < |scans|
        ensures KeysOf(Reverse(scans[i].rows), groupby) == Reverse(KeysOf(scans[i].rows, groupby))
      {
      }
    }
  }

  lemma ForwardGrouped(scans: seq<TableScan>, groupby: seq<nat>)
    requires CoherentUnion(scans) && PromisedByScan(scans[0], OpenSpecs(groupby))
    ensures Grouped(KeysOf(Concat(ForwardRows(scans)), groupby), 0)
  {
    hide SortedRows, Grouped;
    var rows := Concat(ForwardRows(scans));
    var specs := OpenSpecs(groupby);
    PromisedIsPrefix(scans[0], groupby);
    SortedByPrefix(KeySpecs(scans[0].keys, Ascend), specs, rows);
    SortedMeansGrouped(specs, groupby, rows);
  }

  /**
   * Whatever a coherent plan delivers, rows that agree on promised columns stand together, even
   * where a union of blocks has forgotten the direction of its children.
   */
  lemma {:induction false} PromisedMeansGrouped(p: Plan, groupby: seq<nat>, out: seq<Row>)
    requires Coherent(p) && Kept(p) && Promised(p, OpenSpecs(groupby)) && Delivers(p, out)
    ensures Grouped(KeysOf(out, groupby), 0)
    decreases p
  {
    hide SortedRows, Precedes, GroupRows, Grouped, Blocks, KeysOf;
    match p
    case Table(_) | Sorting(_, _) =>
      PromisesAreKept(p, OpenSpecs(groupby), out);
      SortedMeansGrouped(Resolve(p, OpenSpecs(groupby)), groupby, out);
    case Union(ss, order) =>
      if Whole(ss) {
        PromisedIsPrefix(ss[0], groupby);
        UnionGrouped(ss, order, groupby);
      } else {
        PromisesAreKept(p, OpenSpecs(groupby), out);
        SortedMeansGrouped(Resolve(p, OpenSpecs(groupby)), groupby, out);
      }
    case File(_, _) =>
      NoKeyIsGrouped(groupby, out);
    case Filtering(c, ors) =>
      var input :| Delivers(c, input) && out == Filter(input, Keeps(ors));
      PromisedMeansGrouped(c, groupby, input);
      FilterGrouped(input, groupby, Keeps(ors));
    case Projection(c, columns) =>
      var input :| Delivers(c, input) && out == Projected(input, columns);
      OpenMapped(columns, groupby);
      PromisedMeansGrouped(c, Picked(columns, groupby), input);
      assert forall i :: 0 <= i < |groupby| ==> OpenSpecs(groupby)[i].index == groupby[i];
      ProjectedKeys(input, columns, groupby);
    case Grouping(c, g, aggrs) =>
      var input :| Delivers(c, input) && GroupedTo(TypesOf(c), input, g, aggrs, out);
      OpenMapped(Sources(aggrs), groupby);
      PromisedMeansGrouped(c, Picked(Sources(aggrs), groupby), input);
      assert forall i :: 0 <= i < |groupby| ==> OpenSpecs(groupby)[i].index == groupby[i];
      GroupRowsGrouped(input, g, aggrs, groupby);
  }

  lemma NoKeyIsGrouped(groupby: seq<nat>, rows: seq<Row>)
    requires OpenSpecs(groupby) == []
    ensures Grouped(KeysOf(rows, groupby), 0)
  {
    assert |groupby| == |OpenSpecs(groupby)| == 0;
    assert forall i :: 0 <= i < |rows| ==> KeysOf(rows, groupby)[i] == [];
  }

  /** Every grouping of the plan stands on a promise of its group columns. */
  ghost predicate GroupsPromised(p: Plan) {
    match p
    case Table(_) | Union(_, _) | File(_, _) => true
    case Filtering(c, _) => GroupsPromised(c)
    case Projection(c, _) => GroupsPromised(c)
    case Sorting(c, _) => GroupsPromised(c)
    case Grouping(c, g, _) => GroupsPromised(c) && Promised(c, OpenSpecs(g))
  }

  lemma {:induction false} EnsureKeepsGroups(p: Plan, index: nat, column: nat, requested: SortOrder)
    requires GroupsPromised(p)
    ensures GroupsPromised(Ensure(p, index, column, requested).1)
    decreases p
  {
    match p
    case Filtering(c, _) => EnsureKeepsGroups(c, index, column, requested);
    case Projection(c, columns) =>
      if column < |columns| {
        EnsureKeepsGroups(c, index, columns[column], requested);
      }
    case Grouping(c, g, aggrs) =>
      if column < |aggrs| && aggrs[column].func == FIRST {
        EnsureKeepsGroups(c, index, aggrs[column].index, requested);
        EnsureKeeps(c, index, aggrs[column].index, requested, OpenSpecs(g));
      }
    case _ =>
  }

  /**
   * A grouping that stands on a promise gives one row for each distinct group key, with the
   * aggregates over all the rows that have it, whatever requests came after the promise.
   */
  lemma OneRowPerKey(c: Plan, groupby: seq<nat>, aggrs: seq<AggrFunc>, input: seq<Row>)
    requires Coherent(c) && Kept(c) && Promised(c, OpenSpecs(groupby)) && Delivers(c, input)
    ensures Grouped(KeysOf(input, groupby), 0)
    ensures multiset(GroupOutput(input, groupby, aggrs, 0)) == multiset(RowPerKey(input, groupby, aggrs))
  {
    PromisedMeansGrouped(c, groupby, input);
    OutputPerKey(input, groupby, aggrs);
  }
}
