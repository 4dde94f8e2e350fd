/**
 * What requests for a sort order leave of a plan: scans and unions before any request, and when
 * a union stays in step with its children (execution/UnionAllPlan.h, execution/LevelDBScanPlan.cpp).
 */
module PlanRequests {
  import opened Seqs
  import opened Values
  import opened Source
  import opened Scan
  import opened Sort
  import opened GroupBy
  import opened SelectPlan

  // ---------- scans and unions of a table are coherent ----------

  /** Sorting by all key columns is comparing the keys. */
  lemma {:induction false} KeyPrecedes(keys: nat, i: nat, x: Row, y: Row)
    requires i <= keys <= |x| && keys <= |y|
    ensures Precedes(KeySpecs(keys, Ascend)[i..], x, y) <==> LexCompare(x[i..keys], y[i..keys]) < 0
    decreases keys - i
  {
    if i < keys {
      assert KeySpecs(keys, Ascend)[i..][1..] == KeySpecs(keys, Ascend)[i + 1..];
      assert x[i..keys][1..] == x[i + 1..keys] && y[i..keys][1..] == y[i + 1..keys];
      KeyPrecedes(keys, i + 1, x, y);
    }
  }

  function RowsOf(es: seq<Entry>): seq<Row> {
    seq(|es|, i requires 0 <= i < |es| => es[i].Row())
  }

  /** The rows of a table, or of any selection from it, ascend by the key columns. */
  lemma TableRowsSorted(types: seq<ColType>, es: seq<Entry>)
    requires ValidTable(types, es)
    ensures SortedRows(KeySpecs(|types|, Ascend), RowsOf(es))
  {
    var specs := KeySpecs(|types|, Ascend);
    forall i, j | 0 <= i < j < |es| ensures !Precedes(specs, RowsOf(es)[j], RowsOf(es)[i]) {
      KeyPrecedes(|types|, 0, RowsOf(es)[j], RowsOf(es)[i]);
      assert specs[0..] == specs;
      assert RowsOf(es)[i][0..|types|] == es[i].key && RowsOf(es)[j][0..|types|] == es[j].key;
      LexOrder(es[i].key, es[j].key);
    }
  }

  /** The scans of a table whose key columns have the first `keys` of these types. */
  function ScansOf(columns: seq<ColType>, keys: nat, outs: seq<seq<Entry>>): seq<TableScan> {
    seq(|outs|, i requires 0 <= i < |outs| => TableScan(columns, keys, RowsOf(outs[i]), Any))
  }

  lemma {:induction false} RowsOfConcat(columns: seq<ColType>, keys: nat, outs: seq<seq<Entry>>)
    ensures Concat(ForwardRows(ScansOf(columns, keys, outs))) == RowsOf(Concat(outs))
  {
    if outs != [] {
      RowsOfConcat(columns, keys, outs[1..]);
      assert ForwardRows(ScansOf(columns, keys, outs))[1..] == ForwardRows(ScansOf(columns, keys, outs[1..]));
    }
  }

  /**
   * The plans of a WHERE are coherent before any request: one scan, or a union whose children's
   * rows in turn are rows of the table in key order.
   */
  lemma PlannedIsCoherent(types: seq<ColType>, columns: seq<ColType>, outs: seq<seq<Entry>>)
    requires outs != [] && ValidTable(types, Concat(outs))
    ensures Coherent(Table(TableScan(columns, |types|, RowsOf(Concat(outs)), Any)))
    ensures Coherent(Union(ScansOf(columns, |types|, outs), Any))
  {
    TableRowsSorted(types, Concat(outs));
    RowsOfConcat(columns, |types|, outs);
  }

  // ---------- when a union stays in step ----------

  /** Exactly an open request for the next key column makes a union that runs reversed forget its direction. */
  lemma UnionStaysInStepExactly(scans: seq<TableScan>, order: SortOrder, index: nat, column: nat, requested: SortOrder)
    requires CoherentUnion(scans) && UnionInStep(scans, order)
    ensures InStep(Ensure(Union(scans, order), index, column, requested).1) <==>
            !(requested == Any && order == Descend && column == index && column < scans[0].keys)
  {
    EnsureScansAll(scans, index, column, requested);
    AllOrNone(scans, index, column, requested);
  }

  /** The children of a coherent union answer alike. */
  lemma AllOrNone(scans: seq<TableScan>, index: nat, column: nat, requested: SortOrder)
    requires CoherentUnion(scans)
    ensures var (ok, now) := EnsureScans(scans, index, column, requested);
            && ok == EnsureScan(scans[0], index, column, requested).0
            && (!ok ==> EnsureScan(scans[0], index, column, requested).1 == scans[0] && now == scans)
  {
    EnsureScansAll(scans, index, column, requested);
    var (ok, now) := EnsureScans(scans, index, column, requested);
    if !ok {
      var k :| 0 <= k < |scans| && !EnsureScan(scans[k], index, column, requested).0;
      assert forall i :: 0 <= i < |scans| ==> EnsureScan(scans[i], index, column, requested).1 == scans[i];
    }
  }

  /** A granted request for a direction puts a union back in step. */
  lemma {:induction false} GrantedIsInStep(p: Plan, index: nat, column: nat, requested: SortOrder)
    requires Coherent(p) && requested != Any && Ensure(p, index, column, requested).0
    ensures InStep(Ensure(p, index, column, requested).1)
    decreases p
  {
    match p
    case Union(ss, _) => EnsureScansAll(ss, index, column, requested);
    case Filtering(c, _) => GrantedIsInStep(c, index, column, requested);
    case Projection(c, columns) => GrantedIsInStep(c, index, columns[column], requested);
    case Grouping(c, _, aggrs) => GrantedIsInStep(c, index, aggrs[column].index, requested);
    case _ =>
  }

  lemma {:induction false} TypesStay(p: Plan, index: nat, column: nat, requested: SortOrder)
    ensures TypesOf(Ensure(p, index, column, requested).1) == TypesOf(p)
    decreases p
  {
    match p
    case Table(_) | File(_, _) | Sorting(_, _) =>
    case Union(ss, _) => EnsureScansAll(ss, index, column, requested);
    case Filtering(c, _) => TypesStay(c, index, column, requested);
    case Projection(c, columns) =>
      if column < |columns| {
        TypesStay(c, index, columns[column], requested);
      }
    case Grouping(c, _, aggrs) =>
      if column < |aggrs| && aggrs[column].func == FIRST {
        TypesStay(c, index, aggrs[column].index, requested);
      }
  }

  lemma SameForwardRows(scans: seq<TableScan>, index: nat, column: nat, requested: SortOrder)
    ensures ForwardRows(EnsureScans(scans, index, column, requested).1) == ForwardRows(scans)
  {
    EnsureScansAll(scans, index, column, requested);
  }

  /** No request makes a plan incoherent. */
  lemma {:induction false} StaysCoherent(p: Plan, index: nat, column: nat, requested: SortOrder)
    requires Coherent(p)
    ensures Coherent(Ensure(p, index, column, requested).1)
    decreases p
  {
    match p
    case Union(ss, order) =>
      EnsureScansAll(ss, index, column, requested);
      AllOrNone(ss, index, column, requested);
      SameForwardRows(ss, index, column, requested);
    case Filtering(c, _) => StaysCoherent(c, index, column, requested);
    case Projection(c, columns) =>
      if column < |columns| {
        StaysCoherent(c, index, columns[column], requested);
      }
    case Grouping(c, _, aggrs) =>
      if column < |aggrs| && aggrs[column].func == FIRST {
        StaysCoherent(c, index, aggrs[column].index, requested);
        TypesStay(c, index, aggrs[column].index, requested);
      }
    case _ =>
  }

  lemma UnionStaysKept(scans: seq<TableScan>, order: SortOrder, index: nat, column: nat, requested: SortOrder)
    requires CoherentUnion(scans) && (Whole(scans) || UnionInStep(scans, order))
    requires requested == Any ==> Whole(scans) || order != Descend
    ensures var q := Ensure(Union(scans, order), index, column, requested).1;
            && (Whole(q.scans) || UnionInStep(q.scans, q.order))
            && (requested == Any ==> Whole(q.scans) || q.order != Descend)
  {
    hide Blocks;
    EnsureScansAll(scans, index, column, requested);
    SameForwardRows(scans, index, column, requested);
    AllOrNone(scans, index, column, requested);
    if !Whole(scans) {
      UnionStaysInStepExactly(scans, order, index, column, requested);
    }
  }

  /** A request that does no harm keeps equal keys together everywhere. */
  lemma {:induction false} StaysKept(p: Plan, index: nat, column: nat, requested: SortOrder)
    requires Coherent(p) && Kept(p) && (requested == Any ==> Turnable(p))
    ensures var q := Ensure(p, index, column, requested).1;
            Kept(q) && (requested == Any ==> Turnable(q))
    decreases p
  {
    hide CoherentUnion, Whole, UnionInStep, EnsureScans;
    match p
    case Table(_) | File(_, _) | Sorting(_, _) =>
    case Union(ss, order) => UnionStaysKept(ss, order, index, column, requested);
    case Filtering(c, _) => StaysKept(c, index, column, requested);
    case Projection(c, columns) =>
      if column < |columns| {
        StaysKept(c, index, columns[column], requested);
      }
    case Grouping(c, _, aggrs) =>
      if column < |aggrs| && aggrs[column].func == FIRST {
        StaysKept(c, index, aggrs[column].index, requested);
      }
  }

  /** Two scans of one row each, with the keys 1 and 2. */
  function TwoScans(order: SortOrder): seq<TableScan> {
    [TableScan([Int64], 1, [[IntV(1)]], order), TableScan([Int64], 1, [[IntV(2)]], order)]
  }

  lemma BothScansAnswer(order: SortOrder, requested: SortOrder)
    requires order == Any || requested == Any
    ensures EnsureScans(TwoScans(order), 0, 0, requested) ==
              (true, TwoScans(if requested == Any then order else requested))
  {
    var rest := TwoScans(order)[1..];
    assert rest == [TwoScans(order)[1]] && rest[1..] == [];
    assert EnsureScans(rest[1..], 0, 0, requested) == (true, []);
    var now := if requested == Any then order else requested;
    assert EnsureScan(rest[0], 0, 0, requested) == (true, TwoScans(now)[1]);
    assert [TwoScans(now)[1]] + [] == [TwoScans(now)[1]];
    assert [TwoScans(now)[0]] + [TwoScans(now)[1]] == TwoScans(now);
  }

  /** The rows of the two scans one after the other. */
  lemma BothScansRun(order: SortOrder)
    ensures Concat(ForwardRows(TwoScans(order))) == Concat(Outputs(TwoScans(order))) == [[IntV(1)], [IntV(2)]]
  {
    var (a, b) := ([[IntV(1)]], [[IntV(2)]]);
    assert [a, b][1..] == [b] && Concat([b]) == b + Concat([]) && Concat([a, b]) == a + Concat([b]);
    assert a + b == [[IntV(1)], [IntV(2)]] && Reverse(a) == a && Reverse(b) == b;
    assert ForwardRows(TwoScans(order)) == [a, b] && Outputs(TwoScans(order)) == [a, b];
  }

  /**
   * The order of requests matters: a subquery sorted descending over a union, then an open
   * request from the GROUP BY around it, and the children run in the wrong order.
   */
  lemma ForgottenDirection()
    ensures var p := Union(TwoScans(Any), Any);
            var (first, q) := Ensure(p, 0, 0, Descend);
            var (second, r) := Ensure(q, 0, 0, Any);
            && Coherent(p) && first && second && Coherent(r) && Promised(r, [SortSpec(0, Descend)]) && !InStep(r)
            && Delivers(r, [[IntV(1)], [IntV(2)]]) && !SortedRows([SortSpec(0, Descend)], [[IntV(1)], [IntV(2)]])
  {
    hide EnsureScans, Concat, GroupRows, Projected, SortedFrom, Keeps, Blocks;
    BothScansAnswer(Any, Descend);
    BothScansAnswer(Descend, Any);
    BothScansRun(Any);
    BothScansRun(Descend);
    var rows: seq<Row> := [[IntV(1)], [IntV(2)]];
    assert Precedes([SortSpec(0, Descend)], rows[1], rows[0]);
  }

  const TOP: Value := IntV(0x7FFF_FFFF_FFFF_FFFF)

  /** Scans in descending order whose rows share the first key column 1, but have 0 there, too. */
  function SharedScans(): seq<TableScan> {
    [TableScan([Int64, Int64], 2, [[IntV(0), IntV(3)], [IntV(1), IntV(5)]], Descend),
     TableScan([Int64, Int64], 2, [[IntV(1), TOP]], Descend)]
  }

  /** Out of step such scans give two groups for one key of a GROUP BY on the first column. */
  lemma SplitGroup()
    ensures CoherentUnion(SharedScans()) && !UnionInStep(SharedScans(), Any)
    ensures Promised(Union(SharedScans(), Any), OpenSpecs([0]))
    ensures !Grouped(KeysOf(Concat(Outputs(SharedScans())), [0]), 0)
  {
    hide Grouped, Blocks, Concat;
    var scans := SharedScans();
    var rows: seq<Row> := [[IntV(0), IntV(3)], [IntV(1), IntV(5)], [IntV(1), TOP]];
    assert Concat(ForwardRows(scans)) == rows by {
      SharedRows();
    }
    SharedSorted(rows);
    var parts := KeyParts(ForwardRows(scans), [0]);
    assert parts[0][0] == [IntV(0)] && parts[0][1] == [IntV(1)] && parts[1][0] == [IntV(1)];
    if Blocks(parts) {
      OneKeyOfBlocks(parts, 0, 0, 1, [IntV(1)], [IntV(0)]);
    }
    UnionGroupedExactly(scans, Any, [0]);
  }

  lemma SharedRows()
    ensures Concat(ForwardRows(SharedScans())) == [[IntV(0), IntV(3)], [IntV(1), IntV(5)], [IntV(1), TOP]]
  {
    var (a, b) := ([[IntV(0), IntV(3)], [IntV(1), IntV(5)]], [[IntV(1), TOP]]);
    assert ForwardRows(SharedScans()) == [a, b] && [a, b][1..] == [b];
    assert Concat([b]) == b + Concat([]) && Concat([a, b]) == a + Concat([b]);
  }

  lemma SharedSorted(rows: seq<Row>)
    requires rows == [[IntV(0), IntV(3)], [IntV(1), IntV(5)], [IntV(1), TOP]]
    ensures SortedRows(KeySpecs(2, Ascend), rows)
  {
    var specs := KeySpecs(2, Ascend);
    assert specs == [SortSpec(0, Ascend), SortSpec(1, Ascend)] && specs[1..] == [SortSpec(1, Ascend)];
    forall i, j | 0 <= i < j < |rows| ensures !Precedes(specs, rows[j], rows[i]) {
    }
  }

  // ---------- which lists a scan grants ----------

  /** The columns of the key from the front, in one direction that suits the scan. */
  predicate KeyPrefixInOneDirection(keys: nat, order: SortOrder, items: seq<SortSpec>, i: nat)
    requires i <= |items|
  {
    && (i < |items| ==> |items| <= keys)
    && (forall j :: i <= j < |items| ==> items[j].index == j)
    && (forall j :: i <= j < |items| && items[j].order != Any && order != Any ==> items[j].order == order)
    && (forall j, k :: i <= j < k < |items| && items[j].order != Any && items[k].order != Any ==>
          items[j].order == items[k].order)
  }

  /** A scan grants exactly the key prefixes in one direction; mixed directions are refused. */
  lemma {:induction false} ScanGrantsExactly(s: TableScan, items: seq<SortSpec>, i: nat)
    requires i <= |items|
    ensures Requests(Table(s), items, i).0 <==> KeyPrefixInOneDirection(s.keys, s.order, items, i)
    decreases |items| - i
  {
    if i < |items| {
      var (ok, s') := EnsureScan(s, i, items[i].index, items[i].order);
      if ok {
        ScanGrantsExactly(s', items, i + 1);
      }
    }
  }
}
