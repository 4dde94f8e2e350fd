/**
 * A SELECT from its table to the rows that it delivers: the plan of the WHERE
 * (planbuilder/LevelDBPlanBuilder.cpp) under the plans of GROUP BY, HAVING and ORDER BY
 * (planbuilder/SelectPlanBuilder.cpp).
 */
module Query {
  import opened Multisets
  import opened Seqs
  import opened Values
  import opened Predicates
  import opened KeyRange
  import opened RangeOrder
  import opened Scan
  import opened Source
  import opened Sort
  import opened GroupBy
  import opened GroupKeys
  import Plans
  import Planner
  import QueryRewriter
  import StdSort
  import opened PlanRequests
  import opened SelectBuilder
  import opened SelectPlan

  // ---------- the ranges of a union share key prefixes as blocks do ----------

  /** A selection from a table is a table. */
  lemma {:induction false} SelectionIsTable(types: seq<ColType>, es: seq<Entry>, f: Entry -> bool)
    requires ValidTable(types, es)
    ensures ValidTable(types, Filter(es, f))
  {
    var places := FilterPlaces(es, f);
  }

  /**
   * What a SELECT over a table delivers: each row that satisfies the predicate as often as the
   * table has it and no other, with the keys ascending, or descending when that is asked for.
   */
  lemma SelectedInOrder(types: seq<ColType>, table: seq<Entry>, filter: Option<Pred>, direction: SortOrder)
    requires ValidTable(types, table)
    ensures var rows := Planner.InDirection(direction, Planner.Selected(table, filter));
            && (forall e: Entry :: multiset(rows)[e] ==
                              if filter.Some? ==> Sat(filter.value, e.Row()) then multiset(table)[e] else 0)
            && forall i, j :: 0 <= i < j < |rows| ==>
                 && |rows[i].key| == |rows[j].key|
                 && if direction == Descend then LexCompare(rows[i].key, rows[j].key) > 0
                    else LexCompare(rows[i].key, rows[j].key) < 0
  {
    hide Sat, LexCompare, Filter;
    var selected := Planner.Selected(table, filter);
    var rows := Planner.InDirection(direction, selected);
    ReverseMultiset(selected);
    if filter.Some? {
      SelectionIsTable(types, table, Planner.Satisfying(filter.value));
      forall e: Entry ensures multiset(selected)[e] == if Sat(filter.value, e.Row()) then multiset(table)[e] else 0 {
        FilterMultiset(table, Planner.Satisfying(filter.value), e);
      }
    }
    forall i, j | 0 <= i < j < |rows|
      ensures |rows[i].key| == |rows[j].key|
      ensures if direction == Descend then LexCompare(rows[i].key, rows[j].key) > 0
              else LexCompare(rows[i].key, rows[j].key) < 0
    {
      if direction == Descend {
        LexOrder(rows[i].key, rows[j].key);
      }
    }
  }

  /** Keys in one range agree on the columns that the range fixes. */
  lemma FixedFront(types: seq<ColType>, picks: Picks, m: nat, x: seq<Value>, y: seq<Value>)
    requires picks.Fit(types) && m <= picks.EqCount() && |x| == |y| == |types|
    requires picks.BoundsHold(x) && picks.BoundsHold(y)
    ensures x[..m] == y[..m]
  {
    forall j | 0 <= j < m ensures x[j] == y[j] {
      CompareOrder(x[j], picks.lower[j].value);
      CompareOrder(y[j], picks.lower[j].value);
    }
  }

  /** Beyond the columns that it fixes a range looks at one column only. */
  lemma SharedBounds(types: seq<ColType>, picks: Picks, m: nat, x: seq<Value>, y: seq<Value>)
    requires picks.Fit(types) && picks.EqCount() < m <= |x| == |y| == |types| && x[..m] == y[..m]
    requires picks.BoundsHold(x)
    ensures picks.BoundsHold(y)
  {
    assert forall j :: 0 <= j < m ==> x[j] == x[..m][j] == y[..m][j] == y[j];
  }

  lemma {:induction false} Squeezed(x: seq<Value>, w: seq<Value>, y: seq<Value>, m: nat)
    requires m <= |x| == |w| == |y| && x[..m] == y[..m] && LexCompare(x, w) <= 0 && LexCompare(w, y) <= 0
    ensures w[..m] == x[..m]
  {
    if m > 0 {
      assert x[0] == x[..m][0] == y[..m][0] == y[0];
      CompareOrder(x[0], w[0]);
      CompareOrder(w[0], x[0]);
      assert x[1..][..m - 1] == x[..m][1..] && y[1..][..m - 1] == y[..m][1..];
      Squeezed(x[1..], w[1..], y[1..], m - 1);
      assert w[..m] == [w[0]] + w[1..][..m - 1] && x[..m] == [x[0]] + x[1..][..m - 1];
    }
  }

  /** The key of a row that satisfies a conjunction is in its range. */
  lemma InItsRange(types: seq<ColType>, p: Pred, e: Entry)
    requires Planner.Plannable(types, p) && StorableRow(types, e.key) && Sat(p, e.Row())
    ensures var picks := PicksOf(|types|, Leaves(p));
            && picks.Fit(types) && RangeOf(types, Leaves(p)).Valid(types)
            && RangeOf(types, Leaves(p)).Contains(e.key) && picks.BoundsHold(e.key)
  {
    hide Picks.BoundsHold;
    var picks := PicksOf(|types|, Leaves(p));
    PicksFit(types, Leaves(p));
    RangeIsValid(types, picks);
    Planner.SplitLosesNothing(types, p, e);
    RangeMeaning(types, picks, e.key);
  }

  /** What the ranges of a union's children have to be: sorted conjunctions, apart where not degenerate. */
  ghost predicate InTurn(types: seq<ColType>, ds: seq<Pred>) {
    && (forall i :: 0 <= i < |ds| ==> Planner.Plannable(types, ds[i]))
    && RangeOrder.HaveKeys(types, Planner.RangesOf(types, ds))
    && NonDegenerateApart(types, Planner.RangesOf(types, ds))
  }

  /**
   * When rows of two conjunctions share a key prefix, all rows of either one have it: a range
   * that went on beyond the prefix would hold the other row, too.
   */
  lemma WholeInPrefix(types: seq<ColType>, ds: seq<Pred>, i: nat, j: nat, m: nat, x: Entry, w: Entry, y: Entry)
    requires InTurn(types, ds) && i < |ds| && j < |ds| && i != j && m <= |types|
    requires StorableRow(types, x.key) && StorableRow(types, y.key) && StorableRow(types, w.key)
    requires Sat(ds[i], x.Row()) && Sat(ds[i], w.Row()) && Sat(ds[j], y.Row()) && x.key[..m] == y.key[..m]
    ensures w.key[..m] == x.key[..m]
  {
    hide Planner.Plannable, Picks.BoundsHold;
    var picks := PicksOf(|types|, Leaves(ds[i]));
    InItsRange(types, ds[i], x);
    InItsRange(types, ds[i], w);
    InItsRange(types, ds[j], y);
    if m <= picks.EqCount() {
      FixedFront(types, picks, m, x.key, w.key);
    } else {
      SharedBounds(types, picks, m, x.key, y.key);
      RangeMeaning(types, picks, y.key);
      NotInBoth(types, ds, i, j, y.key);
      assert false;
    }
  }

  lemma NotInBoth(types: seq<ColType>, ds: seq<Pred>, i: nat, j: nat, key: seq<Value>)
    requires InTurn(types, ds) && i < |ds| && j < |ds| && i != j && StorableRow(types, key)
    requires var rs := Planner.RangesOf(types, ds); rs[i].Valid(types) && rs[j].Valid(types)
    ensures !(Planner.RangesOf(types, ds)[i].Contains(key) && Planner.RangesOf(types, ds)[j].Contains(key))
  {
    hide Planner.Plannable;
    var (a, b) := (Planner.RangesOf(types, ds)[i], Planner.RangesOf(types, ds)[j]);
    if a.Contains(key) && b.Contains(key) {
      Between(types, a, key);
      Between(types, b, key);
      LexOrder(key, key);
      if i < j {
        ApartMeansBelow(types, a, b, key, key);
      } else {
        ApartMeansBelow(types, b, a, key, key);
      }
      assert false;
    }
  }

  /** The rows of three conjunctions in turn: a prefix that the outer two share is the middle one's, too. */
  lemma PrefixOfBlock(types: seq<ColType>, ds: seq<Pred>, i: nat, r: nat, j: nat, m: nat, x: Entry, w: Entry, y: Entry)
    requires InTurn(types, ds) && i <= r <= j < |ds| && i < j && m <= |types|
    requires StorableRow(types, x.key) && StorableRow(types, w.key) && StorableRow(types, y.key)
    requires Sat(ds[i], x.Row()) && Sat(ds[r], w.Row()) && Sat(ds[j], y.Row()) && x.key[..m] == y.key[..m]
    ensures w.key[..m] == x.key[..m]
  {
    hide Planner.Plannable, NonDegenerateApart;
    if r == i {
      WholeInPrefix(types, ds, i, j, m, x, w, y);
    } else if r == j {
      WholeInPrefix(types, ds, j, i, m, y, w, x);
    } else {
      Planner.DisjunctsApart(types, ds, i, r, x, w);
      Planner.DisjunctsApart(types, ds, r, j, w, y);
      Squeezed(x.key, w.key, y.key, m);
    }
  }

  /** A key of the first columns of some rows is the front of the key of one of them. */
  lemma KeyIsFront(types: seq<ColType>, es: seq<Entry>, m: nat, k: Row) returns (e: Entry)
    requires ValidTable(types, es) && m <= |types| && k in KeysOf(RowsOf(es), FirstIndices(m))
    ensures e in es && e.key[..m] == k && StorableRow(types, e.key)
  {
    var keys := KeysOf(RowsOf(es), FirstIndices(m));
    var a :| 0 <= a < |keys| && keys[a] == k;
    e := es[a];
    assert forall c :: 0 <= c < m ==> k[c] == At(e.Row(), c) == e.key[c];
  }

  lemma UnionBlocks(types: seq<ColType>, columns: seq<ColType>, table: seq<Entry>, ds: seq<Pred>, m: nat)
    requires ValidTable(types, table) && InTurn(types, ds) && m <= |types|
    ensures Blocks(KeyParts(ForwardRows(ScansOf(columns, |types|, Planner.RowsInTurn(table, ds))), FirstIndices(m)))
  {
    hide InTurn, ValidTable, KeysOf, Blocks;
    var outs := Planner.RowsInTurn(table, ds);
    var parts := KeyParts(ForwardRows(ScansOf(columns, |types|, outs)), FirstIndices(m));
    assert forall i :: 0 <= i < |parts| ==> parts[i] == KeysOf(RowsOf(outs[i]), FirstIndices(m));
    forall i, r, j, k, w | 0 <= i <= r <= j < |parts| && i < j && k in parts[i] && k in parts[j] && w in parts[r]
      ensures w == k
    {
      SelectionIsTable(types, table, Planner.Satisfying(ds[i]));
      SelectionIsTable(types, table, Planner.Satisfying(ds[r]));
      SelectionIsTable(types, table, Planner.Satisfying(ds[j]));
      var x := KeyIsFront(types, outs[i], m, k);
      var z := KeyIsFront(types, outs[r], m, w);
      var y := KeyIsFront(types, outs[j], m, k);
      PrefixOfBlock(types, ds, i, r, j, m, x, z, y);
    }
    BlocksOf(parts);
  }

  /** A union that the planner builds over a table without rows that satisfy two disjuncts, before any request. */
  lemma PlannerUnionIsCoherent(types: seq<ColType>, columns: seq<ColType>, table: seq<Entry>, ds: seq<Pred>,
                               perm: seq<nat>, outs: seq<seq<Entry>>)
    requires ValidTable(types, table) && ds != [] && forall i :: 0 <= i < |ds| ==> Planner.Plannable(types, ds[i])
    requires Planner.UnionBuilt(types, table, ds, perm, outs) && Planner.OneDisjunctEach(table, ds)
    ensures var p := Union(ScansOf(columns, |types|, outs), Any);
            Coherent(p) && Content(p) == RowsOf(Filter(table, Planner.SatisfyingOneOf(ds)))
  {
    hide Planner.Plannable, SortedByStart, NeighboursApart, Planner.SatisfyingOneOf, ValidTable,
      Planner.OneDisjunctEach;
    Planner.UnionOfRangesDelivers(types, table, ds, perm, outs);
    SelectionIsTable(types, table, Planner.SatisfyingOneOf(ds));
    PlannedIsCoherent(types, columns, outs);
    RowsOfConcat(columns, |types|, outs);
  }

  /** Without hidden overlaps its children share key prefixes as blocks do. */
  lemma PlannerUnionIsWhole(types: seq<ColType>, columns: seq<ColType>, table: seq<Entry>, ds: seq<Pred>,
                            perm: seq<nat>, outs: seq<seq<Entry>>)
    requires ValidTable(types, table) && ds != [] && forall i :: 0 <= i < |ds| ==> Planner.Plannable(types, ds[i])
    requires Planner.UnionBuilt(types, table, ds, perm, outs) && Planner.NoHiddenOverlap(types, ds)
    ensures Whole(ScansOf(columns, |types|, outs))
  {
    hide Planner.Plannable, NonDegenerateApart, SortedByStart, NeighboursApart, ValidTable, Blocks;
    var sorted := StdSort.Permuted(ds, perm);
    assert InTurn(types, sorted);
    forall m: nat | m <= |types|
      ensures Blocks(KeyParts(ForwardRows(ScansOf(columns, |types|, outs)), FirstIndices(m)))
    {
      UnionBlocks(types, columns, table, sorted, m);
    }
  }

  // ---------- the plan over its leaf ----------

  /** The scans without their rows: what `ensureSortOrder` looks at. */
  function BlankScans(scans: seq<TableScan>): seq<TableScan> {
    seq(|scans|, i requires 0 <= i < |scans| => scans[i].(rows := []))
  }

  function Blank(p: Plan): Plan {
    match p
    case Table(s) => Table(s.(rows := []))
    case Union(ss, order) => Union(BlankScans(ss), order)
    case File(types, _) => File(types, [])
    case Filtering(c, ors) => Filtering(Blank(c), ors)
    case Projection(c, columns) => Projection(Blank(c), columns)
    case Sorting(c, specs) => Sorting(Blank(c), specs)
    case Grouping(c, g, aggrs) => Grouping(Blank(c), g, aggrs)
  }

  /** The scan, union or file at the bottom. */
  function Leaf(p: Plan): (leaf: Plan)
    ensures leaf.Table? || leaf.Union? || leaf.File?
  {
    match p
    case Table(_) | Union(_, _) | File(_, _) => p
    case Filtering(c, _) => Leaf(c)
    case Projection(c, _) => Leaf(c)
    case Sorting(c, _) => Leaf(c)
    case Grouping(c, _, _) => Leaf(c)
  }

  /** The types of its columns. */
  function LeafColumns(p: Plan): seq<ColType> {
    match Leaf(p)
    case Table(s) => s.columns
    case Union(ss, _) => if ss == [] then [] else Widened(ss[0].columns)
    case File(types, _) => types
    case _ => []
  }

  /** The same plan over other rows. */
  function Over(p: Plan, rows: seq<Row>): Plan {
    match p
    case Table(_) | Union(_, _) | File(_, _) => File(LeafColumns(p), rows)
    case Filtering(c, ors) => Filtering(Over(c, rows), ors)
    case Projection(c, columns) => Projection(Over(c, rows), columns)
    case Sorting(c, specs) => Sorting(Over(c, rows), specs)
    case Grouping(c, g, aggrs) => Grouping(Over(c, rows), g, aggrs)
  }

  /** The direction that the requests have given to the scans. */
  function LeafDirection(p: Plan): SortOrder {
    match Leaf(p)
    case Table(s) => s.order
    case Union(ss, _) => if ss == [] then Any else ss[0].order
    case _ => Any
  }

  lemma {:induction false} OverTypes(p: Plan, rows: seq<Row>)
    ensures TypesOf(Over(p, rows)) == TypesOf(p)
    decreases p
  {
    match p
    case Table(_) | Union(_, _) | File(_, _) =>
    case Filtering(c, _) => OverTypes(c, rows);
    case Projection(c, _) => OverTypes(c, rows);
    case Sorting(c, _) => OverTypes(c, rows);
    case Grouping(c, _, _) => OverTypes(c, rows);
  }

  lemma {:induction false} OverIsCoherent(p: Plan, rows: seq<Row>)
    requires Coherent(p)
    ensures Coherent(Over(p, rows))
    decreases p
  {
    match p
    case Table(_) | Union(_, _) | File(_, _) =>
    case Filtering(c, _) => OverIsCoherent(c, rows);
    case Projection(c, _) => OverIsCoherent(c, rows);
    case Sorting(c, _) => OverIsCoherent(c, rows);
    case Grouping(c, _, _) =>
      OverIsCoherent(c, rows);
      OverTypes(c, rows);
  }

  /** Run the leaf first and the rest over its rows: the same as running the plan. */
  lemma {:induction false} RunOverLeaf(p: Plan, rows: seq<Row>, out: seq<Row>)
    requires Delivers(Leaf(p), rows) && Delivers(Over(p, rows), out)
    ensures Delivers(p, out)
    decreases p
  {
    hide GroupRows, Projected, SortedFrom, Keeps, GroupedTo;
    match p
    case Table(_) | Union(_, _) | File(_, _) =>
    case Filtering(c, ors) =>
      var input :| Delivers(Over(c, rows), input) && out == Filter(input, Keeps(ors));
      RunOverLeaf(c, rows, input);
    case Projection(c, columns) =>
      var input :| Delivers(Over(c, rows), input) && out == Projected(input, columns);
      RunOverLeaf(c, rows, input);
    case Sorting(c, specs) =>
      var input :| Delivers(Over(c, rows), input) && SortedFrom(input, specs, out);
      RunOverLeaf(c, rows, input);
    case Grouping(c, g, aggrs) =>
      OverTypes(c, rows);
      var input :| Delivers(Over(c, rows), input) && GroupedTo(TypesOf(c), input, g, aggrs, out);
      RunOverLeaf(c, rows, input);
  }

  /** And it fails when the plan fails. */
  lemma {:induction false} FailOverLeaf(p: Plan, rows: seq<Row>)
    requires Coherent(p) && Coherent(Over(p, rows)) && Delivers(Leaf(p), rows) && Fails(Over(p, rows))
    ensures Fails(p)
    decreases p
  {
    match p
    case Filtering(c, _) => FailOverLeaf(c, rows);
    case Projection(c, _) => FailOverLeaf(c, rows);
    case Sorting(c, _) => FailOverLeaf(c, rows);
    case Grouping(c, g, aggrs) =>
      OverTypes(c, rows);
      if Fails(Over(c, rows)) {
        FailOverLeaf(c, rows);
      } else {
        var input :| Delivers(Over(c, rows), input) && !RunsFit(TypesOf(c), input, g, aggrs, 0);
        RunOverLeaf(c, rows, input);
      }
  }

  lemma {:induction false} BlankLeaf(p: Plan, rows: seq<Row>)
    ensures Over(Blank(p), rows) == Over(p, rows) && LeafDirection(Blank(p)) == LeafDirection(p)
    decreases p
  {
    match p
    case Table(_) | Union(_, _) | File(_, _) =>
    case Filtering(c, _) => BlankLeaf(c, rows);
    case Projection(c, _) => BlankLeaf(c, rows);
    case Sorting(c, _) => BlankLeaf(c, rows);
    case Grouping(c, _, _) => BlankLeaf(c, rows);
  }

  // The rows have no part in the requests.

  lemma BlankCons(s: TableScan, scans: seq<TableScan>)
    ensures BlankScans([s] + scans) == [s.(rows := [])] + BlankScans(scans)
  {
  }

  lemma {:induction false} BlankEnsureScans(scans: seq<TableScan>, index: nat, column: nat, requested: SortOrder)
    ensures var (ok, now) := EnsureScans(scans, index, column, requested);
            EnsureScans(BlankScans(scans), index, column, requested) == (ok, BlankScans(now))
  {
    if scans != [] {
      var (ok, s) := EnsureScan(scans[0], index, column, requested);
      assert BlankScans(scans)[1..] == BlankScans(scans[1..]);
      BlankCons(s, scans[1..]);
      BlankCons(s, EnsureScans(scans[1..], index, column, requested).1);
      assert EnsureScan(BlankScans(scans)[0], index, column, requested) == (ok, s.(rows := []));
      if ok {
        BlankEnsureScans(scans[1..], index, column, requested);
      }
    }
  }

  lemma {:induction false} BlankEnsure(p: Plan, index: nat, column: nat, requested: SortOrder)
    ensures var (ok, q) := Ensure(p, index, column, requested);
            Ensure(Blank(p), index, column, requested) == (ok, Blank(q))
    decreases p
  {
    match p
    case Table(_) | File(_, _) | Sorting(_, _) =>
    case Union(ss, _) => BlankEnsureScans(ss, index, column, requested);
    case Filtering(c, _) => BlankEnsure(c, index, column, requested);
    case Projection(c, columns) =>
      if column < |columns| {
        BlankEnsure(c, index, columns[column], requested);
      }
    case Grouping(c, _, aggrs) =>
      if column < |aggrs| {
        BlankEnsure(c, index, aggrs[column].index, requested);
      }
  }

  lemma {:induction false} BlankRequests(p: Plan, items: seq<SortSpec>, i: nat)
    requires i <= |items|
    ensures var (granted, q) := Requests(p, items, i);
            Requests(Blank(p), items, i) == (granted, Blank(q))
    decreases |items| - i
  {
    hide Blank, Ensure;
    if i < |items| {
      BlankEnsure(p, i, items[i].index, items[i].order);
      BlankRequests(Ensure(p, i, items[i].index, items[i].order).1, items, i + 1);
    }
  }

  lemma BlankGroupBy(p: Plan, groupby: seq<nat>, aggrs: seq<AggrFunc>)
    ensures WithGroupBy(Blank(p), groupby, aggrs) == Blank(WithGroupBy(p, groupby, aggrs))
  {
    hide Requests;
    BlankRequests(p, OpenSpecs(groupby), 0);
  }

  lemma BlankOrderBy(p: Plan, items: seq<SortSpec>)
    ensures WithOrderBy(Blank(p), items) == Blank(WithOrderBy(p, items))
  {
    hide Requests;
    BlankRequests(p, items, 0);
  }

  lemma BlankBuilt(p: Plan, groupby: Option<(seq<nat>, seq<AggrFunc>)>, having: Option<seq<seq<Pred>>>,
                   orderby: seq<SortSpec>)
    ensures Built(Blank(p), groupby, having, orderby) == Blank(Built(p, groupby, having, orderby))
  {
    hide WithGroupBy, WithOrderBy;
    var grouped := if groupby.Some? then WithGroupBy(p, groupby.value.0, groupby.value.1) else p;
    if groupby.Some? {
      BlankGroupBy(p, groupby.value.0, groupby.value.1);
    }
    BlankOrderBy(if having.Some? then Filtering(grouped, having.value) else grouped, orderby);
  }

  // ---------- the leaf stays in step ----------

  /** The leaf can run: its union knows the direction of its children. */
  ghost predicate LeafInStep(p: Plan) {
    Leaf(p).Union? ==> UnionInStep(Leaf(p).scans, Leaf(p).order)
  }

  /** The same rows from the same kind of leaf. */
  ghost predicate SameLeaf(p: Plan, q: Plan) {
    Content(Leaf(q)) == Content(Leaf(p)) && (Leaf(q).File? <==> Leaf(p).File?)
  }

  /** Requests that fit the direction of the leaf keep it in step and its rows as they are. */
  lemma {:induction false} EnsureLeaf(p: Plan, index: nat, column: nat, requested: SortOrder)
    requires Coherent(p) && LeafInStep(p) && (requested == Any ==> LeafDirection(p) != Descend)
    ensures var q := Ensure(p, index, column, requested).1;
            && LeafInStep(q) && SameLeaf(p, q)
            && (requested == Any ==> LeafDirection(q) != Descend)
    decreases p
  {
    match p
    case Table(_) | File(_, _) | Sorting(_, _) =>
    case Union(ss, order) =>
      ContentStays(p, index, column, requested);
      UnionStaysInStepExactly(ss, order, index, column, requested);
      EnsureScansAll(ss, index, column, requested);
    case Filtering(c, _) => EnsureLeaf(c, index, column, requested);
    case Projection(c, columns) =>
      if column < |columns| {
        EnsureLeaf(c, index, columns[column], requested);
      }
    case Grouping(c, _, aggrs) =>
      if column < |aggrs| {
        EnsureLeaf(c, index, aggrs[column].index, requested);
      }
  }

  lemma {:induction false} RequestsLeaf(p: Plan, items: seq<SortSpec>, i: nat, open: bool)
    requires i <= |items| && Coherent(p) && LeafInStep(p) && (open ==> LeafDirection(p) != Descend)
    requires forall j :: 0 <= j < |items| ==> (items[j].order == Any <==> open)
    ensures var q := Requests(p, items, i).1;
            && Coherent(q) && LeafInStep(q) && SameLeaf(p, q) && TypesOf(q) == TypesOf(p)
            && (open ==> LeafDirection(q) != Descend)
    decreases |items| - i
  {
    hide Ensure, Content, LeafInStep, Coherent, LeafDirection, TypesOf;
    if i < |items| {
      var (column, order) := (items[i].index, items[i].order);
      EnsureLeaf(p, i, column, order);
      StaysCoherent(p, i, column, order);
      TypesStay(p, i, column, order);
      RequestsLeaf(Ensure(p, i, column, order).1, items, i + 1, open);
    }
  }

  lemma OnTop(p: Plan)
    ensures forall ors :: LeafInStep(Filtering(p, ors)) == LeafInStep(p) && Leaf(Filtering(p, ors)) == Leaf(p)
    ensures forall specs :: LeafInStep(Sorting(p, specs)) == LeafInStep(p) && Leaf(Sorting(p, specs)) == Leaf(p)
    ensures forall g, aggrs ::
              LeafInStep(Grouping(p, g, aggrs)) == LeafInStep(p) && Leaf(Grouping(p, g, aggrs)) == Leaf(p)
  {
  }

  lemma GroupByLeaf(p: Plan, groupby: seq<nat>, aggrs: seq<AggrFunc>)
    requires Coherent(p) && LeafInStep(p) && LeafDirection(p) != Descend && Summable(TypesOf(p), aggrs)
    ensures var q := WithGroupBy(p, groupby, aggrs);
            && Coherent(q) && LeafInStep(q) && SameLeaf(p, q) && LeafDirection(q) != Descend
  {
    hide Requests, Content, LeafInStep;
    var (_, q) := Requests(p, OpenSpecs(groupby), 0);
    RequestsLeaf(p, OpenSpecs(groupby), 0, true);
    OnTop(q);
    OnTop(Sorting(q, OpenSpecs(groupby)));
  }

  lemma OrderByLeaf(p: Plan, items: seq<SortSpec>)
    requires Coherent(p) && LeafInStep(p) && forall j :: 0 <= j < |items| ==> items[j].order != Any
    ensures var q := WithOrderBy(p, items);
            Coherent(q) && LeafInStep(q) && SameLeaf(p, q)
  {
    hide Requests, Content, LeafInStep;
    RequestsLeaf(p, items, 0, false);
    OnTop(Requests(p, items, 0).1);
  }

  lemma BuiltLeaf(p: Plan, groupby: Option<(seq<nat>, seq<AggrFunc>)>, having: Option<seq<seq<Pred>>>,
                  orderby: seq<SortSpec>)
    requires Coherent(p) && LeafInStep(p) && LeafDirection(p) != Descend
    requires groupby.Some? ==> Summable(TypesOf(p), groupby.value.1)
    requires forall j :: 0 <= j < |orderby| ==> orderby[j].order != Any
    ensures var q := Built(p, groupby, having, orderby);
            Coherent(q) && LeafInStep(q) && SameLeaf(p, q)
  {
    hide WithGroupBy, WithOrderBy, Content, LeafInStep, LeafDirection;
    var grouped := if groupby.Some? then WithGroupBy(p, groupby.value.0, groupby.value.1) else p;
    if groupby.Some? {
      GroupByLeaf(p, groupby.value.0, groupby.value.1);
    }
    OnTop(grouped);
    if having.Some? {
      OrderByLeaf(Filtering(grouped, having.value), orderby);
    } else {
      OrderByLeaf(grouped, orderby);
    }
  }

  lemma {:induction false} LeafIsCoherent(p: Plan)
    requires Coherent(p)
    ensures Coherent(Leaf(p))
    decreases p
  {
    match p
    case Table(_) | Union(_, _) | File(_, _) =>
    case Filtering(c, _) => LeafIsCoherent(c);
    case Projection(c, _) => LeafIsCoherent(c);
    case Sorting(c, _) => LeafIsCoherent(c);
    case Grouping(c, _, _) => LeafIsCoherent(c);
  }

  lemma UnionRuns(scans: seq<TableScan>, order: SortOrder)
    requires CoherentUnion(scans) && UnionInStep(scans, order)
    ensures var rows := Concat(ForwardRows(scans));
            Delivers(Union(scans, order), if scans[0].order == Descend then Reverse(rows) else rows)
  {
    UnionOutput(scans, order);
  }

  /** A leaf in step delivers its rows in the direction that it has got. */
  lemma LeafDelivers(p: Plan, rows: seq<Row>)
    requires Coherent(p) && LeafInStep(p) && Content(Leaf(p)) == rows && !Leaf(p).File?
    ensures Delivers(Leaf(p), if LeafDirection(p) == Descend then Reverse(rows) else rows)
  {
    LeafIsCoherent(p);
    if Leaf(p).Union? {
      UnionRuns(Leaf(p).scans, Leaf(p).order);
    }
  }

  // ---------- errors ----------

  predicate NoGroups(p: Plan) {
    match p
    case Table(_) | Union(_, _) | File(_, _) => true
    case Filtering(c, _) => NoGroups(c)
    case Projection(c, _) => NoGroups(c)
    case Sorting(c, _) => NoGroups(c)
    case Grouping(_, _, _) => false
  }

  lemma {:induction false} WithoutGroups(p: Plan)
    requires Coherent(p) && NoGroups(p)
    ensures !Fails(p)
    decreases p
  {
    match p
    case Table(_) | Union(_, _) | File(_, _) =>
    case Filtering(c, _) => WithoutGroups(c);
    case Projection(c, _) => WithoutGroups(c);
    case Sorting(c, _) => WithoutGroups(c);
  }

  lemma {:induction false} EnsureNoGroups(p: Plan, index: nat, column: nat, requested: SortOrder)
    requires NoGroups(p)
    ensures NoGroups(Ensure(p, index, column, requested).1)
    decreases p
  {
    match p
    case Filtering(c, _) => EnsureNoGroups(c, index, column, requested);
    case Projection(c, columns) =>
      if column < |columns| {
        EnsureNoGroups(c, index, columns[column], requested);
      }
    case _ =>
  }

  lemma {:induction false} RequestsNoGroups(p: Plan, items: seq<SortSpec>, i: nat)
    requires i <= |items| && NoGroups(p)
    ensures NoGroups(Requests(p, items, i).1)
    decreases |items| - i
  {
    hide Ensure, NoGroups;
    if i < |items| {
      EnsureNoGroups(p, i, items[i].index, items[i].order);
      RequestsNoGroups(Ensure(p, i, items[i].index, items[i].order).1, items, i + 1);
    }
  }

  /** A grouping over scans stays one, whatever is requested of it. */
  lemma {:induction false} RequestsOneGrouping(q: Plan, items: seq<SortSpec>, i: nat)
    requires i <= |items| && q.Grouping? && NoGroups(q.child)
    ensures var r := Requests(q, items, i).1; r.Grouping? && NoGroups(r.child)
    decreases |items| - i
  {
    hide NoGroups;
    if i < |items| {
      var (ok, r) := Ensure(q, i, items[i].index, items[i].order);
      if items[i].index < |q.aggrs| && q.aggrs[items[i].index].func == FIRST {
        EnsureNoGroups(q.child, i, q.aggrs[items[i].index].index, items[i].order);
      }
      if ok {
        RequestsOneGrouping(r, items, i + 1);
      }
    }
  }

  /** One grouping over scans fails only for a sum in some order of the rows with equal keys together. */
  lemma GroupingFails(q: Plan, types: ResultTypes, rows: seq<Row>, groupby: seq<nat>, aggrs: seq<AggrFunc>)
    requires GroupingOver(q, types, rows, groupby, aggrs) && NoGroups(q.child) && Fails(q)
    ensures Summable(types, aggrs)
    ensures exists input :: InGroups(rows, groupby, input) && !RunsFit(types, input, groupby, aggrs, 0)
  {
    hide Content, TypesOf, Determined, Grouped, RunsFit, NoGroups;
    WithoutGroups(q.child);
    var input :| Delivers(q.child, input) && !RunsFit(TypesOf(q.child), input, groupby, aggrs, 0);
    SameRows(q.child, input);
    PromisedMeansGrouped(q.child, groupby, input);
  }

  /** And so does a built plan over scans, whatever is on top of its grouping. */
  lemma BuiltFails(p: Plan, groupby: Option<(seq<nat>, seq<AggrFunc>)>, having: Option<seq<seq<Pred>>>,
                   orderby: seq<SortSpec>)
    requires Buildable(p, groupby) && Determined(p) && NoGroups(p)
    requires forall j :: 0 <= j < |orderby| ==> orderby[j].order != Any
    requires Coherent(Built(p, groupby, having, orderby)) && Fails(Built(p, groupby, having, orderby))
    ensures groupby.Some? && Summable(TypesOf(p), groupby.value.1)
    ensures exists input :: InGroups(Content(p), groupby.value.0, input)
                            && !RunsFit(TypesOf(p), input, groupby.value.0, groupby.value.1, 0)
  {
    hide Content, TypesOf, Determined, Requests, InGroups, RunsFit, Summable, Kept, Turnable, GroupsPromised, Promised;
    if groupby == None {
      var below := if having.Some? then Filtering(p, having.value) else p;
      RequestsNoGroups(below, orderby, 0);
      WithoutGroups(Built(p, groupby, having, orderby));
      assert false;
    }
    var (g, aggrs) := groupby.value;
    var grouped := WithGroupBy(p, g, aggrs);
    GroupByIsSound(p, g, aggrs);
    RequestsNoGroups(p, OpenSpecs(g), 0);
    RequestsToGrouping(grouped, TypesOf(p), Content(p), g, aggrs, orderby, 0);
    RequestsOneGrouping(grouped, orderby, 0);
    var q := Requests(grouped, orderby, 0).1;
    if having.Some? {
      RequestsThroughFilter(grouped, having.value, orderby, 0);
    }
    assert Fails(q);
    GroupingFails(q, TypesOf(p), Content(p), g, aggrs);
  }

  // ---------- a SELECT from end to end ----------

  /** The types that the plan of a table gives to its columns: a union widens them. */
  function PlanTypes(columns: seq<ColType>, wide: bool): ResultTypes {
    Known(if wide then Widened(columns) else columns)
  }

  lemma SummableEitherWay(columns: seq<ColType>, aggrs: seq<AggrFunc>, wide: bool)
    requires Summable(Known(columns), aggrs)
    ensures Summable(PlanTypes(columns, wide), aggrs)
  {
  }

  /** A leaf that has seen no request: scans of a table, in no direction yet. */
  ghost predicate Fresh(leaf: Plan, types: ResultTypes, rows: seq<Row>) {
    && (leaf.Table? || leaf.Union?) && Coherent(leaf) && Content(leaf) == rows && TypesOf(leaf) == types
    && LeafInStep(leaf) && LeafDirection(leaf) == Any
  }

  lemma FreshTable(types: seq<ColType>, columns: seq<ColType>, es: seq<Entry>)
    requires ValidTable(types, es)
    ensures Fresh(Table(TableScan(columns, |types|, RowsOf(es), Any)), PlanTypes(columns, false), RowsOf(es))
  {
    TableRowsSorted(types, es);
  }

  lemma FreshUnion(types: seq<ColType>, columns: seq<ColType>, table: seq<Entry>, q: Pred, outs: seq<seq<Entry>>)
    requires ValidTable(types, table) && q.Or? && Planner.PlannableQuery(types, q)
    requires Planner.OneDisjunctEach(table, q.children)
    requires exists perm :: Planner.UnionBuilt(types, table, q.children, perm, outs)
    ensures Fresh(Union(ScansOf(columns, |types|, outs), Any), PlanTypes(columns, true),
                  RowsOf(Planner.Selected(table, Some(q))))
  {
    hide ValidTable, Planner.Plannable, Planner.OneDisjunctEach, Coherent, Content;
    var perm :| Planner.UnionBuilt(types, table, q.children, perm, outs);
    PlannerUnionIsCoherent(types, columns, table, q.children, perm, outs);
    FilterSame(table, Planner.Satisfying(q), Planner.SatisfyingOneOf(q.children));
    assert |outs| == |q.children|;
  }

  lemma FreshIsBuildable(leaf: Plan, types: ResultTypes, rows: seq<Row>, groupby: Option<(seq<nat>, seq<AggrFunc>)>)
    requires Fresh(leaf, types, rows) && (groupby.Some? ==> Summable(types, groupby.value.1))
    ensures Buildable(leaf, groupby) && Determined(leaf) && NoGroups(leaf)
    ensures Buildable(Blank(leaf), groupby)
  {
    hide Summable;
    BlankTypes(leaf);
    if leaf.Union? {
      NothingInTurn(BlankScans(leaf.scans));
    }
  }

  lemma BlankTypes(leaf: Plan)
    requires leaf.Table? || leaf.Union?
    ensures TypesOf(Blank(leaf)) == TypesOf(leaf)
  {
  }

  lemma {:induction false} NothingInTurn(scans: seq<TableScan>)
    requires forall i :: 0 <= i < |scans| ==> scans[i].rows == []
    ensures Concat(ForwardRows(scans)) == []
  {
    if scans != [] {
      NothingInTurn(scans[1..]);
      assert ForwardRows(scans)[1..] == ForwardRows(scans[1..]);
    }
  }

  lemma RowsInDirection(direction: SortOrder, es: seq<Entry>)
    ensures RowsOf(Planner.InDirection(direction, es)) ==
            if direction == Descend then Reverse(RowsOf(es)) else RowsOf(es)
  {
  }

  /** The leaf delivers the fetched rows, and the rest of the plan over them is the plan. */
  lemma FetchedFirst(leaf: Plan, types: ResultTypes, es: seq<Entry>, groupby: Option<(seq<nat>, seq<AggrFunc>)>,
                     having: Option<seq<seq<Pred>>>, orderby: seq<SortSpec>)
    requires Fresh(leaf, types, RowsOf(es)) && (groupby.Some? ==> Summable(types, groupby.value.1))
    requires forall j :: 0 <= j < |orderby| ==> orderby[j].order != Any
    ensures var (shape, full) := (Built(Blank(leaf), groupby, having, orderby), Built(leaf, groupby, having, orderby));
            var rows := RowsOf(Planner.InDirection(LeafDirection(shape), es));
            && Over(shape, rows) == Over(full, rows) && Delivers(Leaf(full), rows)
            && Coherent(full) && Coherent(Over(full, rows))
  {
    hide Built, Delivers, Over, Blank, LeafDirection, LeafInStep, Kept, Turnable, Determined, Summable;
    var full := Built(leaf, groupby, having, orderby);
    FreshIsBuildable(leaf, types, RowsOf(es), groupby);
    BlankBuilt(leaf, groupby, having, orderby);
    BuiltLeaf(leaf, groupby, having, orderby);
    BlankLeaf(full, RowsOf(Planner.InDirection(LeafDirection(full), es)));
    RowsInDirection(LeafDirection(full), es);
    LeafDelivers(full, RowsOf(es));
    OverIsCoherent(full, RowsOf(Planner.InDirection(LeafDirection(full), es)));
  }

  /** The answer to a SELECT, sorted, and by groups of the rows in some order that keeps equal keys together. */
  ghost predicate Answers(types: ResultTypes, rows: seq<Row>, groupby: Option<(seq<nat>, seq<AggrFunc>)>,
                          having: Option<seq<seq<Pred>>>, orderby: seq<SortSpec>, out: seq<Row>) {
    && SortedRows(orderby, out)
    && (groupby.Some? ==> FromSomeOrder(types, rows, groupby.value.0, groupby.value.1, having, out))
    && ((groupby.Some? ==> FirstsAreKeys(groupby.value.0, groupby.value.1)) ==>
          multiset(out) == multiset(Answer(rows, groupby, having)))
  }

  /** A sum of the groups is not accepted, in some order of the rows that keeps equal keys together. */
  ghost predicate SumRefused(types: ResultTypes, rows: seq<Row>, groupby: Option<(seq<nat>, seq<AggrFunc>)>) {
    && groupby.Some? && Summable(types, groupby.value.1)
    && exists input :: InGroups(rows, groupby.value.0, input)
                       && !RunsFit(types, input, groupby.value.0, groupby.value.1, 0)
  }

  lemma Answered(leaf: Plan, types: ResultTypes, es: seq<Entry>, groupby: Option<(seq<nat>, seq<AggrFunc>)>,
                 having: Option<seq<seq<Pred>>>, orderby: seq<SortSpec>, ok: bool, out: seq<Row>)
    requires Fresh(leaf, types, RowsOf(es)) && (groupby.Some? ==> Summable(types, groupby.value.1))
    requires forall j :: 0 <= j < |orderby| ==> orderby[j].order != Any
    requires var shape := Built(Blank(leaf), groupby, having, orderby);
             var p := Over(shape, RowsOf(Planner.InDirection(LeafDirection(shape), es)));
             Coherent(p) && if ok then Delivers(p, out) else Fails(p)
    ensures if ok then Answers(types, RowsOf(es), groupby, having, orderby, out)
            else SumRefused(types, RowsOf(es), groupby)
  {
    hide Built, Delivers, Over, Blank, LeafDirection, LeafInStep, Answer, SortedRows, FromSomeOrder, Coherent, Fails,
      Buildable, Determined, Summable, FirstsAreKeys, RunsFit, InGroups;
    var (shape, full) := (Built(Blank(leaf), groupby, having, orderby), Built(leaf, groupby, having, orderby));
    var rows := RowsOf(Planner.InDirection(LeafDirection(shape), es));
    FetchedFirst(leaf, types, es, groupby, having, orderby);
    FreshIsBuildable(leaf, types, RowsOf(es), groupby);
    if ok {
      RunOverLeaf(full, rows, out);
      BuiltDelivers(leaf, groupby, having, orderby, out);
    } else {
      FailOverLeaf(full, rows);
      BuiltFails(leaf, groupby, having, orderby);
    }
  }

  lemma BlankLeaves(columns: seq<ColType>, keys: nat, rows: seq<Row>, outs: seq<seq<Entry>>)
    ensures Blank(Table(TableScan(columns, keys, rows, Any))) == Table(TableScan(columns, keys, [], Any))
    ensures Blank(Union(ScansOf(columns, keys, outs), Any)) ==
            Union(seq(|outs|, _ => TableScan(columns, keys, [], Any)), Any)
  {
  }

  /** The plan of the table as the builder above it sees it. */
  method ShapeOf(types: seq<ColType>, columns: seq<ColType>, table: seq<Entry>, filter: Option<Pred>,
                 plan: Planner.QueryPlan)
    returns (shape: Plan, ghost leaf: Plan)
    requires ValidTable(types, table) && (filter.Some? ==> Planner.Supported(types, table, filter.value))
    requires plan.Union? ==>
               && plan.union.Sound() && filter.Some? && filter.value.Or?
               && Planner.UnionInSight(types, filter.value.children)
               && exists perm :: Planner.UnionBuilt(types, table, filter.value.children, perm, plan.union.outputs)
    ensures shape == Blank(leaf)
    ensures Fresh(leaf, PlanTypes(columns, plan.Union?), RowsOf(Planner.Selected(table, filter)))
    ensures shape == if plan.Single? then Table(TableScan(columns, |types|, [], Any))
                     else Union(seq(|plan.union.plans|, _ => TableScan(columns, |types|, [], Any)), Any)
  {
    hide Planner.PlannableQuery, Planner.UnionInSight, Planner.OneDisjunctEach, Planner.UnionBuilt, Fresh, Blank,
      ValidTable;
    match plan
    case Single(_) =>
      shape := Table(TableScan(columns, |types|, [], Any));
      leaf := Table(TableScan(columns, |types|, RowsOf(Planner.Selected(table, filter)), Any));
      if filter.Some? {
        SelectionIsTable(types, table, Planner.Satisfying(filter.value));
      }
      FreshTable(types, columns, Planner.Selected(table, filter));
      BlankLeaves(columns, |types|, RowsOf(Planner.Selected(table, filter)), []);
    case Union(union) =>
      shape := Union(seq(|union.plans|, _ => TableScan(columns, |types|, [], Any)), Any);
      leaf := Union(ScansOf(columns, |types|, union.outputs), Any);
      FreshUnion(types, columns, table, filter.value, union.outputs);
      BlankLeaves(columns, |types|, [], union.outputs);
  }

  method BuildOver(shape: Plan, groupby: Option<(seq<nat>, seq<AggrFunc>)>, having: Option<seq<seq<Pred>>>,
                   orderby: seq<SortSpec>)
    returns (built: Plan)
    requires Buildable(shape, groupby) && forall j :: 0 <= j < |orderby| ==> orderby[j].order != Any
    ensures built == Built(shape, groupby, having, orderby)
  {
    hide *;
    var builder := new SelectPlanBuilder(shape);
    builder.Build(groupby, having, orderby);
    built := builder.plan;
  }

  /** The plan over the rows that the scans have delivered in their direction. */
  method RunFetched(shape: Plan, ghost leaf: Plan, ghost types: ResultTypes, es: seq<Entry>, ghost selected: seq<Entry>,
                    groupby: Option<(seq<nat>, seq<AggrFunc>)>, having: Option<seq<seq<Pred>>>, orderby: seq<SortSpec>)
    returns (ok: bool, rows: seq<Row>)
    requires Fresh(leaf, types, RowsOf(selected)) && (groupby.Some? ==> Summable(types, groupby.value.1))
    requires forall j :: 0 <= j < |orderby| ==> orderby[j].order != Any
    requires shape == Built(Blank(leaf), groupby, having, orderby)
    requires es == Planner.InDirection(LeafDirection(shape), selected)
    ensures if ok then Answers(types, RowsOf(selected), groupby, having, orderby, rows)
            else SumRefused(types, RowsOf(selected), groupby)
  {
    hide *;
    FetchedFirst(leaf, types, selected, groupby, having, orderby);
    ok, rows := SelectBuilder.Run(Over(shape, RowsOf(es)));
    Answered(leaf, types, selected, groupby, having, orderby, ok, rows);
  }

  /**
   * A SELECT over one table: whatever plan the WHERE gets and whichever sorts are left out, the
   * rows come sorted by the ORDER BY list, and they are the rows that satisfy the predicate as
   * it was written, grouped with the aggregates over each group, without the groups that HAVING
   * refuses. It ends in an error only for a sum that is not accepted; `wide` says whether the
   * scans are in a union, where integers are of 64 bits. The scans get the direction that the
   * requests of GROUP BY and ORDER BY leave them.
   */
  method Execute(types: seq<ColType>, valueTypes: seq<ColType>, table: seq<Entry>, where: Option<Pred>,
                 groupby: Option<(seq<nat>, seq<AggrFunc>)>, having: Option<seq<seq<Pred>>>, orderby: seq<SortSpec>)
    returns (ok: bool, rows: seq<Row>, wide: bool)
    requires |types| > 0 && ValidTable(types, table)
    requires where.Some? ==>
               && Parsed(where.value) && QueryRewriter.NotInsListOneValue(where.value)
               && Planner.SupportedWhere(types, table, where.value)
    requires groupby.Some? ==> Summable(Known(types + valueTypes), groupby.value.1)
    requires forall j :: 0 <= j < |orderby| ==> orderby[j].order != Any
    ensures var selected := RowsOf(Planner.Selected(table, where));
            var columns := PlanTypes(types + valueTypes, wide);
            if ok then Answers(columns, selected, groupby, having, orderby, rows)
            else SumRefused(columns, selected, groupby)
  {
    hide Plans.UnionAllPlan.Sound, Plans.UnionAllPlan.Uniform, Planner.PlannableQuery, Planner.UnionInSight,
      Planner.OneDisjunctEach, ValidTable, Fresh, Blank, Built, Over, Coherent, Buildable, Summable, Delivers,
      SortedRows, Answers, SumRefused, LeafDirection, Planner.UnionBuilt, RowsOf, Planner.InDirection, Planner.Loose,
      PlanTypes, Known;
    var rewritten := if where.Some? then Some(QueryRewriter.Rewrite(where.value)) else None;
    Planner.SelectedAfterRewriting(table, where);
    if where.Some? {
      Planner.SupportedAsWritten(types, table, where.value);
    }
    var plan := Planner.BuildSelectPlan(types, table, rewritten);
    ghost var selected := Planner.Selected(table, where);
    assert selected == Planner.Selected(table, rewritten);
    wide := plan.Union?;
    var shape, leaf := ShapeOf(types, types + valueTypes, table, rewritten, plan);
    ghost var columns := PlanTypes(types + valueTypes, wide);
    if groupby.Some? {
      SummableEitherWay(types + valueTypes, groupby.value.1, wide);
    }
    FreshIsBuildable(leaf, columns, RowsOf(selected), groupby);
    var built := BuildOver(shape, groupby, having, orderby);
    var direction := LeafDirection(built);
    var entries;
    match plan {
      case Single(node) => entries := Planner.SelectFromNode(types, table, node, direction, selected);
      case Union(union) => entries := Planner.SelectFromUnion(types, union, direction, selected);
    }
    ok, rows := RunFetched(built, leaf, columns, entries, selected, groupby, having, orderby);
  }
}
