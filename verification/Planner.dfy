/** From a rewritten predicate to scans, filters and unions (planbuilder/LevelDBPlanBuilder.cpp). */
module Planner {
  import opened Multisets
  import opened Seqs
  import opened Values
  import opened Predicates
  import opened KeyRange
  import opened RangeOrder
  import opened Scan
  import opened Plans
  import QueryRewriter
  import QueryTexts
  import StdSort

  /** The rows that satisfy a predicate: what every plan has to deliver. */
  ghost function Satisfying(p: Pred): Entry -> bool {
    (e: Entry) => Sat(p, e.Row())
  }

  /**
   * A conjunction the planner is right about: comparisons whose key constants fit, each used
   * bound the tightest of the leaves with its text, unless the range holds no key.
   */
  ghost predicate Plannable(types: seq<ColType>, p: Pred) {
    && !HasOr(p) && !HasIn(p) && KeyConstantsFit(types, Leaves(p))
    && RangeOf(types, Leaves(p)).HasKeys(|types|) && TextsDoNoHarm(types, Leaves(p))
  }

  /** Some leaf is not solved by the search range. */
  predicate NeedFilter(p: Pred, solved: set<string>)
    requires !HasOr(p)
  {
    if p.And? then NeedFilter(p.left, solved) || NeedFilter(p.right, solved)
    else TextOf(p) !in solved
  }

  /** A filter is planned exactly when the residual conjunction is not empty. */
  lemma {:induction false} NeedFilterExactly(p: Pred, solved: set<string>)
    requires !HasOr(p)
    ensures NeedFilter(p, solved) <==> Residual(p, solved) != []
  {
    if p.And? {
      NeedFilterExactly(p.left, solved);
      NeedFilterExactly(p.right, solved);
      FilterAppend(Leaves(p.left), Leaves(p.right), Unsolved(solved));
    } else {
      FilterHead(p, [], Unsolved(solved));
      assert [p] + [] == [p];
    }
  }

  lemma {:induction false} LeavesAreComparisons(p: Pred)
    requires !HasOr(p) && !HasIn(p)
    ensures forall q :: q in Leaves(p) ==> q.Cmp?
  {
    if p.And? {
      LeavesAreComparisons(p.left);
      LeavesAreComparisons(p.right);
    }
  }

  /** A conjunction holds on a row exactly when all its leaves hold. */
  lemma SatLeaves(p: Pred, row: seq<Value>)
    requires !HasOr(p)
    ensures Sat(p, row) <==> forall q :: q in Leaves(p) ==> SatLeaf(q, row)
  {
    SatIsEvalBy(p, row);
    ConjunctionMeaning(p, OnRow(row));
    assert forall q: Pred :: OnRow(row)(q) == SatLeaf(q, row);
  }

  /**
   * Splitting a conjunction loses nothing: a row is in the key range and passes the residual
   * filter exactly when it satisfies the conjunction.
   */
  lemma SplitLosesNothing(types: seq<ColType>, p: Pred, e: Entry)
    requires Plannable(types, p) && StorableRow(types, e.key)
    ensures RangeOf(types, Leaves(p)).Contains(e.key) && AllHold(Residual(p, SolvedOf(|types|, Leaves(p))), e.Row())
            <==> Sat(p, e.Row())
  {
    var (leaves, row, solved) := (Leaves(p), e.Row(), SolvedOf(|types|, Leaves(p)));
    LeavesAreComparisons(p);
    SatLeaves(p, row);
    assert row[..|types|] == e.key;
    HarmlessIsSolved(types, leaves, row);
    ResidualMeaning(p, solved, row);
  }

  /** Comparisons that share their text, and so their operator and their key column. */
  predicate OneText(keys: nat, leaves: seq<Pred>, op: CmpOp, col: nat, text: string) {
    && leaves != [] && col < keys
    && forall q :: q in leaves ==>
         q.Cmp? && q.text == text && BoundOf(keys, q).Bound? && BoundOf(keys, q).op == op && BoundOf(keys, q).col == col
  }

  /** On every key the range and the residual comparisons select what all the comparisons select. */
  ghost predicate SplitIsRight(types: seq<ColType>, leaves: seq<Pred>)
    requires RangeOf(types, leaves).HasKeys(|types|)
  {
    forall key :: StorableRow(types, key) ==>
      (RangeOf(types, leaves).Contains(key) && AllHold(Filter(leaves, Unsolved(SolvedOf(|types|, leaves))), key)
       <==> forall q :: q in leaves ==> SatLeaf(q, key))
  }

  function LastBound(keys: nat, leaves: seq<Pred>): Bound
    requires leaves != []
  {
    BoundOf(keys, leaves[|leaves| - 1])
  }

  lemma OneTextSlots(keys: nat, leaves: seq<Pred>, op: CmpOp, col: nat, text: string)
    requires OneText(keys, leaves, op, col, text)
    ensures var (picks, last) := (PicksOf(keys, leaves), LastBound(keys, leaves));
            && last.Bound? && last.op == op && last.col == col && last.text == text
            && leaves[|leaves| - 1] in leaves && op in {EQ, GT, GE, LT, LE}
            && (forall i :: 0 <= i < keys ==>
                  picks.lower[i] == if op in {EQ, GT, GE} && col == i then last else NoBound)
            && picks.upper == if op in {LT, LE} then last else NoBound
  {
    var last := LastBound(keys, leaves);
    assert leaves[|leaves| - 1] in leaves;
    forall i | 0 <= i < keys
      ensures LowerPick(keys, leaves, i) == if op in {EQ, GT, GE} && col == i then last else NoBound
    {
    }
  }

  /** Of comparisons with one text only the last bound is used, and only on the first key column. */
  lemma OneTextPicks(keys: nat, leaves: seq<Pred>, op: CmpOp, col: nat, text: string)
    requires OneText(keys, leaves, op, col, text)
    ensures var (picks, last) := (PicksOf(keys, leaves), LastBound(keys, leaves));
            && last.Bound? && last.op == op && last.col == col && last.text == text
            && leaves[|leaves| - 1] in leaves && op in {EQ, GT, GE, LT, LE}
            && (col == 0 ==> last in picks.Used() && picks.Solved() == {text}
                             && forall b :: b in picks.Used() ==> b in {NoBound, last})
            && (col > 0 ==> picks.Solved() == {} && forall b :: b in picks.Used() ==> b == NoBound)
  {
    OneTextSlots(keys, leaves, op, col, text);
    hide LowerPick, UpperPick, OneText;
    var (picks, last) := (PicksOf(keys, leaves), LastBound(keys, leaves));
    assert col == 0 && keys > 1 ==> !IsEq(picks.lower[1]);
    assert op == EQ && col == 0 ==> picks.EqFrom(1) == 1;
    assert picks.EqCount() == if op == EQ && col == 0 then 1 else 0;
    assert picks.EqTexts(0) == {};
    assert picks.EqCount() == 1 ==> picks.lower[..1] == [last] && picks.EqTexts(1) == picks.EqTexts(0) + {text};
  }

  /**
   * Solved comparisons are remembered by their text, so of comparisons with one text, as
   * parameters make them, only the last one counts. On the first key column that is right on
   * every key exactly when the last one is the tightest: for `=` when all the values are equal,
   * for `>` and `>=` when no value is above the last, for `<` and `<=` when none is below it. On
   * other columns nothing is solved, and the filter keeps all of them.
   */
  lemma OneTextExactly(types: seq<ColType>, leaves: seq<Pred>, op: CmpOp, col: nat, text: string)
    requires OneText(|types|, leaves, op, col, text) && KeyConstantsFit(types, leaves)
    ensures RangeOf(types, leaves).HasKeys(|types|)
    ensures SplitIsRight(types, leaves) <==>
            col > 0 || forall q :: q in leaves ==> LastIsTightest(op, LastBound(|types|, leaves), BoundOf(|types|, q))
  {
    hide RangeOf, Picks.Used, Picks.Solved, LowerPick, UpperPick, LastBound, NoTighter;
    var (keys, picks) := (|types|, PicksOf(|types|, leaves));
    RangeHasKeys(types, leaves);
    OneTextPicks(keys, leaves, op, col, text);
    if col > 0 {
      FilterAll(leaves, Unsolved(SolvedOf(keys, leaves)));
      NothingSolved(types, leaves);
      assert forall j :: 0 <= j < |leaves| ==> leaves[j] in leaves;
    } else {
      FilterNone(leaves, Unsolved(SolvedOf(keys, leaves)));
      forall key | StorableRow(types, key)
        ensures IntervalIsSolved(types, leaves, key) <==>
                (RangeOf(types, leaves).Contains(key) <==> forall q :: q in leaves ==> SatLeaf(q, key))
      {
        assert key[..keys] == key;
      }
      OneTextOnFirstColumn(types, leaves, op, text);
    }
  }

  /** `last` is at least as tight as another bound with its operator. */
  predicate LastIsTightest(op: CmpOp, last: Bound, other: Bound) {
    last.Bound? && other.Bound? && last.op == op && NoTighter(last, other.value)
  }

  lemma RangeHasKeys(types: seq<ColType>, leaves: seq<Pred>)
    ensures RangeOf(types, leaves).HasKeys(|types|)
  {
  }

  lemma NothingSolved(types: seq<ColType>, leaves: seq<Pred>)
    requires KeyConstantsFit(types, leaves) && forall b :: b in PicksOf(|types|, leaves).Used() ==> b == NoBound
    ensures RangeOf(types, leaves).HasKeys(|types|)
    ensures forall key :: StorableRow(types, key) ==> RangeOf(types, leaves).Contains(key)
  {
    PicksFit(types, leaves);
    SolvedAreUsed(PicksOf(|types|, leaves));
    forall key | StorableRow(types, key) ensures RangeOf(types, leaves).Contains(key) {
      RangeMeaning(types, PicksOf(|types|, leaves), key);
    }
  }

  /** A key with a given first column. */
  function KeyStarting(types: seq<ColType>, v: Value): (key: seq<Value>)
    requires types != [] && Storable(types[0], v)
    ensures StorableRow(types, key) && key[0] == v
  {
    seq(|types|, i requires 0 <= i < |types| => if i == 0 then v else MinValue(types[i]))
  }

  lemma OneTextOnFirstColumn(types: seq<ColType>, leaves: seq<Pred>, op: CmpOp, text: string)
    requires OneText(|types|, leaves, op, 0, text) && KeyConstantsFit(types, leaves)
    requires RangeOf(types, leaves).HasKeys(|types|)
    ensures (forall key :: StorableRow(types, key) ==> IntervalIsSolved(types, leaves, key)) <==>
            forall q :: q in leaves ==> LastIsTightest(op, LastBound(|types|, leaves), BoundOf(|types|, q))
  {
    hide RangeOf, Picks.Used, Picks.Solved, LowerPick, UpperPick, NoTighter, Holds, IntervalIsSolved, LastBound;
    var (keys, picks, last) := (|types|, PicksOf(|types|, leaves), LastBound(|types|, leaves));
    OneTextPicks(keys, leaves, op, 0, text);
    if forall q :: q in leaves ==> LastIsTightest(op, last, BoundOf(keys, q)) {
      forall key | StorableRow(types, key) ensures IntervalIsSolved(types, leaves, key) {
        assert key[..keys] == key;
        IntervalMeansSolved(types, leaves, key);
      }
    } else {
      var q :| q in leaves && !LastIsTightest(op, last, BoundOf(keys, q));
      OneTextFails(types, leaves, op, text, q);
    }
  }

  lemma OneTextFails(types: seq<ColType>, leaves: seq<Pred>, op: CmpOp, text: string, q: Pred)
    requires OneText(|types|, leaves, op, 0, text) && KeyConstantsFit(types, leaves)
    requires RangeOf(types, leaves).HasKeys(|types|)
    requires q in leaves && !LastIsTightest(op, LastBound(|types|, leaves), BoundOf(|types|, q))
    ensures exists key :: StorableRow(types, key) && !IntervalIsSolved(types, leaves, key)
  {
    hide Picks.Used, Picks.Solved, LowerPick, UpperPick, Range.Contains, Picks.ToRange;
    var (keys, picks, last) := (|types|, PicksOf(|types|, leaves), LastBound(|types|, leaves));
    OneTextPicks(keys, leaves, op, 0, text);
    var v := BoundOf(keys, q).value;
    CompareOrder(last.value, last.value);
    CompareOrder(last.value, v);
    var key := KeyStarting(types, if op in {GT, LT} then v else last.value);
    PicksFit(types, leaves);
    SolvedAreUsed(picks);
    var bad := UncoveredFails(types, leaves, last, q, key);
    RangeMeaning(types, picks, bad);
    assert bad[..keys] == bad && !IntervalIsSolved(types, leaves, bad);
  }

  /** `k = ?` on the first key column, with its bound value. */
  function KeyIsParameter(v: Value): Pred {
    Cmp(EQ, Column(0, "k"), Constant(v, "?"), "k = ?")
  }

  /** `k = ? AND k = ?` is planned rightly exactly when both parameters have the same value. */
  lemma SameTextLosesAPredicate(v: Value, w: Value)
    requires Storable(Int64, v) && Storable(Int64, w)
    ensures var (types, p) := ([Int64], And(KeyIsParameter(v), KeyIsParameter(w)));
            && !HasOr(p) && !HasIn(p) && KeyConstantsFit(types, Leaves(p)) && RangeOf(types, Leaves(p)).HasKeys(1)
            && (SplitIsRight(types, Leaves(p)) <==> v == w)
  {
    var leaves := [KeyIsParameter(v), KeyIsParameter(w)];
    LeavesOfTwo(KeyIsParameter(v), KeyIsParameter(w));
    assert leaves[0] in leaves && leaves[1] in leaves;
    OneTextExactly([Int64], leaves, EQ, 0, "k = ?");
  }

  lemma LeavesOfTwo(a: Pred, b: Pred)
    requires a.Cmp? && b.Cmp?
    ensures Leaves(And(a, b)) == [a, b]
  {
  }

  lemma ResidualMeaning(p: Pred, solved: set<string>, row: seq<Value>)
    ensures AllHold(Residual(p, solved), row) <==>
            forall q :: q in Leaves(p) && TextOf(q) !in solved ==> SatLeaf(q, row)
  {
    var residual := Residual(p, solved);
    if AllHold(residual, row) {
      forall q | q in Leaves(p) && TextOf(q) !in solved ensures SatLeaf(q, row) {
        FilterKeepsMembers(Leaves(p), Unsolved(solved), q);
        var j :| 0 <= j < |residual| && residual[j] == q;
      }
    } else {
      var j :| 0 <= j < |residual| && !SatLeaf(residual[j], row);
      assert residual[j] in residual;
    }
  }

  // ---------- one scan with its filter ----------

  /** A fresh scan, with the filter that the predicate needs above it. */
  ghost predicate ScanFor(node: ScanNode, types: seq<ColType>, table: seq<Entry>, p: Pred, solved: set<string>)
    reads node.Base(), if node.Filtered? then {node.filter} else {}
  {
    var scan := node.Base();
    && scan.types == types && scan.table == table && scan.iter == null && scan.order == Any
    && if p.Or? then
         && solved == {} && scan.range == None && node.Filtered?
         && node.filter.predicatesInOr ==
            seq(|p.children|, i requires 0 <= i < |p.children| => Residual(p.children[i], {}))
       else
         && !HasOr(p)
         && scan.range == Some(RangeOf(types, Leaves(p))) && solved == SolvedOf(|types|, Leaves(p))
         && (node.Filtered? <==> Residual(p, solved) != [])
         && (node.Filtered? ==> node.filter.predicatesInOr == [Residual(p, solved)])
  }

  method MakeScanPlan(types: seq<ColType>, table: seq<Entry>, p: Pred) returns (node: ScanNode, solved: set<string>)
    requires if p.Or? then forall i :: 0 <= i < |p.children| ==> !HasOr(p.children[i]) else !HasOr(p)
    ensures fresh(node.Base()) && (node.Filtered? ==> fresh(node.filter))
    ensures ScanFor(node, types, table, p, solved) && solved == if p.Or? then {} else SolvedOf(|types|, Leaves(p))
  {
    var scan := new LevelDBScanPlan(types, table);
    if p.Or? {
      var filter := new FilterPlan(scan);
      for i := 0 to |p.children|
        invariant scan.iter == null && scan.order == Any && scan.range == None
        invariant filter.predicatesInOr == seq(i, k requires 0 <= k < i => Residual(p.children[k], {}))
      {
        var _ := filter.AddPredicate(p.children[i], {});
      }
      return Filtered(filter), {};
    }
    solved := scan.SetPredicate(p);
    NeedFilterExactly(p, solved);
    if NeedFilter(p, solved) {
      var filter := new FilterPlan(scan);
      var hasFilter := filter.AddPredicate(p, solved);
      assert hasFilter;
      node := Filtered(filter);
    } else {
      node := Plain(scan);
    }
  }

  /** A conjunction's scan is sound and delivers the rows that satisfy it. */
  lemma ConjunctionDelivers(node: ScanNode, types: seq<ColType>, table: seq<Entry>, p: Pred, solved: set<string>)
    requires ScanFor(node, types, table, p, solved) && !p.Or?
    requires Plannable(types, p) && ValidTable(types, table)
    ensures node.Base().Sound() && node.Output() == Filter(table, Satisfying(p))
  {
    PicksFit(types, Leaves(p));
    RangeIsValid(types, PicksOf(|types|, Leaves(p)));
    RangeAndResidual(types, table, p);
  }

  /** At the level of rows: the range and then the residual select what the conjunction selects. */
  lemma RangeAndResidual(types: seq<ColType>, table: seq<Entry>, p: Pred)
    requires Plannable(types, p) && ValidTable(types, table) && RangeOf(types, Leaves(p)).Valid(types)
    ensures var (r, residual) := (RangeOf(types, Leaves(p)), Residual(p, SolvedOf(|types|, Leaves(p))));
            && Scan.Keyed(r, table)
            && Filter(ScanOutput(r, table, Any), Accepts([residual])) == Filter(table, Satisfying(p))
            && (residual == [] ==> ScanOutput(r, table, Any) == Filter(table, Satisfying(p)))
  {
    var (r, residual) := (RangeOf(types, Leaves(p)), Residual(p, SolvedOf(|types|, Leaves(p))));
    HitsAreTheRowsInRange(types, r, table);
    FilterTwice(table, InRange(r), Accepts([residual]));
    forall e | e in table ensures Both(InRange(r), Accepts([residual]))(e) == Satisfying(p)(e) {
      SelectsTheSame(types, p, e);
    }
    FilterSame(table, Both(InRange(r), Accepts([residual])), Satisfying(p));
    if residual == [] {
      AcceptsAll(Hits(r, table));
    }
  }

  lemma SelectsTheSame(types: seq<ColType>, p: Pred, e: Entry)
    requires Plannable(types, p) && StorableRow(types, e.key) && RangeOf(types, Leaves(p)).Valid(types)
    ensures var (r, residual) := (RangeOf(types, Leaves(p)), Residual(p, SolvedOf(|types|, Leaves(p))));
            Both(InRange(r), Accepts([residual]))(e) == Satisfying(p)(e)
  {
    var residual := Residual(p, SolvedOf(|types|, Leaves(p)));
    SplitLosesNothing(types, p, e);
    assert AnyHolds([residual], e.Row()) <==> AllHold([residual][0], e.Row());
  }

  lemma AcceptsAll(rows: seq<Entry>)
    ensures Filter(rows, Accepts([[]])) == rows
  {
    assert AllHold([[]][0], []);
    forall e | e in rows ensures Accepts([[]])(e) {
      assert AllHold([[]][0], e.Row());
    }
    FilterAll(rows, Accepts([[]]));
  }

  /** The fallback scans the whole table and keeps the rows that satisfy a disjunct. */
  lemma FallbackDelivers(node: ScanNode, types: seq<ColType>, table: seq<Entry>, p: Pred, solved: set<string>)
    requires ScanFor(node, types, table, p, solved) && p.Or?
    requires forall i :: 0 <= i < |p.children| ==> !HasOr(p.children[i])
    requires ValidTable(types, table)
    ensures node.Base().Sound() && node.Output() == Filter(table, Satisfying(p))
  {
    var ors := node.filter.predicatesInOr;
    forall e | e in table ensures Accepts(ors)(e) == Satisfying(p)(e) {
      forall i | 0 <= i < |ors| ensures AllHold(ors[i], e.Row()) == Sat(p.children[i], e.Row()) {
        ResidualMeaning(p.children[i], {}, e.Row());
        SatLeaves(p.children[i], e.Row());
      }
    }
    FilterSame(table, Accepts(ors), Satisfying(p));
  }

  // ---------- several ranges ----------

  ghost function SatisfyingOneOf(ds: seq<Pred>): Entry -> bool {
    (e: Entry) => exists i :: 0 <= i < |ds| && Sat(ds[i], e.Row())
  }

  /** Rows of one kind that all lie below the rows of another kind can be delivered in turn. */
  lemma MergeTwo(types: seq<ColType>, es: seq<Entry>, f: Entry -> bool, g: Entry -> bool)
    requires ValidTable(types, es)
    requires forall x, y :: x in es && y in es && f(x) && g(y) ==> |x.key| == |y.key| && LexCompare(x.key, y.key) < 0
    ensures Filter(es, f) + Filter(es, g) == Filter(es, Either(f, g))
  {
    forall i, j | 0 <= i <= j < |es| && g(es[i]) ensures !f(es[j]) {
      LexOrder(es[i].key, es[j].key);
      assert es[i] in es && es[j] in es;
    }
    FilterInTurn(es, f, g);
  }

  /** The rows of each conjunction, in turn. */
  ghost function RowsInTurn(table: seq<Entry>, ds: seq<Pred>): seq<seq<Entry>> {
    seq(|ds|, i requires 0 <= i < |ds| => Filter(table, Satisfying(ds[i])))
  }

  function RangesOf(types: seq<ColType>, ds: seq<Pred>): seq<Range> {
    seq(|ds|, i requires 0 <= i < |ds| => RangeOf(types, Leaves(ds[i])))
  }

  /** Rows of an earlier conjunction are below the rows of a later one. */
  ghost predicate InOrder(table: seq<Entry>, ds: seq<Pred>) {
    forall i, j, x, y ::
      0 <= i < j < |ds| && x in table && y in table && Sat(ds[i], x.Row()) && Sat(ds[j], y.Row()) ==>
        |x.key| == |y.key| && LexCompare(x.key, y.key) < 0
  }

  /**
   * Conjunctions whose rows are in order: these rows in turn are the rows that satisfy any of
   * the conjunctions, each exactly once and in key order.
   */
  lemma {:induction false} InTurnIsAll(types: seq<ColType>, table: seq<Entry>, ds: seq<Pred>)
    requires ValidTable(types, table) && InOrder(table, ds)
    ensures Concat(RowsInTurn(table, ds)) == Filter(table, SatisfyingOneOf(ds))
  {
    hide ValidTable, Sat;
    if ds == [] {
      FilterNone(table, SatisfyingOneOf(ds));
    } else {
      var init := ds[..|ds| - 1];
      var last := ds[|ds| - 1];
      assert ds == init + [last] && ds[|init|] == last;
      InTurnIsAll(types, table, init);
      MergeTwo(types, table, SatisfyingOneOf(init), Satisfying(last));
      OneMoreDisjunct(table, init, last);
    }
  }

  /** The rows in turn of one more conjunction, and what its rows add to the selection. */
  lemma OneMoreDisjunct(table: seq<Entry>, init: seq<Pred>, d: Pred)
    ensures Concat(RowsInTurn(table, init + [d])) == Concat(RowsInTurn(table, init)) + Filter(table, Satisfying(d))
    ensures Filter(table, Either(SatisfyingOneOf(init), Satisfying(d))) == Filter(table, SatisfyingOneOf(init + [d]))
  {
    var (ds, rows) := (init + [d], Filter(table, Satisfying(d)));
    assert RowsInTurn(table, ds) == RowsInTurn(table, init) + [rows];
    ConcatAppend(RowsInTurn(table, init), [rows]);
    assert Concat([rows]) == rows + Concat([]);
    forall e | e in table
      ensures Either(SatisfyingOneOf(init), Satisfying(d))(e) == SatisfyingOneOf(ds)(e)
    {
      assert ds[|init|] == d && forall i :: 0 <= i < |init| ==> ds[i] == init[i];
    }
    FilterSame(table, Either(SatisfyingOneOf(init), Satisfying(d)), SatisfyingOneOf(ds));
  }

  lemma DisjunctsApart(types: seq<ColType>, ds: seq<Pred>, i: nat, j: nat, x: Entry, y: Entry)
    requires i < j < |ds| && Plannable(types, ds[i]) && Plannable(types, ds[j])
    requires RangeOrder.HaveKeys(types, RangesOf(types, ds)) && NonDegenerateApart(types, RangesOf(types, ds))
    requires StorableRow(types, x.key) && StorableRow(types, y.key)
    requires Sat(ds[i], x.Row()) && Sat(ds[j], y.Row())
    ensures LexCompare(x.key, y.key) < 0
  {
    var (a, b) := (RangesOf(types, ds)[i], RangesOf(types, ds)[j]);
    PicksFit(types, Leaves(ds[i]));
    PicksFit(types, Leaves(ds[j]));
    RangeIsValid(types, PicksOf(|types|, Leaves(ds[i])));
    RangeIsValid(types, PicksOf(|types|, Leaves(ds[j])));
    SplitLosesNothing(types, ds[i], x);
    SplitLosesNothing(types, ds[j], y);
    Between(types, a, x.key);
    Between(types, b, y.key);
    ApartMeansBelow(types, a, b, x.key, y.key);
  }

  // ---------- building and running the plan of a table ----------

  datatype QueryPlan = Single(node: ScanNode) | Union(union: UnionAllPlan)

  /** `compareStart` below zero, on indices of ranges. */
  function StartsBefore(ranges: seq<Range>): (nat, nat) -> bool {
    (a: nat, b: nat) =>
      a < |ranges| && b < |ranges| && |ranges[a].start| == |ranges[b].start| && ranges[a].CompareStart(ranges[b]) < 0
  }

  lemma StartsBeforeIsWeakOrder(types: seq<ColType>, ranges: seq<Range>)
    requires RangeOrder.HaveKeys(types, ranges)
    ensures StdSort.StrictWeakOrder(StartsBefore(ranges), |ranges|)
  {
    forall a, b | 0 <= a < |ranges| && 0 <= b < |ranges|
      ensures ranges[a].CompareStart(ranges[b]) == -ranges[b].CompareStart(ranges[a])
    {
      LexOrder(ranges[a].start, ranges[b].start);
    }
    forall a, b, c | 0 <= a < |ranges| && 0 <= b < |ranges| && 0 <= c < |ranges|
      && !StartsBefore(ranges)(a, b) && !StartsBefore(ranges)(b, c)
      ensures !StartsBefore(ranges)(a, c)
    {
      if !ranges[a].seekToFirst && !ranges[b].seekToFirst && !ranges[c].seekToFirst {
        LexOrder(ranges[a].start, ranges[b].start);
        LexOrder(ranges[b].start, ranges[c].start);
        LexOrder(ranges[a].start, ranges[c].start);
        LexTransitive(ranges[c].start, ranges[b].start, ranges[a].start);
      }
    }
  }

  /** The scans of all the disjuncts, or none when one of them would scan the whole table. */
  method MakeRangeScans(types: seq<ColType>, table: seq<Entry>, ds: seq<Pred>) returns (nodes: Option<seq<ScanNode>>)
    requires forall i :: 0 <= i < |ds| ==> !ds[i].Or? && !HasOr(ds[i])
    ensures nodes == None <==> exists i :: 0 <= i < |ds| && SolvedOf(|types|, Leaves(ds[i])) == {}
    ensures nodes.Some? ==>
              && |nodes.value| == |ds|
              && (forall i, j :: 0 <= i < j < |ds| ==> nodes.value[i].Base() != nodes.value[j].Base())
              && (forall i :: 0 <= i < |ds| ==>
                    && fresh(nodes.value[i].Base()) && (nodes.value[i].Filtered? ==> fresh(nodes.value[i].filter))
                    && ScanFor(nodes.value[i], types, table, ds[i], SolvedOf(|types|, Leaves(ds[i]))))
  {
    hide ScanFor, SolvedOf, Leaves, HasOr;
    var made: seq<ScanNode> := [];
    for i := 0 to |ds|
      invariant |made| == i
      invariant forall j, k :: 0 <= j < k < i ==> made[j].Base() != made[k].Base()
      invariant forall k :: 0 <= k < i ==> SolvedOf(|types|, Leaves(ds[k])) != {}
      invariant forall k :: 0 <= k < i ==>
                  && fresh(made[k].Base()) && (made[k].Filtered? ==> fresh(made[k].filter))
                  && allocated(made[k].Base()) && (made[k].Filtered? ==> allocated(made[k].filter))
      invariant forall k :: 0 <= k < i ==> ScanFor(made[k], types, table, ds[k], SolvedOf(|types|, Leaves(ds[k])))
    {
      var node, solved := MakeScanPlan(types, table, ds[i]);
      if solved == {} {
        return None;
      }
      made := made + [node];
    }
    return Some(made);
  }

  method OrderRanges(types: seq<ColType>, ranges: seq<Range>) returns (perm: seq<nat>)
    requires RangeOrder.HaveKeys(types, ranges)
    ensures StdSort.IsPermutation(perm, |ranges|)
    ensures forall i, j :: 0 <= i < j < |ranges| ==> ranges[perm[i]].CompareStart(ranges[perm[j]]) <= 0
  {
    StartsBeforeIsWeakOrder(types, ranges);
    perm := StdSort.Sort(StartsBefore(ranges), |ranges|);
    forall i, j | 0 <= i < j < |ranges| ensures ranges[perm[i]].CompareStart(ranges[perm[j]]) <= 0 {
      assert !StartsBefore(ranges)(perm[j], perm[i]);
      LexOrder(ranges[perm[i]].start, ranges[perm[j]].start);
    }
  }

  /** A scan of the table that has no direction yet and will deliver `out`. */
  ghost predicate Loose(node: ScanNode, types: seq<ColType>, table: seq<Entry>, out: seq<Entry>)
    reads node.Base()`range, node.Base()`order, if node.Filtered? then {node.filter} else {}
  {
    && node.Base().types == types && node.Base().table == table && node.Base().order == Any
    && node.Base().Sound() && node.Output() == out
  }

  /** The scan gets the shared cursor and joins the union. */
  method Attach(union: UnionAllPlan, types: seq<ColType>, node: ScanNode, cursor: LevelDBIterator,
                ghost out: seq<Entry>)
    requires union.Sound() && union.shared == cursor && union.Uniform(|types|, Any) && node.Base() !in union.scans
    requires Loose(node, types, cursor.entries, out)
    modifies union, node.Base()`iter
    ensures union.Sound() && union.Uniform(|types|, Any) && union.order == old(union.order)
    ensures union.plans == old(union.plans) + [node] && union.outputs == old(union.outputs) + [out]
    ensures union.scans == old(union.scans) + {node.Base()}
    ensures union.filters == old(union.filters) + if node.Filtered? then {node.filter} else {}
  {
    hide UnionAllPlan.Sound;
    node.Base().SetLevelDBIterator(cursor);
    union.AddChildPlan(node);
  }

  method MakeUnion(types: seq<ColType>, table: seq<Entry>, nodes: seq<ScanNode>, perm: seq<nat>,
                   ghost outs: seq<seq<Entry>>)
    returns (union: UnionAllPlan)
    requires |nodes| == |outs| > 0 && StdSort.IsPermutation(perm, |nodes|)
    requires forall i, j :: 0 <= i < j < |nodes| ==> nodes[i].Base() != nodes[j].Base()
    requires forall i :: 0 <= i < |nodes| ==> Loose(nodes[i], types, table, outs[i])
    modifies (set n | n in nodes :: n.Base())`iter
    ensures fresh(union) && fresh(union.shared) && union.order == Any
    ensures union.Sound() && union.plans != [] && union.Uniform(|types|, Any)
    ensures |union.outputs| == |outs| && forall i :: 0 <= i < |outs| ==> union.outputs[i] == outs[perm[i]]
    ensures forall s :: s in union.scans ==> exists k :: 0 <= k < |nodes| && nodes[k].Base() == s
    ensures forall f :: f in union.filters ==> exists k :: 0 <= k < |nodes| && nodes[k] == Filtered(f)
  {
    hide Loose, UnionAllPlan.Sound, UnionAllPlan.Uniform;
    var cursor := new LevelDBIterator(table);
    union := NewUnion(types, cursor);
    for i := 0 to |nodes|
      invariant union.Sound() && union.Uniform(|types|, Any)
      invariant union.order == Any && union.shared == cursor && |union.plans| == |union.outputs| == i
      invariant forall k :: 0 <= k < i ==> union.outputs[k] == outs[perm[k]]
      invariant forall s :: s in union.scans ==> exists k :: 0 <= k < i && nodes[perm[k]].Base() == s
      invariant forall f :: f in union.filters ==> exists k :: 0 <= k < i && nodes[perm[k]] == Filtered(f)
      invariant forall k :: 0 <= k < |nodes| ==> Loose(nodes[k], types, table, outs[k])
    {
      forall s | s in union.scans ensures s != nodes[perm[i]].Base() {
        var k :| 0 <= k < i && nodes[perm[k]].Base() == s;
      }
      Attach(union, types, nodes[perm[i]], cursor, outs[perm[i]]);
    }
  }

  method NewUnion(types: seq<ColType>, cursor: LevelDBIterator) returns (union: UnionAllPlan)
    ensures fresh(union) && union.shared == cursor && union.order == Any && union.plans == [] && union.outputs == []
    ensures union.scans == {} && union.filters == {} && union.Sound() && union.Uniform(|types|, Any)
  {
    union := new UnionAllPlan(cursor);
  }

  /** What a union of these conjunctions, in this order, satisfies when it has been built. */
  ghost predicate UnionBuilt(types: seq<ColType>, table: seq<Entry>, ds: seq<Pred>, perm: seq<nat>,
                             outs: seq<seq<Entry>>) {
    && StdSort.IsPermutation(perm, |ds|)
    && (forall i :: 0 <= i < |ds| ==> SolvedOf(|types|, Leaves(ds[i])) != {})
    && outs == RowsInTurn(table, StdSort.Permuted(ds, perm))
    && SortedByStart(types, RangesOf(types, StdSort.Permuted(ds, perm)))
    && NeighboursApart(types, RangesOf(types, StdSort.Permuted(ds, perm)))
  }

  /**
   * A union of range scans when every disjunct narrows the key and the sorted ranges are
   * apart; otherwise one scan of the table with all the disjuncts as its filter.
   */
  method BuildUnionAll(types: seq<ColType>, table: seq<Entry>, ds: seq<Pred>)
    returns (plan: QueryPlan, ghost perm: seq<nat>)
    requires ds != [] && ValidTable(types, table) && forall i :: 0 <= i < |ds| ==> Plannable(types, ds[i])
    ensures plan.Single? ==>
              && fresh(plan.node.Base()) && (plan.node.Filtered? ==> fresh(plan.node.filter))
              && plan.node.Base().iter == null
              && Loose(plan.node, types, table, Filter(table, SatisfyingOneOf(ds)))
    ensures plan.Union? ==>
              && fresh(plan.union) && fresh(plan.union.shared) && fresh(plan.union.scans) && fresh(plan.union.filters)
              && plan.union.Sound() && plan.union.plans != [] && plan.union.Uniform(|types|, Any)
              && plan.union.order == Any
              && UnionBuilt(types, table, ds, perm, plan.union.outputs)
    ensures plan.Single? ==>
              || (exists i :: 0 <= i < |ds| && SolvedOf(|types|, Leaves(ds[i])) == {})
              || (&& StdSort.IsPermutation(perm, |ds|)
                  && SortedByStart(types, RangesOf(types, StdSort.Permuted(ds, perm)))
                  && !NeighboursApart(types, RangesOf(types, StdSort.Permuted(ds, perm))))
  {
    hide Plannable, UnionAllPlan.Sound, SolvedOf, ScanFor, Loose, Satisfying;
    perm := [];
    PlannableHasNoOr(types, ds);
    var nodes := MakeRangeScans(types, table, ds);
    if nodes == None {
      var node := FullScan(types, table, ds);
      return Single(node), [];
    }
    ghost var outs := RowsInTurn(table, ds);
    var ranges := RangesOf(types, ds);
    forall i | 0 <= i < |ds| ensures Loose(nodes.value[i], types, table, outs[i]) {
      LooseConjunction(nodes.value[i], types, table, ds[i]);
    }
    RangesHaveKeys(types, ds);
    var order := OrderRanges(types, ranges);
    var apart := CheckNeighbours(types, ranges, order);
    SortedRanges(types, ds, order);
    if !apart {
      var node := FullScan(types, table, ds);
      return Single(node), order;
    }
    var union := MakeUnion(types, table, nodes.value, order, outs);
    assert union.outputs == RowsInTurn(table, StdSort.Permuted(ds, order));
    return Union(union), order;
  }

  method CheckNeighbours(types: seq<ColType>, ranges: seq<Range>, order: seq<nat>) returns (apart: bool)
    requires RangeOrder.HaveKeys(types, ranges) && StdSort.IsPermutation(order, |ranges|)
    ensures apart <==> forall i :: 1 <= i < |ranges| ==> ranges[order[i]].StartAfterEnd(ranges[order[i - 1]])
  {
    var i := 1;
    while i < |order|
      invariant forall k :: 1 <= k < i && k < |order| ==> ranges[order[k]].StartAfterEnd(ranges[order[k - 1]])
    {
      if !ranges[order[i]].StartAfterEnd(ranges[order[i - 1]]) {
        return false;
      }
      i := i + 1;
    }
    return true;
  }

  method FullScan(types: seq<ColType>, table: seq<Entry>, ds: seq<Pred>) returns (node: ScanNode)
    requires ValidTable(types, table) && forall i :: 0 <= i < |ds| ==> !HasOr(ds[i])
    ensures fresh(node.Base()) && (node.Filtered? ==> fresh(node.filter)) && node.Base().iter == null
    ensures Loose(node, types, table, Filter(table, SatisfyingOneOf(ds)))
  {
    var solved;
    node, solved := MakeScanPlan(types, table, Or(ds));
    FallbackDelivers(node, types, table, Or(ds), solved);
    FilterSame(table, Satisfying(Or(ds)), SatisfyingOneOf(ds));
  }

  lemma PlannableHasNoOr(types: seq<ColType>, ds: seq<Pred>)
    requires forall i :: 0 <= i < |ds| ==> Plannable(types, ds[i])
    ensures forall i :: 0 <= i < |ds| ==> !ds[i].Or? && !HasOr(ds[i])
  {
  }

  lemma LooseConjunction(node: ScanNode, types: seq<ColType>, table: seq<Entry>, p: Pred)
    requires ScanFor(node, types, table, p, SolvedOf(|types|, Leaves(p))) && !p.Or?
    requires Plannable(types, p) && ValidTable(types, table)
    ensures Loose(node, types, table, Filter(table, Satisfying(p)))
  {
    ConjunctionDelivers(node, types, table, p, SolvedOf(|types|, Leaves(p)));
  }

  lemma RangesHaveKeys(types: seq<ColType>, ds: seq<Pred>)
    ensures RangeOrder.HaveKeys(types, RangesOf(types, ds))
  {
  }

  lemma SortedRanges(types: seq<ColType>, ds: seq<Pred>, perm: seq<nat>)
    requires StdSort.IsPermutation(perm, |ds|) && forall i :: 0 <= i < |ds| ==> Plannable(types, ds[i])
    requires RangeOrder.HaveKeys(types, RangesOf(types, ds))
    requires forall i, j :: 0 <= i < j < |ds| ==>
               RangesOf(types, ds)[perm[i]].CompareStart(RangesOf(types, ds)[perm[j]]) <= 0
    ensures SortedByStart(types, RangesOf(types, StdSort.Permuted(ds, perm)))
    ensures NeighboursApart(types, RangesOf(types, StdSort.Permuted(ds, perm))) <==>
            forall i :: 1 <= i < |ds| ==>
              RangesOf(types, ds)[perm[i]].StartAfterEnd(RangesOf(types, ds)[perm[i - 1]])
  {
    var rs := RangesOf(types, StdSort.Permuted(ds, perm));
    forall i | 0 <= i < |rs| ensures rs[i] == RangesOf(types, ds)[perm[i]] && rs[i].Valid(types) {
      PicksFit(types, Leaves(ds[perm[i]]));
      RangeIsValid(types, PicksOf(|types|, Leaves(ds[perm[i]])));
    }
    RangesHaveKeys(types, StdSort.Permuted(ds, perm));
  }

  // ---------- when a union is right ----------

  /** No row of the table satisfies two of the conjunctions. */
  ghost predicate OneDisjunctEach(table: seq<Entry>, ds: seq<Pred>) {
    forall e, i, j :: e in table && 0 <= i < j < |ds| ==> !(Sat(ds[i], e.Row()) && Sat(ds[j], e.Row()))
  }

  /** The rows in turn hold a row as often as the table for each conjunction that it satisfies. */
  lemma {:induction false} OnceInTurn(table: seq<Entry>, ds: seq<Pred>, e: Entry, i: nat)
    requires i < |ds| && Sat(ds[i], e.Row())
    ensures multiset(Concat(RowsInTurn(table, ds)))[e] >= multiset(table)[e]
  {
    hide Sat, Concat, RowsInTurn;
    var (init, last) := (ds[..|ds| - 1], ds[|ds| - 1]);
    assert ds == init + [last];
    OneMoreDisjunct(table, init, last);
    FilterMultiset(table, Satisfying(last), e);
    if i < |init| {
      OnceInTurn(table, init, e, i);
    }
  }

  lemma {:induction false} TwiceInTurn(table: seq<Entry>, ds: seq<Pred>, e: Entry, i: nat, j: nat)
    requires i < j < |ds| && Sat(ds[i], e.Row()) && Sat(ds[j], e.Row())
    ensures multiset(Concat(RowsInTurn(table, ds)))[e] >= 2 * multiset(table)[e]
  {
    hide Sat, Concat, RowsInTurn;
    var (init, last) := (ds[..|ds| - 1], ds[|ds| - 1]);
    assert ds == init + [last];
    OneMoreDisjunct(table, init, last);
    FilterMultiset(table, Satisfying(last), e);
    if j < |init| {
      TwiceInTurn(table, init, e, i, j);
    } else {
      OnceInTurn(table, init, e, i);
    }
  }

  /** A row that satisfies two conjunctions is delivered too often. */
  lemma TwiceIsWrong(table: seq<Entry>, ds: seq<Pred>, e: Entry, i: nat, j: nat)
    requires e in table && i < j < |ds| && Sat(ds[i], e.Row()) && Sat(ds[j], e.Row())
    ensures Concat(RowsInTurn(table, ds)) != Filter(table, SatisfyingOneOf(ds))
  {
    hide Sat, Concat, RowsInTurn, Filter;
    TwiceInTurn(table, ds, e, i, j);
    FilterMultiset(table, SatisfyingOneOf(ds), e);
    assert e in multiset(table);
  }

  /** Where neighbours are apart, rows of two conjunctions are in order or are one row. */
  lemma BelowOrSame(types: seq<ColType>, table: seq<Entry>, ds: seq<Pred>, i: nat, j: nat, x: Entry, y: Entry)
    requires ValidTable(types, table) && i < j < |ds| && Plannable(types, ds[i]) && Plannable(types, ds[j])
    requires SortedByStart(types, RangesOf(types, ds)) && NeighboursApart(types, RangesOf(types, ds))
    requires x in table && y in table && Sat(ds[i], x.Row()) && Sat(ds[j], y.Row())
    ensures |x.key| == |y.key| && (LexCompare(x.key, y.key) < 0 || x == y)
  {
    hide Plannable, Sat;
    var (a, b) := (RangesOf(types, ds)[i], RangesOf(types, ds)[j]);
    SplitLosesNothing(types, ds[i], x);
    SplitLosesNothing(types, ds[j], y);
    Between(types, a, x.key);
    Between(types, b, y.key);
    EndsBeforeStarts(types, RangesOf(types, ds), i, j);
    LexTransitive(x.key, a.end, b.start);
    LexTransitive(x.key, b.start, y.key);
    LexOrder(x.key, y.key);
    LexOrder(x.key, x.key);
    if LexCompare(x.key, y.key) == 0 {
      SameKeySameRow(types, table, x, y);
    }
  }

  lemma SameKeySameRow(types: seq<ColType>, table: seq<Entry>, x: Entry, y: Entry)
    requires ValidTable(types, table) && x in table && y in table && LexCompare(x.key, x.key) == 0 && x.key == y.key
    ensures x == y
  {
    var m, n :| 0 <= m < |table| && 0 <= n < |table| && table[m] == x && table[n] == y;
    assert m < n || n < m || m == n;
  }

  /**
   * When the planner's check of the neighbours has passed, the rows of the ranges in turn are
   * the selection exactly when no row of the table satisfies two of the conjunctions.
   */
  lemma InTurnExactly(types: seq<ColType>, table: seq<Entry>, ds: seq<Pred>)
    requires ValidTable(types, table) && forall i :: 0 <= i < |ds| ==> Plannable(types, ds[i])
    requires SortedByStart(types, RangesOf(types, ds)) && NeighboursApart(types, RangesOf(types, ds))
    ensures Concat(RowsInTurn(table, ds)) == Filter(table, SatisfyingOneOf(ds)) <==> OneDisjunctEach(table, ds)
  {
    hide Plannable, Sat, SortedByStart, NeighboursApart;
    if OneDisjunctEach(table, ds) {
      forall i, j, x, y | 0 <= i < j < |ds| && x in table && y in table && Sat(ds[i], x.Row()) && Sat(ds[j], y.Row())
        ensures |x.key| == |y.key| && LexCompare(x.key, y.key) < 0
      {
        BelowOrSame(types, table, ds, i, j, x, y);
      }
      InTurnIsAll(types, table, ds);
    } else {
      var e, i, j :| e in table && 0 <= i < j < |ds| && Sat(ds[i], e.Row()) && Sat(ds[j], e.Row());
      TwiceIsWrong(table, ds, e, i, j);
    }
  }

  /** Whether a row satisfies one of the conjunctions, or two, does not depend on their order. */
  lemma OrderOfDisjuncts(table: seq<Entry>, ds: seq<Pred>, perm: seq<nat>)
    requires StdSort.IsPermutation(perm, |ds|)
    ensures Filter(table, SatisfyingOneOf(StdSort.Permuted(ds, perm))) == Filter(table, SatisfyingOneOf(ds))
    ensures OneDisjunctEach(table, StdSort.Permuted(ds, perm)) <==> OneDisjunctEach(table, ds)
  {
    hide Sat, OneDisjunctEach, Filter, SatisfyingOneOf;
    var sorted := StdSort.Permuted(ds, perm);
    forall e | e in table ensures SatisfyingOneOf(sorted)(e) == SatisfyingOneOf(ds)(e) {
      OneOfInOrder(ds, perm, e);
    }
    FilterSame(table, SatisfyingOneOf(sorted), SatisfyingOneOf(ds));
    TwoOfInOrder(table, ds, perm);
  }

  lemma OneOfInOrder(ds: seq<Pred>, perm: seq<nat>, e: Entry)
    requires StdSort.IsPermutation(perm, |ds|)
    ensures SatisfyingOneOf(StdSort.Permuted(ds, perm))(e) == SatisfyingOneOf(ds)(e)
  {
    hide Sat;
    if k :| 0 <= k < |ds| && Sat(ds[k], e.Row()) {
      var i := PlaceOf(perm, |ds|, k);
      assert StdSort.Permuted(ds, perm)[i] == ds[k];
    }
  }

  lemma TwoOfInOrder(table: seq<Entry>, ds: seq<Pred>, perm: seq<nat>)
    requires StdSort.IsPermutation(perm, |ds|)
    ensures OneDisjunctEach(table, StdSort.Permuted(ds, perm)) <==> OneDisjunctEach(table, ds)
  {
    hide Sat;
    var sorted := StdSort.Permuted(ds, perm);
    if e, k, l :| e in table && 0 <= k < l < |ds| && Sat(ds[k], e.Row()) && Sat(ds[l], e.Row()) {
      var i := PlaceOf(perm, |ds|, k);
      var j := PlaceOf(perm, |ds|, l);
      assert sorted[i] == ds[k] && sorted[j] == ds[l] && (i < j || j < i);
    }
  }

  lemma PlaceOf(perm: seq<nat>, n: nat, k: nat) returns (i: nat)
    requires StdSort.IsPermutation(perm, n) && k < n
    ensures i < n && perm[i] == k
  {
    StdSort.PermutationReaches(perm, n, k);
    i :| 0 <= i < n && perm[i] == k;
  }

  /**
   * A union that was built delivers the rows that satisfy one of the disjuncts, each once and in
   * key order, exactly when no row of the table satisfies two of them.
   */
  lemma UnionOfRangesDelivers(types: seq<ColType>, table: seq<Entry>, ds: seq<Pred>, perm: seq<nat>,
                              outs: seq<seq<Entry>>)
    requires ValidTable(types, table) && forall i :: 0 <= i < |ds| ==> Plannable(types, ds[i])
    requires UnionBuilt(types, table, ds, perm, outs)
    ensures Concat(outs) == Filter(table, SatisfyingOneOf(ds)) <==> OneDisjunctEach(table, ds)
  {
    hide Plannable, Sat, SortedByStart, NeighboursApart, OneDisjunctEach;
    InTurnExactly(types, table, StdSort.Permuted(ds, perm));
    OrderOfDisjuncts(table, ds, perm);
  }

  /**
   * Whichever order std::sort leaves the ranges in: when neighbours are apart, so are all ranges
   * that are not degenerate.
   */
  ghost predicate NoHiddenOverlap(types: seq<ColType>, ds: seq<Pred>) {
    forall perm :: StdSort.IsPermutation(perm, |ds|)
                   && SortedByStart(types, RangesOf(types, StdSort.Permuted(ds, perm)))
                   && NeighboursApart(types, RangesOf(types, StdSort.Permuted(ds, perm))) ==>
      NonDegenerateApart(types, RangesOf(types, StdSort.Permuted(ds, perm)))
  }

  /** The ranges of the conjunctions let a union be built. */
  ghost predicate UnionInSight(types: seq<ColType>, ds: seq<Pred>) {
    && (forall i :: 0 <= i < |ds| ==> SolvedOf(|types|, Leaves(ds[i])) != {})
    && exists perm :: InCheckedOrder(types, ds, perm)
  }

  ghost predicate InCheckedOrder(types: seq<ColType>, ds: seq<Pred>, perm: seq<nat>) {
    && StdSort.IsPermutation(perm, |ds|)
    && SortedByStart(types, RangesOf(types, StdSort.Permuted(ds, perm)))
    && NeighboursApart(types, RangesOf(types, StdSort.Permuted(ds, perm)))
  }

  /** Whatever the table holds, no row satisfies two conjunctions when no overlap is hidden from the check. */
  lemma RangesSuffice(types: seq<ColType>, table: seq<Entry>, ds: seq<Pred>)
    requires ValidTable(types, table) && forall i :: 0 <= i < |ds| ==> Plannable(types, ds[i])
    requires UnionInSight(types, ds) && NoHiddenOverlap(types, ds)
    ensures OneDisjunctEach(table, ds)
  {
    hide Plannable, SortedByStart, NeighboursApart, NonDegenerateApart, PairwiseDisjoint, OneDisjunctEach, ValidTable;
    var perm :| InCheckedOrder(types, ds, perm);
    var sorted := StdSort.Permuted(ds, perm);
    DisjointExactly(types, RangesOf(types, sorted));
    DisjointSuffices(types, table, sorted);
    OrderOfDisjuncts(table, ds, perm);
  }

  lemma DisjointSuffices(types: seq<ColType>, table: seq<Entry>, ds: seq<Pred>)
    requires ValidTable(types, table) && forall i :: 0 <= i < |ds| ==> Plannable(types, ds[i])
    requires RangeOrder.HaveKeys(types, RangesOf(types, ds)) && PairwiseDisjoint(types, RangesOf(types, ds))
    ensures OneDisjunctEach(table, ds)
  {
    hide Plannable, Sat, PairwiseDisjoint;
    forall e, i, j | e in table && 0 <= i < j < |ds| ensures !(Sat(ds[i], e.Row()) && Sat(ds[j], e.Row())) {
      NotBothRanges(types, ds, i, j, e);
    }
  }

  lemma NotBothRanges(types: seq<ColType>, ds: seq<Pred>, i: nat, j: nat, e: Entry)
    requires i < j < |ds| && Plannable(types, ds[i]) && Plannable(types, ds[j]) && StorableRow(types, e.key)
    requires RangeOrder.HaveKeys(types, RangesOf(types, ds)) && PairwiseDisjoint(types, RangesOf(types, ds))
    ensures !(Sat(ds[i], e.Row()) && Sat(ds[j], e.Row()))
  {
    hide Plannable, Sat, PairwiseDisjoint;
    SplitLosesNothing(types, ds[i], e);
    SplitLosesNothing(types, ds[j], e);
    NoKeyTwice(types, RangesOf(types, ds), i, j, e.key);
  }

  lemma NoKeyTwice(types: seq<ColType>, rs: seq<Range>, i: nat, j: nat, key: seq<Value>)
    requires RangeOrder.HaveKeys(types, rs) && PairwiseDisjoint(types, rs) && i < j < |rs| && StorableRow(types, key)
    ensures !(rs[i].Contains(key) && rs[j].Contains(key))
  {
  }

  /** The ranges of the conjunctions that are not degenerate are apart from one another. */
  predicate RangesApart(types: seq<ColType>, ds: seq<Pred>) {
    forall i, j :: 0 <= i < |ds| && 0 <= j < |ds| && i != j ==>
      var (a, b) := (RangesOf(types, ds)[i], RangesOf(types, ds)[j]);
      a.HasKeys(|types|) && b.HasKeys(|types|) && EitherWayApart(a, b)
  }

  predicate NoDegenerateRange(types: seq<ColType>, ds: seq<Pred>) {
    forall i :: 0 <= i < |ds| ==> RangesOf(types, ds)[i].HasKeys(|types|) && RangesOf(types, ds)[i].NonDegenerate()
  }

  /** No overlap is hidden without degenerate ranges, and none with them when the others are apart. */
  lemma NothingHidden(types: seq<ColType>, ds: seq<Pred>)
    requires NoDegenerateRange(types, ds) || RangesApart(types, ds)
    ensures NoHiddenOverlap(types, ds)
  {
    forall perm | StdSort.IsPermutation(perm, |ds|)
                  && SortedByStart(types, RangesOf(types, StdSort.Permuted(ds, perm)))
                  && NeighboursApart(types, RangesOf(types, StdSort.Permuted(ds, perm)))
      ensures NonDegenerateApart(types, RangesOf(types, StdSort.Permuted(ds, perm)))
    {
      var rs := RangesOf(types, StdSort.Permuted(ds, perm));
      assert forall i :: 0 <= i < |rs| ==> rs[i] == RangesOf(types, ds)[perm[i]];
      if NoDegenerateRange(types, ds) {
        NeighboursSuffice(types, rs);
      } else {
        forall i, j | 0 <= i < j < |rs| ensures EitherWayApart(rs[i], rs[j]) {
          assert rs[i] == RangesOf(types, ds)[perm[i]] && rs[j] == RangesOf(types, ds)[perm[j]];
        }
        ApartInThisOrder(types, rs);
      }
    }
  }

  /**
   * No overlap is hidden exactly when, in whichever order std::sort leaves ranges that pass the
   * check, no key is in two of them.
   */
  lemma NothingHiddenExactly(types: seq<ColType>, ds: seq<Pred>)
    ensures NoHiddenOverlap(types, ds) <==>
            forall perm :: StdSort.IsPermutation(perm, |ds|)
                           && SortedByStart(types, RangesOf(types, StdSort.Permuted(ds, perm)))
                           && NeighboursApart(types, RangesOf(types, StdSort.Permuted(ds, perm))) ==>
              PairwiseDisjoint(types, RangesOf(types, StdSort.Permuted(ds, perm)))
  {
    hide PairwiseDisjoint, NonDegenerateApart;
    forall perm | StdSort.IsPermutation(perm, |ds|)
                  && SortedByStart(types, RangesOf(types, StdSort.Permuted(ds, perm)))
                  && NeighboursApart(types, RangesOf(types, StdSort.Permuted(ds, perm)))
      ensures PairwiseDisjoint(types, RangesOf(types, StdSort.Permuted(ds, perm))) <==>
              NonDegenerateApart(types, RangesOf(types, StdSort.Permuted(ds, perm)))
    {
      DisjointExactly(types, RangesOf(types, StdSort.Permuted(ds, perm)));
    }
  }

  /** The table with one row, whose key is v. */
  function OneRow(v: Value): Entry {
    Entry([v], [])
  }

  lemma OneRowIsTable(t: ColType, v: Value)
    requires Storable(t, v)
    ensures ValidTable([t], [OneRow(v)])
  {
  }

  lemma FilterOne(e: Entry, f: Entry -> bool)
    ensures Filter([e], f) == if f(e) then [e] else []
  {
    FilterHead(e, [], f);
    assert [e] + [] == [e];
  }

  /**
   * A hidden overlap delivers a row twice: `k <= v OR (k > v AND k < v) OR k >= v` is planned as
   * a union of three ranges, and from the table with the key v it delivers two rows.
   */
  lemma DegenerateRangeDeliversTwice(t: ColType, v: Value)
    requires Storable(t, v)
    ensures var (ds, table, outs) := ([UpTo(v), Nowhere(v), From(v)], [OneRow(v)], [[OneRow(v)], [], [OneRow(v)]]);
            && ValidTable([t], table) && (forall i :: 0 <= i < |ds| ==> Plannable([t], ds[i]))
            && UnionBuilt([t], table, ds, [0, 1, 2], outs)
            && Concat(outs) == [OneRow(v), OneRow(v)] && Filter(table, SatisfyingOneOf(ds)) == [OneRow(v)]
  {
    hide *;
    var (ds, e) := ([UpTo(v), Nowhere(v), From(v)], OneRow(v));
    assert ValidTable([t], [e]) by {
      OneRowIsTable(t, v);
    }
    EachIsPlannable(t, v);
    DegenerateRangeHidesOverlap(t, v);
    OneRowInTurn(v);
    assert StdSort.Permuted(ds, [0, 1, 2]) == ds && StdSort.IsPermutation([0, 1, 2], 3) by {
      IdentityOfThree(ds);
    }
    ThreeBuilt(t, v);
  }

  lemma IdentityOfThree(ds: seq<Pred>)
    requires |ds| == 3
    ensures StdSort.IsPermutation([0, 1, 2], 3) && StdSort.Permuted(ds, [0, 1, 2]) == ds
  {
  }

  lemma ThreeBuilt(t: ColType, v: Value)
    requires Storable(t, v)
    ensures UnionBuilt([t], [OneRow(v)], [UpTo(v), Nowhere(v), From(v)], [0, 1, 2], [[OneRow(v)], [], [OneRow(v)]])
  {
    hide SolvedOf, RangeOf, SortedByStart, NeighboursApart, RowsInTurn, Satisfying, NonDegenerateApart,
      PairwiseDisjoint, Plannable, Leaves, KeyIs, UpTo, Nowhere, From;
    var ds := [UpTo(v), Nowhere(v), From(v)];
    EachIsPlannable(t, v);
    DegenerateRangeHidesOverlap(t, v);
    OneRowInTurn(v);
    IdentityOfThree(ds);
    assert RangesOf([t], ds) == [RangeOn(t, UpTo(v)), RangeOn(t, Nowhere(v)), RangeOn(t, From(v))];
  }

  /** One comparison with a constant that fits its column is plannable. */
  lemma OneIsPlannable(t: ColType, op: CmpOp, v: Value, text: string)
    requires Storable(t, v)
    ensures Plannable([t], KeyIs(op, v, text))
  {
    hide SolvedOf, RangeOf, TextsCovered, PicksOf;
    var p := KeyIs(op, v, text);
    assert Leaves(p) == [p] && !HasOr(p) && !HasIn(p);
    assert TextsAgree([p]) && KeyConstantsFit([t], [p]);
    AgreeingTextsAreCovered(1, [p]);
    RangeHasKeys([t], [p]);
  }

  lemma NowhereIsPlannable(t: ColType, v: Value)
    requires Storable(t, v)
    ensures Plannable([t], Nowhere(v))
  {
    hide SolvedOf, RangeOf, TextsCovered, PicksOf;
    var (above, below) := (KeyIs(GT, v, "k > v"), KeyIs(LT, v, "k < v"));
    LeavesOfTwo(above, below);
    NowhereRange(t, v);
    AgreeingTextsAreCovered(1, Leaves(Nowhere(v)));
    RangeHasKeys([t], Leaves(Nowhere(v)));
    assert Leaves(Nowhere(v)) == [above, below];
    assert KeyConstantsFit([t], [above, below]);
    assert !HasOr(above) && !HasOr(below) && !HasIn(above) && !HasIn(below);
  }

  lemma EachIsPlannable(t: ColType, v: Value)
    requires Storable(t, v)
    ensures Plannable([t], UpTo(v)) && Plannable([t], Nowhere(v)) && Plannable([t], From(v))
    ensures forall p :: p in [UpTo(v), Nowhere(v), From(v)] ==> SolvedOf(1, Leaves(p)) != {}
  {
    hide SolvedOf, RangeOf, Plannable, Leaves, KeyIs, Nowhere;
    OneIsPlannable(t, LE, v, "k <= v");
    NowhereIsPlannable(t, v);
    OneIsPlannable(t, GE, v, "k >= v");
    assert UpTo(v) == KeyIs(LE, v, "k <= v") && From(v) == KeyIs(GE, v, "k >= v");
    EachSolves(t, v);
  }

  lemma EachSolves(t: ColType, v: Value)
    ensures forall p :: p in [UpTo(v), Nowhere(v), From(v)] ==> SolvedOf(1, Leaves(p)) != {}
  {
    hide SolvedOf, RangeOf, Leaves, KeyIs, UpTo, Nowhere, From;
    UpToRange(t, v);
    NowhereRange(t, v);
    FromRange(t, v);
  }

  lemma OneRowInTurn(v: Value)
    ensures var (ds, table, outs) := ([UpTo(v), Nowhere(v), From(v)], [OneRow(v)], [[OneRow(v)], [], [OneRow(v)]]);
            && RowsInTurn(table, ds) == outs && Concat(outs) == [OneRow(v), OneRow(v)]
            && Filter(table, SatisfyingOneOf(ds)) == [OneRow(v)]
  {
    hide Filter, Concat;
    var (ds, e) := ([UpTo(v), Nowhere(v), From(v)], OneRow(v));
    CompareOrder(v, v);
    FilterOne(e, Satisfying(ds[0]));
    FilterOne(e, Satisfying(ds[1]));
    FilterOne(e, Satisfying(ds[2]));
    FilterOne(e, SatisfyingOneOf(ds));
    assert e.Row() == [v] && Sat(ds[0], [v]) && !Sat(KeyIs(GT, v, "k > v"), [v]) && !Sat(ds[1], [v]) && Sat(ds[2], [v]);
    assert RowsInTurn([e], ds)[0] == [e] && RowsInTurn([e], ds)[1] == [] && RowsInTurn([e], ds)[2] == [e];
    ConcatOfThree([e], [], [e]);
  }

  lemma ConcatOfThree(a: seq<Entry>, b: seq<Entry>, c: seq<Entry>)
    ensures Concat([a, b, c]) == a + b + c
  {
    assert [a, b, c] == [a] + ([b] + [c]);
    ConcatAppend([a], [b] + [c]);
    ConcatAppend([b], [c]);
    assert Concat([a]) == a + Concat([]) && Concat([b]) == b + Concat([]) && Concat([c]) == c + Concat([]);
  }

  // ---------- a SELECT from end to end ----------

  /** The disjuncts of a rewritten predicate are plannable. */
  ghost predicate PlannableQuery(types: seq<ColType>, q: Pred) {
    if q.Or? then q.children != [] && forall i :: 0 <= i < |q.children| ==> Plannable(types, q.children[i])
    else Plannable(types, q)
  }

  /** And where they let a union be built, no row of the table satisfies two of them. */
  ghost predicate Supported(types: seq<ColType>, table: seq<Entry>, q: Pred) {
    && PlannableQuery(types, q)
    && (q.Or? && UnionInSight(types, q.children) ==> OneDisjunctEach(table, q.children))
  }

  lemma {:induction false} ComparisonsHaveNoIn(p: Pred)
    requires !HasOr(p) && forall q :: q in Leaves(p) ==> q.Cmp?
    ensures !HasIn(p)
  {
    if p.And? {
      ComparisonsHaveNoIn(p.left);
      ComparisonsHaveNoIn(p.right);
    }
  }

  /**
   * A predicate, as it was parsed, whose constants fit and whose texts tell its comparisons and IN
   * lists apart is rewritten into conjunctions that the planner is right about.
   */
  lemma PlannableAsWritten(types: seq<ColType>, p: Pred)
    requires Parsed(p) && QueryTexts.ConstantsFit(types, Leaves(p)) && QueryTexts.TextsTellApart(Leaves(p))
    ensures PlannableQuery(types, QueryRewriter.Rewrite(p))
  {
    hide KeyConstantsFit, TextsCovered, TextsAgree, QueryTexts.TextsTellApart, QueryTexts.ConstantsFit, Leaves, HasIn,
      Parsed, PicksOf, RangeOf;
    QueryRewriter.RewriteShape(p);
    forall d | d in QueryTexts.DisjunctsOfRewriting(p) ensures Plannable(types, d) {
      QueryTexts.RewrittenTextsAgree(p, d);
      QueryTexts.RewrittenConstantsFit(types, p, d);
      forall q | q in Leaves(d) ensures q.Cmp? {
        QueryTexts.DisjunctLeavesAreMade(p, d, q);
      }
      ComparisonsHaveNoIn(d);
      AgreeingTextsAreCovered(|types|, Leaves(d));
      RangeHasKeys(types, Leaves(d));
    }
  }

  /**
   * What the planner needs of a WHERE as it was written: its texts tell its comparisons apart, or, with
   * one text for several, each used bound is the tightest of the comparisons with its text.
   */
  ghost predicate PlannableWhere(types: seq<ColType>, p: Pred)
    requires Parsed(p)
  {
    || (QueryTexts.ConstantsFit(types, Leaves(p)) && QueryTexts.TextsTellApart(Leaves(p)))
    || PlannableQuery(types, QueryRewriter.Rewrite(p))
  }

  /** And where the disjuncts let a union be built, no row of the table satisfies two of them. */
  ghost predicate SupportedWhere(types: seq<ColType>, table: seq<Entry>, p: Pred)
    requires Parsed(p)
  {
    var q := QueryRewriter.Rewrite(p);
    PlannableWhere(types, p) && (q.Or? && UnionInSight(types, q.children) ==> OneDisjunctEach(table, q.children))
  }

  lemma SupportedAsWritten(types: seq<ColType>, table: seq<Entry>, p: Pred)
    requires Parsed(p)
    ensures SupportedWhere(types, table, p) <==> Supported(types, table, QueryRewriter.Rewrite(p))
  {
    hide PlannableQuery, UnionInSight, OneDisjunctEach, QueryTexts.ConstantsFit, QueryTexts.TextsTellApart;
    if QueryTexts.ConstantsFit(types, Leaves(p)) && QueryTexts.TextsTellApart(Leaves(p)) {
      PlannableAsWritten(types, p);
    }
  }

  /** Ranges without a hidden overlap are enough, whatever the table holds. */
  lemma SupportedByRanges(types: seq<ColType>, table: seq<Entry>, q: Pred)
    requires ValidTable(types, table) && PlannableQuery(types, q) && (q.Or? ==> NoHiddenOverlap(types, q.children))
    ensures Supported(types, table, q)
  {
    hide Plannable, NoHiddenOverlap, OneDisjunctEach, UnionInSight;
    if q.Or? && UnionInSight(types, q.children) {
      RangesSuffice(types, table, q.children);
    }
  }

  /** The rows that a SELECT has to deliver, before any ordering by direction. */
  ghost function Selected(table: seq<Entry>, filter: Option<Pred>): seq<Entry> {
    if filter.Some? then Filter(table, Satisfying(filter.value)) else table
  }

  method BuildSelectPlan(types: seq<ColType>, table: seq<Entry>, filter: Option<Pred>) returns (plan: QueryPlan)
    requires ValidTable(types, table) && (filter.Some? ==> PlannableQuery(types, filter.value))
    ensures plan.Single? ==>
              && fresh(plan.node.Base()) && (plan.node.Filtered? ==> fresh(plan.node.filter))
              && plan.node.Base().iter == null
              && Loose(plan.node, types, table, Selected(table, filter))
    ensures plan.Union? ==>
              && fresh(plan.union) && fresh(plan.union.shared) && fresh(plan.union.scans) && fresh(plan.union.filters)
              && plan.union.Sound() && plan.union.plans != [] && plan.union.Uniform(|types|, Any)
              && plan.union.order == Any
    ensures plan.Union? ==>
              && filter.Some? && filter.value.Or? && UnionInSight(types, filter.value.children)
              && (Concat(plan.union.outputs) == Selected(table, filter) <==>
                  OneDisjunctEach(table, filter.value.children))
              && exists perm :: UnionBuilt(types, table, filter.value.children, perm, plan.union.outputs)
  {
    hide UnionAllPlan.Sound, UnionAllPlan.Uniform, Plannable, OneDisjunctEach, SortedByStart, NeighboursApart,
      ValidTable;
    if filter == None {
      var scan := new LevelDBScanPlan(types, table);
      return Single(Plain(scan));
    }
    var q := filter.value;
    if q.Or? {
      ghost var perm;
      plan, perm := BuildUnionAll(types, table, q.children);
      FilterSame(table, Satisfying(q), SatisfyingOneOf(q.children));
      if plan.Union? {
        UnionOfRangesDelivers(types, table, q.children, perm, plan.union.outputs);
        assert InCheckedOrder(types, q.children, perm);
      }
    } else {
      PlannableHasNoOr(types, [q]);
      assert !HasOr([q][0]);
      var node, _ := MakeScanPlan(types, table, q);
      LooseConjunction(node, types, table, q);
      plan := Single(node);
    }
  }

  method RunNode(node: ScanNode, ghost out: seq<Entry>) returns (rows: seq<Entry>)
    requires node.Ready(null, out)
    modifies node.Base()
    ensures rows == out
  {
    hide ScanNode.Remaining, LevelDBScanPlan.Running, Filter, ScanNode.Ready;
    node.Begin(null, out);
    rows := [];
    var more := node.Next();
    ghost var left := out;
    while more
      invariant node.Base().Running() && node.Base().ended == !more && fresh(node.Base().iter)
      invariant rows + left == out && more == (left != [])
      invariant more ==> node.Base().current == left[0] && node.Remaining() == left[1..]
      decreases |left|
    {
      assert rows + left == rows + [left[0]] + left[1..];
      rows := rows + [node.Base().current];
      left := node.Remaining();
      more := node.Next();
    }
  }

  method RunUnion(union: UnionAllPlan) returns (rows: seq<Entry>)
    requires union.Sound() && union.plans != []
    modifies union, union.shared, union.scans
    ensures rows == Concat(if old(union.order) == Descend then Reverse(old(union.outputs)) else old(union.outputs))
  {
    hide *;
    union.Begin();
    rows := [];
    ghost var left := union.Remaining();
    ghost var all := left;
    var more := union.Next();
    while more
      invariant union.Running() && union.ended == !more
      invariant union.scans == old(union.scans) && union.order == old(union.order)
      invariant rows + left == all && more == (left != [])
      invariant more ==> union.current == left[0] && union.Remaining() == left[1..]
      decreases |left|
    {
      rows := rows + [union.current];
      left := union.Remaining();
      more := union.Next();
    }
  }

  /** The rows of a plan, and of a plan turned around. */
  function InDirection(direction: SortOrder, rows: seq<Entry>): seq<Entry> {
    if direction == Descend then Reverse(rows) else rows
  }

  /**
   * A SELECT with an optional WHERE and an optional ORDER BY on the first key column:
   * whichever plan is chosen, it delivers exactly the rows that satisfy the original predicate,
   * each once, in the order of the key, ascending or descending as asked.
   */
  method ExecuteSelect(types: seq<ColType>, table: seq<Entry>, filter: Option<Pred>, direction: SortOrder)
    returns (rows: seq<Entry>)
    requires |types| > 0 && ValidTable(types, table)
    requires filter.Some? ==>
               && Parsed(filter.value) && QueryRewriter.NotInsListOneValue(filter.value)
               && SupportedWhere(types, table, filter.value)
    ensures rows == InDirection(direction, Selected(table, filter))
  {
    hide UnionAllPlan.Sound, UnionAllPlan.Uniform, ValidTable, PlannableQuery, UnionInSight, OneDisjunctEach,
      UnionBuilt;
    var rewritten := if filter.Some? then Some(QueryRewriter.Rewrite(filter.value)) else None;
    SelectedAfterRewriting(table, filter);
    if filter.Some? {
      SupportedAsWritten(types, table, filter.value);
    }
    var plan := BuildSelectPlan(types, table, rewritten);
    ghost var selected := Selected(table, filter);
    match plan
    case Single(node) =>
      rows := SelectFromNode(types, table, node, direction, selected);
    case Union(union) =>
      rows := SelectFromUnion(types, union, direction, selected);
  }

  method SelectFromNode(types: seq<ColType>, table: seq<Entry>, node: ScanNode, direction: SortOrder,
                        ghost selected: seq<Entry>)
    returns (rows: seq<Entry>)
    requires |types| > 0 && node.Base().iter == null && Loose(node, types, table, selected)
    modifies node.Base()
    ensures rows == InDirection(direction, selected)
  {
    if direction != Any {
      var ok := node.EnsureSortOrder(0, 0, direction);
      assert ok;
    }
    rows := RunNode(node, InDirection(direction, selected));
  }

  method SelectFromUnion(types: seq<ColType>, union: UnionAllPlan, direction: SortOrder, ghost selected: seq<Entry>)
    returns (rows: seq<Entry>)
    requires |types| > 0 && union.Sound() && union.plans != [] && union.Uniform(|types|, Any) && union.order == Any
    requires Concat(union.outputs) == selected
    modifies union, union.shared, union.scans
    ensures rows == InDirection(direction, selected)
  {
    hide UnionAllPlan.Sound, UnionAllPlan.Uniform;
    ghost var outs := union.outputs;
    if direction != Any {
      TurnUnion(types, union, direction);
    }
    DirectionOfUnion(direction, outs, union.outputs);
    rows := RunUnion(union);
  }

  /** Scans without a direction all accept one on the first key column. */
  method TurnUnion(types: seq<ColType>, union: UnionAllPlan, direction: SortOrder)
    requires |types| > 0 && union.Sound() && union.Uniform(|types|, Any) && direction != Any
    modifies union`order, union`outputs, union.scans`order
    ensures union.Sound() && union.order == direction && |union.outputs| == |old(union.outputs)|
    ensures forall i :: 0 <= i < |union.outputs| ==> union.outputs[i] == InDirection(direction, old(union.outputs[i]))
  {
    hide UnionAllPlan.Sound;
    assert forall i :: 0 <= i < |union.plans| ==>
             Answers(union.plans, union.Directions(), 0, 0, direction)[i] == (true, direction);
    var ok := union.EnsureSortOrder(0, 0, direction);
    assert ok;
  }

  lemma SelectedAfterRewriting(table: seq<Entry>, filter: Option<Pred>)
    requires filter.Some? ==> Parsed(filter.value) && QueryRewriter.NotInsListOneValue(filter.value)
    ensures filter.Some? ==> Selected(table, Some(QueryRewriter.Rewrite(filter.value))) == Selected(table, filter)
  {
    if filter.Some? {
      var p := filter.value;
      forall e | e in table ensures Satisfying(QueryRewriter.Rewrite(p))(e) == Satisfying(p)(e) {
        QueryRewriter.RewritePreservesMeaning(p, e.Row());
      }
      FilterSame(table, Satisfying(QueryRewriter.Rewrite(p)), Satisfying(p));
    }
  }

  /** Reversed children, run in reverse order, deliver the reverse of the whole. */
  lemma DirectionOfUnion(direction: SortOrder, outs: seq<seq<Entry>>, now: seq<seq<Entry>>)
    requires |now| == |outs| && forall i :: 0 <= i < |outs| ==> now[i] == InDirection(direction, outs[i])
    ensures Concat(if direction == Descend then Reverse(now) else now) == InDirection(direction, Concat(outs))
  {
    if direction == Descend {
      ReverseConcat(outs);
      assert Reverse(now) == ReverseParts(outs);
    } else {
      assert now == outs;
    }
  }
}
