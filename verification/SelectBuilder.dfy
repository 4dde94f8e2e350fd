/**
 * The builder of a SELECT's plan, which leaves a sort out when all its requests are granted: the
 * rows stay the same and come sorted (planbuilder/SelectPlanBuilder.cpp).
 */
module SelectBuilder {
  import opened Seqs
  import opened Predicates
  import opened Source
  import opened Scan
  import opened Sort
  import opened GroupBy
  import opened GroupKeys
  import opened Multisets
  import opened PlanRequests
  import opened SelectPlan
  import Plans
  import StdSort

  // ---------- leaving a sort out keeps the rows ----------

  /** Every column that a group row takes from its first row is a column of the group key. */
  predicate Determined(p: Plan) {
    match p
    case Table(_) | Union(_, _) | File(_, _) => true
    case Filtering(c, _) => Determined(c)
    case Projection(c, _) => Determined(c)
    case Sorting(c, _) => Determined(c)
    case Grouping(c, g, aggrs) => Determined(c) && FirstsAreKeys(g, aggrs)
  }

  /** The rows that a plan has to deliver; sorts and requests for a sort order do not change them. */
  ghost function Content(p: Plan): seq<Row> {
    match p
    case Table(s) => s.rows
    case Union(ss, _) => Concat(ForwardRows(ss))
    case File(_, rows) => rows
    case Filtering(c, ors) => Filter(Content(c), Keeps(ors))
    case Projection(c, columns) => Projected(Content(c), columns)
    case Sorting(c, _) => Content(c)
    case Grouping(c, g, aggrs) => RowPerKey(Content(c), g, aggrs)
  }

  lemma {:induction false} ContentStays(p: Plan, index: nat, column: nat, requested: SortOrder)
    ensures var q := Ensure(p, index, column, requested).1;
            Content(q) == Content(p) && (Determined(q) <==> Determined(p))
    decreases p
  {
    match p
    case Union(ss, _) =>
      EnsureScansAll(ss, index, column, requested);
      assert ForwardRows(EnsureScans(ss, index, column, requested).1) == ForwardRows(ss);
    case Filtering(c, _) => ContentStays(c, index, column, requested);
    case Projection(c, columns) =>
      if column < |columns| {
        ContentStays(c, index, columns[column], requested);
      }
    case Grouping(c, _, aggrs) =>
      if column < |aggrs| && aggrs[column].func == FIRST {
        ContentStays(c, index, aggrs[column].index, requested);
      }
    case _ =>
  }

  lemma {:induction false} PermutedMultiset(rows: seq<Row>, perm: seq<nat>)
    requires StdSort.IsPermutation(perm, |rows|)
    ensures multiset(StdSort.Permuted(rows, perm)) == multiset(rows)
  {
    if rows != [] {
      var (n, out) := (|rows| - 1, StdSort.Permuted(rows, perm));
      StdSort.PermutationReaches(perm, |rows|, n);
      var k :| 0 <= k <= n && perm[k] == n;
      PermutedWithoutLast(rows, perm, k);
      PermutedMultiset(rows[..n], perm[..k] + perm[k + 1..]);
      Without(out, k);
      Without(rows, n);
      assert rows[..n] + rows[n + 1..] == rows[..n];
    }
  }

  lemma PermutedWithoutLast(rows: seq<Row>, perm: seq<nat>, k: nat)
    requires StdSort.IsPermutation(perm, |rows|) && k < |rows| && perm[k] == |rows| - 1
    ensures StdSort.IsPermutation(perm[..k] + perm[k + 1..], |rows| - 1)
    ensures var out := StdSort.Permuted(rows, perm);
            StdSort.Permuted(rows[..|rows| - 1], perm[..k] + perm[k + 1..]) == out[..k] + out[k + 1..]
  {
  }

  lemma ProjectedSameMultiset(a: seq<Row>, b: seq<Row>, columns: seq<nat>)
    requires multiset(a) == multiset(b)
    ensures multiset(Projected(a, columns)) == multiset(Projected(b, columns))
  {
    var project := (row: Row) => Project(row, columns);
    ImageSameMultiset(a, b, project);
    assert Projected(a, columns) == Image(a, project) && Projected(b, columns) == Image(b, project);
  }

  /** A union delivers the rows of its children, in step or not. */
  lemma UnionRows(scans: seq<TableScan>, order: SortOrder)
    ensures multiset(Concat(if order == Descend then Reverse(Outputs(scans)) else Outputs(scans))) ==
            multiset(Concat(ForwardRows(scans)))
  {
    forall i | 0 <= i < |scans| ensures multiset(Outputs(scans)[i]) == multiset(ForwardRows(scans)[i]) {
      ReverseMultiset(scans[i].rows);
    }
    ConcatSameMultiset(Outputs(scans), ForwardRows(scans));
    ConcatReverseMultiset(Outputs(scans));
  }

  /** Grouping the same rows, with equal keys side by side, gives the same group rows. */
  lemma GroupedRows(c: Plan, groupby: seq<nat>, aggrs: seq<AggrFunc>, input: seq<Row>, rows: seq<Row>)
    requires Coherent(c) && Kept(c) && Promised(c, OpenSpecs(groupby)) && Delivers(c, input)
    requires FirstsAreKeys(groupby, aggrs) && multiset(input) == multiset(rows)
    ensures multiset(GroupRows(input, groupby, aggrs)) == multiset(RowPerKey(rows, groupby, aggrs))
  {
    hide RowPerKey, GroupOutput, Delivers, Coherent, Promised, Grouped, Kept;
    OneRowPerKey(c, groupby, aggrs, input);
    PerKeySame(input, rows, groupby, aggrs);
  }

  /**
   * A coherent plan delivers its rows, each as often as it has it, whatever was requested, when
   * its groupings stand on promises and take only group columns from a group's first row.
   */
  lemma {:induction false} SameRows(p: Plan, out: seq<Row>)
    requires Coherent(p) && Kept(p) && GroupsPromised(p) && Determined(p) && Delivers(p, out)
    ensures multiset(out) == multiset(Content(p))
    decreases p
  {
    hide GroupRows, RowPerKey, Projected, Filter, FirstsAreKeys;
    match p
    case Table(s) => ReverseMultiset(s.rows);
    case Union(ss, order) => UnionRows(ss, order);
    case File(_, _) =>
    case Filtering(c, ors) =>
      var input :| Delivers(c, input) && out == Filter(input, Keeps(ors));
      SameRows(c, input);
      FilterSameMultiset(input, Content(c), Keeps(ors));
    case Projection(c, columns) =>
      var input :| Delivers(c, input) && out == Projected(input, columns);
      SameRows(c, input);
      ProjectedSameMultiset(input, Content(c), columns);
    case Sorting(c, specs) =>
      var input :| Delivers(c, input) && SortedFrom(input, specs, out);
      SameRows(c, input);
      var perm: seq<nat> :| StdSort.IsPermutation(perm, |input|) && out == StdSort.Permuted(input, perm);
      PermutedMultiset(input, perm);
    case Grouping(c, g, aggrs) =>
      var input :| Delivers(c, input) && GroupedTo(TypesOf(c), input, g, aggrs, out);
      SameRows(c, input);
      GroupedRows(c, g, aggrs, input, Content(c));
  }

  // ---------- the builder ----------

  function WithGroupBy(p: Plan, groupby: seq<nat>, aggrs: seq<AggrFunc>): Plan {
    var (granted, q) := Requests(p, OpenSpecs(groupby), 0);
    Grouping(if granted then q else Sorting(q, OpenSpecs(groupby)), groupby, aggrs)
  }

  function WithOrderBy(p: Plan, items: seq<SortSpec>): Plan {
    var (granted, q) := Requests(p, items, 0);
    if granted then q else Sorting(q, items)
  }

  lemma {:induction false} RequestsOfScan(s: TableScan, items: seq<SortSpec>, i: nat)
    requires i <= |items|
    ensures Requests(Table(s), items, i).1.Table?
    decreases |items| - i
  {
    if i < |items| {
      RequestsOfScan(EnsureScan(s, i, items[i].index, items[i].order).1, items, i + 1);
    }
  }

  /**
   * Over a scan of a table a sort is left out exactly when the items are the columns of the key
   * from the front, in one direction that suits the scan.
   */
  lemma SortOverScanExactly(s: TableScan, items: seq<SortSpec>, groupby: seq<nat>, aggrs: seq<AggrFunc>)
    ensures WithOrderBy(Table(s), items).Sorting? <==> !KeyPrefixInOneDirection(s.keys, s.order, items, 0)
    ensures WithGroupBy(Table(s), groupby, aggrs).child.Sorting? <==>
            !KeyPrefixInOneDirection(s.keys, s.order, OpenSpecs(groupby), 0)
  {
    hide Requests, KeyPrefixInOneDirection;
    ScanGrantsExactly(s, items, 0);
    RequestsOfScan(s, items, 0);
    ScanGrantsExactly(s, OpenSpecs(groupby), 0);
    RequestsOfScan(s, OpenSpecs(groupby), 0);
  }

  /** A list of requests, all open or none, keeps a plan coherent, its groups on their promises, and its rows. */
  lemma {:induction false} RequestsStaySound(p: Plan, items: seq<SortSpec>, i: nat, open: bool)
    requires i <= |items| && Coherent(p) && Kept(p) && GroupsPromised(p) && (open ==> Turnable(p))
    requires forall j :: 0 <= j < |items| ==> (items[j].order == Any <==> open)
    ensures var q := Requests(p, items, i).1;
            && Coherent(q) && Kept(q) && GroupsPromised(q) && (open ==> Turnable(q))
            && Content(q) == Content(p) && TypesOf(q) == TypesOf(p) && (Determined(q) <==> Determined(p))
    ensures Requests(p, items, i).0 && i < |items| && !open ==> InStep(Requests(p, items, i).1)
    decreases |items| - i
  {
    hide Ensure, Coherent, Kept, GroupsPromised, Turnable, Content, TypesOf, Determined, InStep;
    if i < |items| {
      var (column, order) := (items[i].index, items[i].order);
      var (ok, q) := Ensure(p, i, column, order);
      StaysCoherent(p, i, column, order);
      StaysKept(p, i, column, order);
      TypesStay(p, i, column, order);
      EnsureKeepsGroups(p, i, column, order);
      ContentStays(p, i, column, order);
      if ok {
        if order != Any {
          GrantedIsInStep(p, i, column, order);
        }
        RequestsStaySound(q, items, i + 1, open);
      }
    }
  }

  lemma {:induction false} NothingPromised(p: Plan)
    ensures Promised(p, [])
    decreases p
  {
    match p
    case Filtering(c, _) => NothingPromised(c);
    case Projection(c, columns) => NothingPromised(c);
      assert Mapped(columns, []) == [];
    case Grouping(c, _, aggrs) => NothingPromised(c);
      assert Mapped(Sources(aggrs), []) == [];
    case _ =>
  }

  /** GROUP BY, with or without a sort below it: its groups stand on a promise, over the same rows. */
  lemma GroupByIsSound(p: Plan, groupby: seq<nat>, aggrs: seq<AggrFunc>)
    requires Coherent(p) && Kept(p) && Turnable(p) && GroupsPromised(p) && Summable(TypesOf(p), aggrs)
    ensures var q := WithGroupBy(p, groupby, aggrs);
            && Coherent(q) && Kept(q) && GroupsPromised(q) && Content(q) == RowPerKey(Content(p), groupby, aggrs)
            && TypesOf(q.child) == TypesOf(p) && Content(q.child) == Content(p)
            && (Determined(q.child) <==> Determined(p))
            && (Determined(q) <==> Determined(p) && FirstsAreKeys(groupby, aggrs))
  {
    hide Requests, RowPerKey, Summable, CoherentUnion, Whole, UnionInStep, FirstsAreKeys, PromisedByScan;
    NothingPromised(p);
    RequestsStaySound(p, OpenSpecs(groupby), 0, true);
    RequestsPromise(p, OpenSpecs(groupby), 0, []);
  }

  /**
   * ORDER BY, with or without a sort: everything the plan delivers is sorted by the list, and it
   * delivers the rows of the plan before, when its groupings take only group columns from a
   * group's first row.
   */
  lemma OrderByDelivers(p: Plan, items: seq<SortSpec>, out: seq<Row>)
    requires Coherent(p) && Kept(p) && GroupsPromised(p) && forall j :: 0 <= j < |items| ==> items[j].order != Any
    requires Delivers(WithOrderBy(p, items), out)
    ensures SortedRows(items, out)
    ensures Coherent(WithOrderBy(p, items)) && Kept(WithOrderBy(p, items)) && GroupsPromised(WithOrderBy(p, items))
    ensures Determined(p) ==> multiset(out) == multiset(Content(p))
  {
    hide SortedRows, Blocks, Delivers, Content, GroupsPromised, Determined, Coherent;
    var q := WithOrderBy(p, items);
    NothingPromised(p);
    RequestsStaySound(p, items, 0, false);
    RequestsPromise(p, items, 0, []);
    if items == [] {
      NothingToSortBy(out);
    } else if Requests(p, items, 0).0 {
      PromisesAreKept(q, items, out);
      ResolveKeepsDirections(q, items);
      assert Resolve(q, items) == items;
    } else {
      SortOnTop(Requests(p, items, 0).1, items);
    }
    if Determined(p) {
      SameRows(q, out);
    }
  }

  /** A sort on top keeps everything but the order. */
  lemma SortOnTop(p: Plan, items: seq<SortSpec>)
    requires Coherent(p) && Kept(p) && GroupsPromised(p)
    ensures var q := Sorting(p, items);
            && Coherent(q) && Kept(q) && GroupsPromised(q) && Content(q) == Content(p)
            && (Determined(q) <==> Determined(p))
    ensures forall out :: Delivers(Sorting(p, items), out) ==> SortedRows(items, out)
  {
  }

  /** Leaving out the sort of an ORDER BY, when all of its items are granted, changes no row. */
  lemma SortLeftOut(p: Plan, items: seq<SortSpec>, out: seq<Row>, sorted: seq<Row>)
    requires Coherent(p) && Kept(p) && GroupsPromised(p) && Determined(p)
    requires forall j :: 0 <= j < |items| ==> items[j].order != Any
    requires Delivers(WithOrderBy(p, items), out) && Delivers(Sorting(p, items), sorted)
    ensures multiset(out) == multiset(sorted) && SortedRows(items, out) && SortedRows(items, sorted)
  {
    OrderByDelivers(p, items, out);
    SameRows(Sorting(p, items), sorted);
  }

  /** Nor does leaving out the sort below a GROUP BY, when all the group columns are granted. */
  lemma GroupSortLeftOut(p: Plan, groupby: seq<nat>, aggrs: seq<AggrFunc>, out: seq<Row>, sorted: seq<Row>)
    requires Coherent(p) && Kept(p) && Turnable(p) && GroupsPromised(p) && Summable(TypesOf(p), aggrs)
    requires Determined(p) && FirstsAreKeys(groupby, aggrs)
    requires Delivers(WithGroupBy(p, groupby, aggrs), out)
    requires Delivers(Grouping(Sorting(p, OpenSpecs(groupby)), groupby, aggrs), sorted)
    ensures multiset(out) == multiset(sorted) == multiset(RowPerKey(Content(p), groupby, aggrs))
  {
    hide Delivers, CoherentUnion, RowPerKey, Requests;
    GroupByIsSound(p, groupby, aggrs);
    SameRows(WithGroupBy(p, groupby, aggrs), out);
    SameRows(Grouping(Sorting(p, OpenSpecs(groupby)), groupby, aggrs), sorted);
  }

  lemma HavingIsSound(p: Plan, ors: seq<seq<Pred>>)
    requires Coherent(p) && Kept(p) && GroupsPromised(p)
    ensures var q := Filtering(p, ors);
            && Coherent(q) && Kept(q) && GroupsPromised(q) && Determined(q) == Determined(p)
            && Content(q) == Filter(Content(p), Keeps(ors))
  {
  }

  /** The plan with a grouping, a filter for HAVING and a sort or none. */
  function Built(p: Plan, groupby: Option<(seq<nat>, seq<AggrFunc>)>, having: Option<seq<seq<Pred>>>,
                 orderby: seq<SortSpec>): Plan {
    var grouped := if groupby.Some? then WithGroupBy(p, groupby.value.0, groupby.value.1) else p;
    WithOrderBy(if having.Some? then Filtering(grouped, having.value) else grouped, orderby)
  }

  /** What a SELECT asks for over the rows of its table: groups with their aggregates, then HAVING. */
  ghost function Answer(rows: seq<Row>, groupby: Option<(seq<nat>, seq<AggrFunc>)>,
                        having: Option<seq<seq<Pred>>>): seq<Row> {
    HavingOf(having, if groupby.Some? then RowPerKey(rows, groupby.value.0, groupby.value.1) else rows)
  }

  ghost function HavingOf(having: Option<seq<seq<Pred>>>, groups: seq<Row>): seq<Row> {
    if having.Some? then Filter(groups, Keeps(having.value)) else groups
  }

  /** HAVING holds when all the predicates of one of its conjunctions do. */
  lemma HavingMeaning(ors: seq<seq<Pred>>, row: Row)
    ensures Keeps(ors)(row) <==> exists conj :: conj in ors && forall q :: q in conj ==> SatLeaf(q, row)
  {
    if k :| 0 <= k < |ors| && Plans.AllHold(ors[k], row) {
      assert ors[k] in ors && forall q :: q in ors[k] ==> SatLeaf(q, row);
    }
    if conj :| conj in ors && forall q :: q in conj ==> SatLeaf(q, row) {
      var k :| 0 <= k < |ors| && ors[k] == conj;
      assert forall j :: 0 <= j < |conj| ==> conj[j] in conj;
      assert Plans.AllHold(ors[k], row);
    }
  }

  /** The group rows are the rows of the keys that occur. */
  lemma GroupOfRow(rows: seq<Row>, groupby: seq<nat>, aggrs: seq<AggrFunc>, row: Row)
    ensures row in RowPerKey(rows, groupby, aggrs) <==>
            exists r :: r in rows && row == RowOfKey(rows, groupby, aggrs, KeyOf(r, groupby))
  {
    hide RowOfKey, KeyOf;
    var (keys, groups) := (KeysOf(rows, groupby), RowPerKey(rows, groupby, aggrs));
    if r :| r in rows && row == RowOfKey(rows, groupby, aggrs, KeyOf(r, groupby)) {
      var i :| 0 <= i < |rows| && rows[i] == r;
      assert keys[i] in Distinct(keys);
      var j :| 0 <= j < |Distinct(keys)| && Distinct(keys)[j] == keys[i];
      assert groups[j] == row;
    }
    if row in groups {
      var j :| 0 <= j < |groups| && groups[j] == row;
      assert Distinct(keys)[j] in keys;
      var i :| 0 <= i < |keys| && keys[i] == Distinct(keys)[j];
      assert rows[i] in rows && row == RowOfKey(rows, groupby, aggrs, KeyOf(rows[i], groupby));
    }
  }

  /** The group rows of the answer: the aggregates over all rows with the key of some row, as far as HAVING holds. */
  lemma AnswerMeaning(rows: seq<Row>, groupby: seq<nat>, aggrs: seq<AggrFunc>, having: Option<seq<seq<Pred>>>, row: Row)
    ensures row in Answer(rows, Some((groupby, aggrs)), having) <==>
            && (exists r :: r in rows && row == RowOfKey(rows, groupby, aggrs, KeyOf(r, groupby)))
            && (having.Some? ==> exists conj :: conj in having.value && forall q :: q in conj ==> SatLeaf(q, row))
  {
    hide RowOfKey, KeyOf, RowPerKey, Filter, Keeps, SatLeaf;
    var groups := RowPerKey(rows, groupby, aggrs);
    GroupOfRow(rows, groupby, aggrs, row);
    if having.Some? {
      FilterMultiset(groups, Keeps(having.value), row);
      assert row in multiset(Filter(groups, Keeps(having.value))) <==>
             row in multiset(groups) && Keeps(having.value)(row);
      HavingMeaning(having.value, row);
    }
  }

  /** Without GROUP BY, the rows of the answer: those on which HAVING holds, as often as they are there. */
  lemma AnswerWithoutGroups(rows: seq<Row>, having: Option<seq<seq<Pred>>>, row: Row)
    ensures multiset(Answer(rows, None, having))[row] ==
            if having.Some? ==> exists conj :: conj in having.value && forall q :: q in conj ==> SatLeaf(q, row)
            then multiset(rows)[row] else 0
  {
    hide Filter, Keeps, SatLeaf;
    if having.Some? {
      FilterMultiset(rows, Keeps(having.value), row);
      HavingMeaning(having.value, row);
    }
  }

  /** The group of a row's key: the rows that agree with it on the group columns, with their aggregates. */
  lemma GroupRowMeaning(rows: seq<Row>, groupby: seq<nat>, aggrs: seq<AggrFunc>, r: Row, i: nat)
    requires r in rows && i < |aggrs|
    ensures var key := KeyOf(r, groupby);
            var (group, out) := (RowsWith(rows, groupby, key), RowOfKey(rows, groupby, aggrs, key));
            && (forall x :: multiset(group)[x] ==
                              if forall c :: c in groupby ==> At(x, c) == At(r, c) then multiset(rows)[x] else 0)
            && group != [] && |out| == |aggrs| && IsAggregate(aggrs[i], group, out[i])
  {
    hide IsAggregate, KeyOf;
    var group := RowsWith(rows, groupby, KeyOf(r, groupby));
    forall x
      ensures multiset(group)[x] == if forall c :: c in groupby ==> At(x, c) == At(r, c) then multiset(rows)[x] else 0
    {
      SameKeyExactly(x, r, groupby);
      FilterMultiset(rows, HasKey(groupby, KeyOf(r, groupby)), x);
    }
    assert r in multiset(rows) && r in multiset(group);
    OutputMeaning(aggrs, group, i);
  }

  /** The rows in some order in which equal group keys stand together. */
  ghost predicate InGroups(rows: seq<Row>, groupby: seq<nat>, input: seq<Row>) {
    multiset(input) == multiset(rows) && Grouped(KeysOf(input, groupby), 0)
  }

  /** The output is that of a grouping over the rows in such an order, with all sums accepted, and of HAVING. */
  ghost predicate FromSomeOrder(types: ResultTypes, rows: seq<Row>, groupby: seq<nat>, aggrs: seq<AggrFunc>,
                                having: Option<seq<seq<Pred>>>, out: seq<Row>) {
    exists input, groups ::
      && InGroups(rows, groupby, input) && GroupedTo(types, input, groupby, aggrs, groups)
      && multiset(out) == multiset(HavingOf(having, groups))
  }

  /** A grouping over a sound plan, and what requests for a sort order leave of it. */
  ghost predicate GroupingOver(q: Plan, types: ResultTypes, rows: seq<Row>, groupby: seq<nat>, aggrs: seq<AggrFunc>) {
    && q.Grouping? && q.groupby == groupby && q.aggrs == aggrs
    && Coherent(q) && Kept(q) && GroupsPromised(q) && Determined(q.child)
    && TypesOf(q.child) == types && Content(q.child) == rows
  }

  lemma GroupingDelivers(q: Plan, types: ResultTypes, rows: seq<Row>, groupby: seq<nat>, aggrs: seq<AggrFunc>,
                         out: seq<Row>)
    requires GroupingOver(q, types, rows, groupby, aggrs) && Delivers(q, out)
    ensures exists input :: InGroups(rows, groupby, input) && GroupedTo(types, input, groupby, aggrs, out)
  {
    hide Content, TypesOf, Determined, GroupedTo, Grouped;
    var input :| Delivers(q.child, input) && GroupedTo(TypesOf(q.child), input, groupby, aggrs, out);
    SameRows(q.child, input);
    PromisedMeansGrouped(q.child, groupby, input);
  }

  lemma GroupingStays(q: Plan, types: ResultTypes, rows: seq<Row>, groupby: seq<nat>, aggrs: seq<AggrFunc>,
                      index: nat, column: nat, requested: SortOrder)
    requires GroupingOver(q, types, rows, groupby, aggrs) && requested != Any
    ensures GroupingOver(Ensure(q, index, column, requested).1, types, rows, groupby, aggrs)
  {
    StaysCoherent(q, index, column, requested);
    StaysKept(q, index, column, requested);
    EnsureKeepsGroups(q, index, column, requested);
    if column < |aggrs| && aggrs[column].func == FIRST {
      TypesStay(q.child, index, aggrs[column].index, requested);
      ContentStays(q.child, index, aggrs[column].index, requested);
    }
  }

  lemma {:induction false} RequestsToGrouping(q: Plan, types: ResultTypes, rows: seq<Row>, groupby: seq<nat>,
                                              aggrs: seq<AggrFunc>, items: seq<SortSpec>, i: nat)
    requires i <= |items| && GroupingOver(q, types, rows, groupby, aggrs)
    requires forall j :: 0 <= j < |items| ==> items[j].order != Any
    ensures GroupingOver(Requests(q, items, i).1, types, rows, groupby, aggrs)
    decreases |items| - i
  {
    hide Ensure, GroupingOver;
    if i < |items| {
      GroupingStays(q, types, rows, groupby, aggrs, i, items[i].index, items[i].order);
      RequestsToGrouping(Ensure(q, i, items[i].index, items[i].order).1, types, rows, groupby, aggrs, items, i + 1);
    }
  }

  /** A filter passes requests on. */
  lemma {:induction false} RequestsThroughFilter(p: Plan, ors: seq<seq<Pred>>, items: seq<SortSpec>, i: nat)
    requires i <= |items|
    ensures Requests(Filtering(p, ors), items, i) == (Requests(p, items, i).0, Filtering(Requests(p, items, i).1, ors))
    decreases |items| - i
  {
    if i < |items| {
      RequestsThroughFilter(Ensure(p, i, items[i].index, items[i].order).1, ors, items, i + 1);
    }
  }

  lemma SortedIsPermuted(input: seq<Row>, specs: seq<SortSpec>, out: seq<Row>)
    requires SortedFrom(input, specs, out)
    ensures multiset(out) == multiset(input)
  {
    hide SortedRows;
    var perm: seq<nat> :| StdSort.IsPermutation(perm, |input|) && out == StdSort.Permuted(input, perm);
    PermutedMultiset(input, perm);
  }

  /** A grouping with HAVING and ORDER BY on top delivers what the grouping over some order of its rows gives. */
  lemma TopDelivers(q: Plan, types: ResultTypes, rows: seq<Row>, groupby: seq<nat>, aggrs: seq<AggrFunc>,
                    having: Option<seq<seq<Pred>>>, out: seq<Row>)
    requires GroupingOver(q, types, rows, groupby, aggrs)
    requires Delivers(if having.Some? then Filtering(q, having.value) else q, out)
    ensures FromSomeOrder(types, rows, groupby, aggrs, having, out)
  {
    hide GroupingOver, InGroups, GroupedTo, Keeps;
    var groups := out;
    if having.Some? {
      groups :| Delivers(q, groups) && out == Filter(groups, Keeps(having.value));
    }
    GroupingDelivers(q, types, rows, groupby, aggrs, groups);
    var input :| InGroups(rows, groupby, input) && GroupedTo(types, input, groupby, aggrs, groups);
    assert out == HavingOf(having, groups);
  }

  lemma OnlyTheOrder(types: ResultTypes, rows: seq<Row>, groupby: seq<nat>, aggrs: seq<AggrFunc>,
                     having: Option<seq<seq<Pred>>>, a: seq<Row>, b: seq<Row>)
    requires FromSomeOrder(types, rows, groupby, aggrs, having, a) && multiset(a) == multiset(b)
    ensures FromSomeOrder(types, rows, groupby, aggrs, having, b)
  {
    hide InGroups, GroupedTo, HavingOf;
    var input, groups :| && InGroups(rows, groupby, input) && GroupedTo(types, input, groupby, aggrs, groups)
                         && multiset(a) == multiset(HavingOf(having, groups));
    assert multiset(b) == multiset(HavingOf(having, groups));
  }

  /** With GROUP BY, whatever columns the group rows take from their first rows. */
  lemma GroupedDelivers(p: Plan, groupby: seq<nat>, aggrs: seq<AggrFunc>, having: Option<seq<seq<Pred>>>,
                        orderby: seq<SortSpec>, out: seq<Row>)
    requires Coherent(p) && Kept(p) && Turnable(p) && GroupsPromised(p) && Summable(TypesOf(p), aggrs) && Determined(p)
    requires forall j :: 0 <= j < |orderby| ==> orderby[j].order != Any
    requires Delivers(Built(p, Some((groupby, aggrs)), having, orderby), out)
    ensures FromSomeOrder(TypesOf(p), Content(p), groupby, aggrs, having, out)
  {
    hide Delivers, Coherent, Kept, GroupsPromised, Determined, Content, TypesOf, Requests, FromSomeOrder, Turnable,
      SortedFrom, Summable, Promised;
    var (types, rows) := (TypesOf(p), Content(p));
    var grouped := WithGroupBy(p, groupby, aggrs);
    GroupByIsSound(p, groupby, aggrs);
    assert GroupingOver(grouped, types, rows, groupby, aggrs);
    RequestsToGrouping(grouped, types, rows, groupby, aggrs, orderby, 0);
    var q := Requests(grouped, orderby, 0).1;
    var top := if having.Some? then Filtering(q, having.value) else q;
    if having.Some? {
      RequestsThroughFilter(grouped, having.value, orderby, 0);
    }
    if Requests(grouped, orderby, 0).0 {
      TopDelivers(q, types, rows, groupby, aggrs, having, out);
    } else {
      var input := SortedInput(top, orderby, out);
      TopDelivers(q, types, rows, groupby, aggrs, having, input);
      SortedIsPermuted(input, orderby, out);
      OnlyTheOrder(types, rows, groupby, aggrs, having, input, out);
    }
  }

  lemma SortedInput(p: Plan, items: seq<SortSpec>, out: seq<Row>) returns (input: seq<Row>)
    requires Delivers(Sorting(p, items), out)
    ensures Delivers(p, input) && SortedFrom(input, items, out)
  {
    input :| Delivers(p, input) && SortedFrom(input, items, out);
  }

  /** The plan that a SELECT starts from, and what its GROUP BY needs of it. */
  ghost predicate Buildable(p: Plan, groupby: Option<(seq<nat>, seq<AggrFunc>)>) {
    && Coherent(p) && Kept(p) && GroupsPromised(p)
    && (groupby.Some? ==> Turnable(p) && Summable(TypesOf(p), groupby.value.1))
  }

  /**
   * A built plan: whatever it delivers is sorted by the ORDER BY list, and it delivers one row
   * for each group, with the aggregates over the rows of the group, and of these the ones that
   * HAVING lets pass.
   */
  lemma BuiltDelivers(p: Plan, groupby: Option<(seq<nat>, seq<AggrFunc>)>, having: Option<seq<seq<Pred>>>,
                      orderby: seq<SortSpec>, out: seq<Row>)
    requires Buildable(p, groupby) && forall j :: 0 <= j < |orderby| ==> orderby[j].order != Any
    requires Delivers(Built(p, groupby, having, orderby), out)
    ensures SortedRows(orderby, out)
    ensures var q := Built(p, groupby, having, orderby); Coherent(q) && Kept(q) && GroupsPromised(q)
    ensures Determined(p) && (groupby.Some? ==> FirstsAreKeys(groupby.value.0, groupby.value.1)) ==>
              multiset(out) == multiset(Answer(Content(p), groupby, having))
    ensures Determined(p) && groupby.Some? ==>
              FromSomeOrder(TypesOf(p), Content(p), groupby.value.0, groupby.value.1, having, out)
  {
    hide Coherent, Kept, Turnable, GroupsPromised, Delivers, SortedRows, WithGroupBy, WithOrderBy, RowPerKey, Keeps,
      FromSomeOrder, Summable, FirstsAreKeys;
    if Determined(p) && groupby.Some? {
      GroupedDelivers(p, groupby.value.0, groupby.value.1, having, orderby, out);
    }
    var grouped := if groupby.Some? then WithGroupBy(p, groupby.value.0, groupby.value.1) else p;
    if groupby.Some? {
      GroupByIsSound(p, groupby.value.0, groupby.value.1);
    }
    if having.Some? {
      HavingIsSound(grouped, having.value);
      OrderByDelivers(Filtering(grouped, having.value), orderby, out);
    } else {
      OrderByDelivers(grouped, orderby, out);
    }
  }

  /** A SELECT's plan over the rows of its table or subquery, built step by step. */
  class SelectPlanBuilder {
    var plan: Plan

    constructor (plan: Plan)
      ensures this.plan == plan
    {
      this.plan := plan;
    }

    /** Asks for the group columns in any direction; a sort goes below the grouping when one is refused. */
    method BuildPlanForGroupBy(groupby: seq<nat>, aggrs: seq<AggrFunc>)
      modifies this
      ensures plan == WithGroupBy(old(plan), groupby, aggrs)
    {
      var (needSort, i) := (false, 0);
      while !needSort && i < |groupby|
        invariant 0 <= i <= |groupby|
        invariant Requests(old(plan), OpenSpecs(groupby), 0) ==
                    if needSort then (false, plan) else Requests(plan, OpenSpecs(groupby), i)
        decreases !needSort, |groupby| - i
      {
        var (ok, q) := Ensure(plan, i, groupby[i], Any);
        plan, needSort, i := q, !ok, if ok then i + 1 else i;
      }
      if needSort {
        plan := Sorting(plan, OpenSpecs(groupby));
      }
      plan := Grouping(plan, groupby, aggrs);
    }

    method BuildPlanForFilter(predicatesInOr: seq<seq<Pred>>)
      modifies this
      ensures plan == Filtering(old(plan), predicatesInOr)
    {
      plan := Filtering(plan, predicatesInOr);
    }

    /** Asks for the items one by one; the sort is left out when all are granted. */
    method BuildPlanForOrderBy(items: seq<SortSpec>)
      modifies this
      ensures plan == WithOrderBy(old(plan), items)
    {
      var (alreadySorted, i) := (true, 0);
      while alreadySorted && i < |items|
        invariant 0 <= i <= |items|
        invariant Requests(old(plan), items, 0) == if alreadySorted then Requests(plan, items, i) else (false, plan)
        decreases alreadySorted, |items| - i
      {
        var (ok, q) := Ensure(plan, i, items[i].index, items[i].order);
        plan, alreadySorted, i := q, ok, if ok then i + 1 else i;
      }
      if !alreadySorted {
        plan := Sorting(plan, items);
      }
    }

    /**
     * GROUP BY, then HAVING, then ORDER BY: whatever the built plan delivers is sorted by the
     * ORDER BY list, and it delivers one row for each group, with the aggregates over the rows
     * of the group, and of these the ones that HAVING lets pass. Columns outside the group key
     * are those of some order of the rows.
     */
    method Build(groupby: Option<(seq<nat>, seq<AggrFunc>)>, having: Option<seq<seq<Pred>>>, orderby: seq<SortSpec>)
      requires Buildable(plan, groupby) && forall j :: 0 <= j < |orderby| ==> orderby[j].order != Any
      modifies this
      ensures plan == Built(old(plan), groupby, having, orderby)
      ensures forall out :: Delivers(plan, out) ==>
                SortedRows(orderby, out) && Coherent(plan) && Kept(plan) && GroupsPromised(plan)
      ensures Determined(old(plan)) && (groupby.Some? ==> FirstsAreKeys(groupby.value.0, groupby.value.1)) ==>
                forall out :: Delivers(plan, out) ==>
                  multiset(out) == multiset(Answer(Content(old(plan)), groupby, having))
      ensures Determined(old(plan)) && groupby.Some? ==>
                forall out :: Delivers(plan, out) ==>
                  FromSomeOrder(TypesOf(old(plan)), Content(old(plan)), groupby.value.0, groupby.value.1, having, out)
    {
      hide Buildable, Coherent, Kept, GroupsPromised, Delivers, Determined, SortedRows, WithGroupBy, WithOrderBy,
        Answer, FromSomeOrder, FirstsAreKeys, TypesOf, Content;
      ghost var p := plan;
      if groupby.Some? {
        BuildPlanForGroupBy(groupby.value.0, groupby.value.1);
      }
      if having.Some? {
        BuildPlanForFilter(having.value);
      }
      BuildPlanForOrderBy(orderby);
      forall out | Delivers(plan, out)
        ensures SortedRows(orderby, out) && Coherent(plan) && Kept(plan) && GroupsPromised(plan)
        ensures Determined(p) && (groupby.Some? ==> FirstsAreKeys(groupby.value.0, groupby.value.1)) ==>
                  multiset(out) == multiset(Answer(Content(p), groupby, having))
        ensures Determined(p) && groupby.Some? ==>
                  FromSomeOrder(TypesOf(p), Content(p), groupby.value.0, groupby.value.1, having, out)
      {
        BuiltDelivers(p, groupby, having, orderby, out);
      }
    }
  }

  // ---------- running a plan ----------

  function LessRows(specs: seq<SortSpec>, rows: seq<Row>): (nat, nat) -> bool {
    (a: nat, b: nat) => a < |rows| && b < |rows| && Precedes(specs, rows[a], rows[b])
  }

  lemma LessRowsIsWeakOrder(specs: seq<SortSpec>, rows: seq<Row>)
    ensures StdSort.StrictWeakOrder(LessRows(specs, rows), |rows|)
  {
    var less := LessRows(specs, rows);
    forall a: nat, b: nat, c: nat | a < |rows| && b < |rows| && c < |rows|
      ensures !(less(a, b) && less(b, a)) && (!less(a, b) && !less(b, c) ==> !less(a, c))
    {
      PrecedesIsWeakOrder(specs, rows[a], rows[b], rows[c]);
    }
  }

  /** Some grouping of the plan forms a sum that is not accepted. */
  ghost predicate Fails(p: Plan)
    requires Coherent(p)
  {
    match p
    case Table(_) | Union(_, _) | File(_, _) => false
    case Filtering(c, _) => Fails(c)
    case Projection(c, _) => Fails(c)
    case Sorting(c, _) => Fails(c)
    case Grouping(c, g, aggrs) =>
      Fails(c) || exists input :: Delivers(c, input) && !RunsFit(TypesOf(c), input, g, aggrs, 0)
  }

  /** Every plan can be run: it delivers something, or a sum is not accepted. */
  method Run(p: Plan) returns (ok: bool, out: seq<Row>)
    requires Coherent(p)
    ensures if ok then Delivers(p, out) else Fails(p)
    decreases p
  {
    match p
    case Table(s) => return true, s.Output();
    case Union(ss, order) => return true, Concat(if order == Descend then Reverse(Outputs(ss)) else Outputs(ss));
    case File(_, rows) => return true, rows;
    case Filtering(c, ors) =>
      ok, out := Run(c);
      if ok {
        out := Filter(out, Keeps(ors));
      }
    case Projection(c, columns) =>
      ok, out := Run(c);
      if ok {
        out := Projected(out, columns);
      }
    case Sorting(c, specs) =>
      ok, out := Run(c);
      if ok {
        LessRowsIsWeakOrder(specs, out);
        var perm := StdSort.Sort(LessRows(specs, out), |out|);
        SortedByMeansSorted(specs, out, LessRows(specs, out), perm);
        out := StdSort.Permuted(out, perm);
      }
    case Grouping(c, g, aggrs) =>
      ok, out := Run(c);
      if ok {
        ok := RunsFit(TypesOf(c), out, g, aggrs, 0);
        if ok {
          out := GroupRows(out, g, aggrs);
        }
      }
  }
}
