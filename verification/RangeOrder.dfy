/**
 * Sorted search ranges whose neighbours pass `startAfterEnd`
 * (planbuilder/LevelDBPlanBuilder.cpp:91-112).
 */
module RangeOrder {
  import opened Values
  import opened Predicates
  import opened KeyRange

  predicate HaveKeys(types: seq<ColType>, rs: seq<Range>) {
    forall i :: 0 <= i < |rs| ==> |rs[i].start| == |types| && |rs[i].end| == |types|
  }

  /** The ranges in the order std::sort leaves them in: none compares above a later one. */
  predicate SortedByStart(types: seq<ColType>, rs: seq<Range>) {
    && HaveKeys(types, rs)
    && (forall i :: 0 <= i < |rs| ==> rs[i].Valid(types))
    && forall i, j :: 0 <= i < j < |rs| ==> rs[i].CompareStart(rs[j]) <= 0
  }

  /** The check that the planner makes: each range starts after the end of the one before. */
  predicate NeighboursApart(types: seq<ColType>, rs: seq<Range>)
    requires HaveKeys(types, rs)
  {
    forall i :: 1 <= i < |rs| ==> rs[i].StartAfterEnd(rs[i - 1])
  }

  predicate AllApart(types: seq<ColType>, rs: seq<Range>)
    requires HaveKeys(types, rs)
  {
    forall i, j :: 0 <= i < j < |rs| ==> rs[j].StartAfterEnd(rs[i])
  }

  /** The ranges that are not degenerate are pairwise apart. */
  predicate NonDegenerateApart(types: seq<ColType>, rs: seq<Range>)
    requires HaveKeys(types, rs)
  {
    forall i, j :: 0 <= i < j < |rs| && rs[i].NonDegenerate() && rs[j].NonDegenerate() ==>
      rs[j].StartAfterEnd(rs[i])
  }

  ghost predicate PairwiseDisjoint(types: seq<ColType>, rs: seq<Range>)
    requires HaveKeys(types, rs)
  {
    forall i, j, key :: 0 <= i < j < |rs| && StorableRow(types, key) ==>
      !(rs[i].Contains(key) && rs[j].Contains(key))
  }

  /** A start is never above a later start. */
  lemma StartsAscend(types: seq<ColType>, a: Range, b: Range)
    requires a.Valid(types) && b.Valid(types) && a.CompareStart(b) <= 0
    ensures LexCompare(a.start, b.start) <= 0
  {
    if a.seekToFirst {
      LexAboveMin(types, b.start, a.start);
    }
  }

  /** The end of a range is never above the start of a later one. */
  lemma {:induction false} EndsBeforeStarts(types: seq<ColType>, rs: seq<Range>, i: nat, j: nat)
    requires SortedByStart(types, rs) && NeighboursApart(types, rs) && i < j < |rs|
    ensures LexCompare(rs[i].end, rs[j].start) <= 0
    ensures !rs[i].seekToLast && !rs[j].seekToFirst
  {
    assert rs[j].StartAfterEnd(rs[j - 1]) && rs[i + 1].StartAfterEnd(rs[i]);
    LexOrder(rs[i].end, rs[i + 1].start);
    if i + 1 < j {
      StartsAscend(types, rs[i + 1], rs[j]);
      LexTransitive(rs[i].end, rs[i + 1].start, rs[j].start);
    }
  }

  /** A key in a range is between its start and its end. */
  lemma Between(types: seq<ColType>, r: Range, key: seq<Value>)
    requires r.Valid(types) && StorableRow(types, key) && r.Contains(key)
    ensures LexCompare(r.start, key) <= 0 && LexCompare(key, r.end) <= 0
    ensures r.NonDegenerate()
  {
    if r.seekToFirst {
      LexAboveMin(types, key, r.start);
    }
    if r.seekToLast {
      LexBelowMax(types, key, r.end);
    }
    LexOrder(r.start, key);
    LexOrder(key, r.end);
    LexTransitive(r.start, key, r.end);
  }

  /** Keys of a range are below the keys of a range that starts after its end. */
  lemma ApartMeansBelow(types: seq<ColType>, a: Range, b: Range, x: seq<Value>, y: seq<Value>)
    requires a.Valid(types) && b.Valid(types) && b.StartAfterEnd(a)
    requires StorableRow(types, x) && StorableRow(types, y) && a.Contains(x) && b.Contains(y)
    ensures LexCompare(x, y) < 0
  {
    Between(types, a, x);
    Between(types, b, y);
    LexOrder(b.start, a.end);
    LexOrder(b.start, y);
    LexOrder(x, a.end);
    LexTransitive(x, a.end, b.start);
    LexTransitive(x, b.start, y);
  }

  /** A range between two ranges that meet is their meeting point, so one of them leaves it out. */
  lemma TouchingThroughPoint(types: seq<ColType>, a: Range, m: Range, b: Range)
    requires a.Valid(types) && m.Valid(types) && b.Valid(types)
    requires m.StartAfterEnd(a) && m.NonDegenerate() && !a.seekToLast && !b.seekToFirst
    requires LexCompare(a.end, b.start) <= 0 && LexCompare(m.end, b.start) <= 0
    ensures b.StartAfterEnd(a)
  {
    LexOrder(a.end, b.start);
    LexOrder(a.end, m.start);
    LexOrder(m.start, m.end);
    LexOrder(m.end, b.start);
    LexTransitive(a.end, m.start, m.end);
    LexTransitive(a.end, m.end, b.start);
  }

  /** When no range is degenerate, checking the neighbours is checking every pair. */
  lemma NeighboursSuffice(types: seq<ColType>, rs: seq<Range>)
    requires SortedByStart(types, rs) && NeighboursApart(types, rs)
    requires forall i :: 0 <= i < |rs| ==> rs[i].NonDegenerate()
    ensures AllApart(types, rs)
  {
    forall i, j | 0 <= i < j < |rs| ensures rs[j].StartAfterEnd(rs[i]) {
      PairApart(types, rs, i, j);
    }
  }

  lemma PairApart(types: seq<ColType>, rs: seq<Range>, i: nat, j: nat)
    requires SortedByStart(types, rs) && NeighboursApart(types, rs) && i < j < |rs|
    requires rs[i + 1].NonDegenerate()
    ensures rs[j].StartAfterEnd(rs[i])
  {
    assert rs[i + 1].StartAfterEnd(rs[i]);
    if i + 1 < j {
      EndsBeforeStarts(types, rs, i, j);
      EndsBeforeStarts(types, rs, i + 1, j);
      TouchingThroughPoint(types, rs[i], rs[i + 1], rs[j]);
    }
  }

  /** Two non-degenerate ranges are apart, in whichever order they come. */
  predicate EitherWayApart(a: Range, b: Range)
    requires |a.start| == |a.end| == |b.start| == |b.end|
  {
    a.NonDegenerate() && b.NonDegenerate() ==> b.StartAfterEnd(a) || a.StartAfterEnd(b)
  }

  /** In sorted ranges with neighbours apart, apart in either order is apart in this order. */
  lemma ApartInThisOrder(types: seq<ColType>, rs: seq<Range>)
    requires SortedByStart(types, rs) && NeighboursApart(types, rs)
    requires forall i, j :: 0 <= i < j < |rs| ==> EitherWayApart(rs[i], rs[j])
    ensures NonDegenerateApart(types, rs)
  {
    forall i, j | 0 <= i < j < |rs| && rs[i].NonDegenerate() && rs[j].NonDegenerate()
      ensures rs[j].StartAfterEnd(rs[i])
    {
      assert EitherWayApart(rs[i], rs[j]);
      if rs[i].StartAfterEnd(rs[j]) {
        EndsBeforeStarts(types, rs, i, j);
        SameOrderTwice(rs[i], rs[j]);
      }
    }
  }

  lemma SameOrderTwice(a: Range, b: Range)
    requires |a.start| == |a.end| == |b.start| == |b.end|
    requires a.NonDegenerate() && b.NonDegenerate() && LexCompare(a.end, b.start) <= 0
    ensures !a.StartAfterEnd(b)
  {
    if a.StartAfterEnd(b) {
      LexOrder(a.start, b.end);
      LexOrder(a.start, a.end);
      LexOrder(b.start, b.end);
      LexTransitive(a.start, a.end, b.start);
      LexTransitive(a.start, b.start, b.end);
      LexOrder(a.end, b.start);
    }
  }

  /**
   * Exactly when sorted ranges with neighbours apart share no key: when the ranges that are
   * not degenerate are pairwise apart. A degenerate range between two others hides from the
   * neighbour check that those two meet.
   */
  lemma DisjointExactly(types: seq<ColType>, rs: seq<Range>)
    requires SortedByStart(types, rs) && NeighboursApart(types, rs)
    ensures PairwiseDisjoint(types, rs) <==> NonDegenerateApart(types, rs)
  {
    if NonDegenerateApart(types, rs) {
      forall i, j, key | 0 <= i < j < |rs| && StorableRow(types, key) && rs[i].Contains(key) && rs[j].Contains(key)
        ensures false
      {
        Between(types, rs[i], key);
        Between(types, rs[j], key);
        ApartMeansBelow(types, rs[i], rs[j], key, key);
        LexOrder(key, key);
      }
    } else {
      var i, j :| 0 <= i < j < |rs| && rs[i].NonDegenerate() && rs[j].NonDegenerate() && !rs[j].StartAfterEnd(rs[i]);
      EndsBeforeStarts(types, rs, i, j);
      var key := rs[j].start;
      LexOrder(rs[i].end, key);
      LexOrder(rs[i].start, key);
      LexOrder(key, rs[j].end);
      LexOrder(key, key);
      assert rs[i].end == key;
      assert StorableRow(types, key) && rs[i].Contains(key) && rs[j].Contains(key);
    }
  }

  /** `k op ?` on the first key column. */
  function KeyIs(op: CmpOp, v: Value, text: string): Pred {
    Cmp(op, Column(0, "k"), Constant(v, "?"), text)
  }

  function UpTo(v: Value): Pred {
    KeyIs(LE, v, "k <= v")
  }

  /** A range that holds no key. */
  function Nowhere(v: Value): Pred {
    And(KeyIs(GT, v, "k > v"), KeyIs(LT, v, "k < v"))
  }

  function From(v: Value): Pred {
    KeyIs(GE, v, "k >= v")
  }

  /** The search range of a conjunction on one key column. */
  function RangeOn(t: ColType, p: Pred): (r: Range)
    ensures r.HasKeys(1)
  {
    RangeOf([t], Leaves(p))
  }

  /** The interval of a lower and an upper bound on the only key column. */
  lemma OneColumn(t: ColType, low: Bound, high: Bound)
    requires low.Bound? ==> low.col == 0 && low.op in {GT, GE}
    requires high.Bound? ==> high.col == 0 && high.op in {LT, LE}
    ensures var picks := Picks([low], high);
            && picks.ToRange([t]) ==
                 Range([if low.Bound? then low.value else MinValue(t)],
                       [if high.Bound? then high.value else MaxValue(t)],
                       !(low.Bound? && low.op == GT), !(high.Bound? && high.op == LT), low == NoBound, high == NoBound)
            && (low.Bound? ==> low.text in picks.Solved()) && (high.Bound? ==> high.text in picks.Solved())
  {
    assert Picks([low], high).EqCount() == 0;
  }

  lemma TwoTextsAgree(p: Pred, q: Pred)
    requires p.Cmp? && q.Cmp? && p.text != q.text
    ensures TextsAgree([] + [p] + [q])
  {
    hide SameOperand;
    assert forall r :: r in [] + [p] + [q] ==> r in {p, q};
    assert forall r :: r in {p, q} ==> SameOperand(r.lhs, r.lhs) && SameOperand(r.rhs, r.rhs) by {
      SameAsItself(p);
      SameAsItself(q);
    }
  }

  lemma SameAsItself(p: Pred)
    requires p.Cmp?
    ensures SameOperand(p.lhs, p.lhs) && SameOperand(p.rhs, p.rhs)
  {
  }

  lemma UpToRange(t: ColType, v: Value)
    ensures RangeOf([t], Leaves(UpTo(v))) == Range([MinValue(t)], [v], true, true, true, false)
    ensures SolvedOf(1, Leaves(UpTo(v))) != {} && TextsAgree(Leaves(UpTo(v)))
  {
    hide Picks.ToRange, Picks.Solved, LowerPick, UpperPick;
    assert Leaves(UpTo(v)) == [] + [UpTo(v)];
    NothingPicked(1);
    PickStep(1, [], UpTo(v));
    assert PicksOf(1, [] + [UpTo(v)]) == Picks([NoBound], BoundOf(1, UpTo(v)));
    OneColumn(t, NoBound, BoundOf(1, UpTo(v)));
  }

  lemma NowhereRange(t: ColType, v: Value)
    ensures RangeOf([t], Leaves(Nowhere(v))) == Range([v], [v], false, false, false, false)
    ensures SolvedOf(1, Leaves(Nowhere(v))) != {} && TextsAgree(Leaves(Nowhere(v)))
  {
    hide Picks.ToRange, Picks.Solved, LowerPick, UpperPick, TextsAgree;
    var (above, below) := (KeyIs(GT, v, "k > v"), KeyIs(LT, v, "k < v"));
    assert "k > v"[2] != "k < v"[2];
    assert Leaves(above) == [above] && Leaves(below) == [below] && Leaves(Nowhere(v)) == [] + [above] + [below];
    NothingPicked(1);
    PickStep(1, [], above);
    PickStep(1, [] + [above], below);
    TwoTextsAgree(above, below);
    assert PicksOf(1, [] + [above] + [below]) == Picks([BoundOf(1, above)], BoundOf(1, below));
    OneColumn(t, BoundOf(1, above), BoundOf(1, below));
  }

  lemma FromRange(t: ColType, v: Value)
    ensures RangeOf([t], Leaves(From(v))) == Range([v], [MaxValue(t)], true, true, false, true)
    ensures SolvedOf(1, Leaves(From(v))) != {} && TextsAgree(Leaves(From(v)))
  {
    hide Picks.ToRange, Picks.Solved, LowerPick, UpperPick;
    assert Leaves(From(v)) == [] + [From(v)];
    NothingPicked(1);
    PickStep(1, [], From(v));
    assert PicksOf(1, [] + [From(v)]) == Picks([BoundOf(1, From(v))], NoBound);
    OneColumn(t, BoundOf(1, From(v)), NoBound);
  }

  /**
   * The neighbour check alone is not enough: the ranges of `k <= v`, `k > v AND k < v` and
   * `k >= v` are sorted with neighbours apart, and the key v is in the first and in the last.
   */
  lemma DegenerateRangeHidesOverlap(t: ColType, v: Value)
    requires Storable(t, v)
    ensures var (a, m, b) := (RangeOn(t, UpTo(v)), RangeOn(t, Nowhere(v)), RangeOn(t, From(v)));
            && SortedByStart([t], [a, m, b]) && NeighboursApart([t], [a, m, b])
            && !m.NonDegenerate() && a.Contains([v]) && b.Contains([v]) && !PairwiseDisjoint([t], [a, m, b])
  {
    hide RangeOf, LexCompare, SortedByStart, NeighboursApart, PairwiseDisjoint, Range.NonDegenerate, Range.Contains;
    UpToRange(t, v);
    NowhereRange(t, v);
    FromRange(t, v);
    HiddenOverlap(t, v, RangeOn(t, UpTo(v)), RangeOn(t, Nowhere(v)), RangeOn(t, From(v)));
  }

  lemma HiddenOverlap(t: ColType, v: Value, a: Range, m: Range, b: Range)
    requires Storable(t, v)
    requires a == Range([MinValue(t)], [v], true, true, true, false)
    requires m == Range([v], [v], false, false, false, false)
    requires b == Range([v], [MaxValue(t)], true, true, false, true)
    ensures SortedByStart([t], [a, m, b]) && NeighboursApart([t], [a, m, b])
    ensures !m.NonDegenerate() && a.Contains([v]) && b.Contains([v]) && !PairwiseDisjoint([t], [a, m, b])
  {
    hide LexCompare, SortedByStart, NeighboursApart;
    LexOrder([v], [v]);
    ThreeRanges([t], a, m, b);
    assert StorableRow([t], [v]) && [a, m, b][0].Contains([v]) && [a, m, b][2].Contains([v]);
  }

  lemma ThreeRanges(types: seq<ColType>, a: Range, m: Range, b: Range)
    requires a.Valid(types) && m.Valid(types) && b.Valid(types)
    requires a.CompareStart(m) <= 0 && a.CompareStart(b) <= 0 && m.CompareStart(b) <= 0
    requires m.StartAfterEnd(a) && b.StartAfterEnd(m)
    ensures SortedByStart(types, [a, m, b]) && NeighboursApart(types, [a, m, b])
  {
    hide Range.CompareStart, Range.StartAfterEnd, FitsRow, StorableRow;
    var rs := [a, m, b];
    forall i, j | 0 <= i < j < |rs| ensures HaveKeys(types, rs) && rs[i].CompareStart(rs[j]) <= 0 {
      assert i == 0 || i == 1;
      assert j == 1 || j == 2;
    }
  }
}
