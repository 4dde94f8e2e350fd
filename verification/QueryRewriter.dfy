/** Rewriting of WHERE predicates into a disjunction of conjunctions (common/QueryRewritter.cpp). */
module QueryRewriter {
  import opened Values
  import opened Predicates

  function OneOf(item: Operand, v: Operand, negated: bool): Pred {
    Cmp(if negated then NE else EQ, item, v, item.text + (if negated then "!=" else "=") + v.text)
  }

  /** IN and NOT IN become one comparison, or an OR of comparisons, with a constant each. */
  function RewriteIn(p: Pred): Pred
    requires p.In? && p.values != []
  {
    if |p.values| == 1 then OneOf(p.item, p.values[0], p.negated)
    else Or(seq(|p.values|, i requires 0 <= i < |p.values| => OneOf(p.item, p.values[i], p.negated)))
  }

  method RewriteInOrNotIn(p: Pred) returns (q: Pred)
    requires p.In? && p.values != []
    ensures q == RewriteIn(p)
  {
    var expressions := [];
    for i := 0 to |p.values|
      invariant expressions == seq(i, k requires 0 <= k < i => OneOf(p.item, p.values[k], p.negated))
    {
      expressions := expressions + [OneOf(p.item, p.values[i], p.negated)];
    }
    q := if |expressions| == 1 then expressions[0] else Or(expressions);
  }

  /** The rewritten tree and whether it holds an OR. */
  function RewriteOp(p: Pred): (Pred, bool)
    requires Parsed(p)
  {
    match p
    case And(l, r) =>
      var (l', hasOrL) := RewriteOp(l);
      var (r', hasOrR) := RewriteOp(r);
      (And(l', r'), hasOrL || hasOrR)
    case Or(cs) => (Or(seq(|cs|, i requires 0 <= i < |cs| => RewriteOp(cs[i]).0)), true)
    case In(_, vs, _, _) => var q := RewriteIn(p); (q, q.Or?)
    case Cmp(_, _, _, _) => (p, false)
  }

  function Pair(left: Pred, right: seq<Pred>): seq<Pred> {
    seq(|right|, j requires 0 <= j < |right| => And(left, right[j]))
  }

  function Cross(left: seq<Pred>, right: seq<Pred>): seq<Pred> {
    if left == [] then [] else Cross(left[..|left| - 1], right) + Pair(left[|left| - 1], right)
  }

  /** The conjunctions of the disjunctive form of `p`. */
  function Disjuncts(p: Pred): seq<Pred>
    decreases p, 0
  {
    match p
    case And(l, r) => if HasOr(p) then Cross(Disjuncts(l), Disjuncts(r)) else [p]
    case Or(cs) => DisjunctsOf(p, |cs|)
    case _ => [p]
  }

  function DisjunctsOf(p: Pred, n: nat): seq<Pred>
    requires p.Or? && n <= |p.children|
    decreases p, 0, n
  {
    if n == 0 then [] else DisjunctsOf(p, n - 1) + Disjuncts(p.children[n - 1])
  }

  method CollectOrOperators(p: Pred) returns (operators: seq<Pred>)
    ensures operators == Disjuncts(p)
  {
    match p
    case And(l, r) =>
      if !HasOr(p) {
        return [p];
      }
      var left := CollectOrOperators(l);
      var right := CollectOrOperators(r);
      operators := [];
      for i := 0 to |left|
        invariant operators == Cross(left[..i], right)
      {
        ghost var before := operators;
        for j := 0 to |right|
          invariant operators == before + Pair(left[i], right)[..j]
        {
          operators := operators + [And(left[i], right[j])];
        }
        assert left[..i + 1][..i] == left[..i];
        assert Pair(left[i], right)[..|right|] == Pair(left[i], right);
      }
      assert left[..|left|] == left;
    case Or(cs) =>
      operators := [];
      for i := 0 to |cs|
        invariant operators == DisjunctsOf(p, i)
      {
        var more := CollectOrOperators(cs[i]);
        operators := operators + more;
      }
    case _ =>
      operators := [p];
  }

  /** The whole rewriting of a WHERE predicate. */
  function Rewrite(p: Pred): Pred
    requires Parsed(p)
  {
    var (q, hasOr) := RewriteOp(p);
    if hasOr then Or(Disjuncts(q)) else q
  }

  // ---------- lifting preserves meaning ----------

  lemma {:induction false} CrossMembers(left: seq<Pred>, right: seq<Pred>)
    ensures |Cross(left, right)| == |left| * |right|
    ensures forall l, r :: l in left && r in right ==> And(l, r) in Cross(left, right)
    ensures forall d :: d in Cross(left, right) ==> d.And? && d.left in left && d.right in right
  {
    if left != [] {
      var n := |left| - 1;
      CrossMembers(left[..n], right);
      var row := Pair(left[n], right);
      assert forall r :: r in right ==> And(left[n], r) in row by {
        forall r | r in right ensures And(left[n], r) in row {
          var j :| 0 <= j < |right| && right[j] == r;
          assert row[j] == And(left[n], r);
        }
      }
      assert left == left[..n] + [left[n]];
      assert |Cross(left, right)| == n * |right| + |right| == (n + 1) * |right|;
    }
  }

  /** Under every valuation of the leaves some disjunct holds exactly when the tree holds. */
  lemma {:induction false} LiftPreservesMeaning(p: Pred, val: Pred -> bool)
    ensures (exists d :: d in Disjuncts(p) && EvalBy(d, val)) <==> EvalBy(p, val)
    decreases p, 0
  {
    match p
    case And(l, r) =>
      if HasOr(p) {
        LiftPreservesMeaning(l, val);
        LiftPreservesMeaning(r, val);
        CrossMembers(Disjuncts(l), Disjuncts(r));
        if EvalBy(p, val) {
          var dl :| dl in Disjuncts(l) && EvalBy(dl, val);
          var dr :| dr in Disjuncts(r) && EvalBy(dr, val);
          assert And(dl, dr) in Disjuncts(p) && EvalBy(And(dl, dr), val);
        }
      } else {
        assert p in Disjuncts(p);
      }
    case Or(cs) =>
      LiftPreservesMeaningOf(p, |cs|, val);
    case _ =>
      assert p in Disjuncts(p);
  }

  lemma {:induction false} LiftPreservesMeaningOf(p: Pred, n: nat, val: Pred -> bool)
    requires p.Or? && n <= |p.children|
    ensures (exists d :: d in DisjunctsOf(p, n) && EvalBy(d, val)) <==>
            exists i :: 0 <= i < n && EvalBy(p.children[i], val)
    decreases p, 0, n
  {
    if n > 0 {
      LiftPreservesMeaningOf(p, n - 1, val);
      LiftPreservesMeaning(p.children[n - 1], val);
    }
  }

  // ---------- shape and number of the disjuncts ----------

  /** Every OR in the tree has at least two children, as after rewriting. */
  predicate WideOrs(p: Pred) {
    match p
    case And(l, r) => WideOrs(l) && WideOrs(r)
    case Or(cs) => |cs| >= 2 && forall i :: 0 <= i < |cs| ==> WideOrs(cs[i])
    case _ => true
  }

  /** The product over AND and the sum over OR. */
  function DisjunctCount(p: Pred): nat
    decreases p, 0
  {
    match p
    case And(l, r) => DisjunctCount(l) * DisjunctCount(r)
    case Or(cs) => DisjunctCountOf(p, |cs|)
    case _ => 1
  }

  function DisjunctCountOf(p: Pred, n: nat): nat
    requires p.Or? && n <= |p.children|
    decreases p, 0, n
  {
    if n == 0 then 0 else DisjunctCountOf(p, n - 1) + DisjunctCount(p.children[n - 1])
  }

  function Pow2(n: nat): nat {
    if n == 0 then 1 else 2 * Pow2(n - 1)
  }

  lemma {:induction false} Pow2Sum(a: nat, b: nat)
    ensures Pow2(a + b) == Pow2(a) * Pow2(b)
    ensures Pow2(a) >= 1
  {
    if a > 0 {
      Pow2Sum(a - 1, b);
      assert Pow2(a + b) == 2 * Pow2(a - 1 + b);
    } else {
      Pow2Positive(b);
    }
  }

  lemma {:induction false} Pow2Positive(a: nat)
    ensures Pow2(a) >= 1
  {
    if a > 0 {
      Pow2Positive(a - 1);
    }
  }

  lemma {:induction false} NoOrCountsOnce(p: Pred)
    requires !HasOr(p)
    ensures DisjunctCount(p) == 1
  {
    if p.And? {
      NoOrCountsOnce(p.left);
      NoOrCountsOnce(p.right);
    }
  }

  /** The product of two counts within the bound for the leaves of both sides. */
  lemma CountsMultiply(x: nat, a: nat, y: nat, b: nat)
    requires a >= 1 && b >= 1 && 1 <= x <= Pow2(a - 1) && 1 <= y <= Pow2(b - 1)
    ensures 1 <= x * y <= Pow2(a + b - 1) && (x >= 2 || y >= 2 ==> x * y >= 2)
  {
    Pow2Sum(a - 1, b - 1);
    Pow2Sum(1, a - 1 + b - 1);
    ProductBound(x, Pow2(a - 1), y, Pow2(b - 1));
    ProductBound(1, x, 1, y);
    if x >= 2 {
      ProductBound(2, x, 1, y);
    } else if y >= 2 {
      ProductBound(1, x, 2, y);
    }
  }

  lemma CountsAdd(a: nat, b: nat)
    requires a >= 1 && b >= 1
    ensures Pow2(a - 1) + Pow2(b - 1) <= Pow2(a + b - 1)
  {
    Pow2Sum(a - 1, b - 1);
    Pow2Sum(b - 1, a - 1);
    Pow2Sum(1, a - 1 + b - 1);
    assert Pow2(a + b - 1) == 2 * (Pow2(a - 1) * Pow2(b - 1));
    SumBelowProduct(Pow2(a - 1), Pow2(b - 1));
  }

  /**
   * No disjunct holds an OR; their number is the product over AND and the sum over OR, at
   * least two when there is an OR at all, and at most 2 to the power of leaves minus one.
   */
  lemma {:induction false} LiftedShape(p: Pred)
    requires WideOrs(p)
    ensures forall d :: d in Disjuncts(p) ==> !HasOr(d)
    ensures |Disjuncts(p)| == DisjunctCount(p) >= (if HasOr(p) then 2 else 1)
    ensures |Leaves(p)| >= 1 && DisjunctCount(p) <= Pow2(|Leaves(p)| - 1)
    decreases p, 0
  {
    match p
    case And(l, r) =>
      LiftedShape(l);
      LiftedShape(r);
      CountsMultiply(DisjunctCount(l), |Leaves(l)|, DisjunctCount(r), |Leaves(r)|);
      if HasOr(p) {
        CrossMembers(Disjuncts(l), Disjuncts(r));
      } else {
        NoOrCountsOnce(p);
      }
    case Or(cs) =>
      LiftedShapeOf(p, |cs|);
    case _ =>
  }

  lemma ProductBound(a: nat, b: nat, c: nat, d: nat)
    requires a <= b && c <= d
    ensures a * c <= b * d
  {
  }

  lemma {:induction false} LiftedShapeOf(p: Pred, n: nat)
    requires p.Or? && WideOrs(p) && n <= |p.children|
    ensures forall d :: d in DisjunctsOf(p, n) ==> !HasOr(d)
    ensures |DisjunctsOf(p, n)| == DisjunctCountOf(p, n) >= n
    ensures |LeavesOf(p, n)| >= n
    ensures n > 0 ==> DisjunctCountOf(p, n) <= Pow2(|LeavesOf(p, n)| - 1)
    decreases p, 0, n
  {
    if n > 0 {
      var c := p.children[n - 1];
      LiftedShapeOf(p, n - 1);
      LiftedShape(c);
      if n > 1 {
        CountsAdd(|LeavesOf(p, n - 1)|, |Leaves(c)|);
      }
    }
  }

  lemma SumBelowProduct(x: nat, y: nat)
    requires x >= 1 && y >= 1
    ensures x + y <= 2 * (x * y)
  {
  }

  // ---------- the rewriting as a whole ----------

  lemma {:induction false} RewriteOpShape(p: Pred)
    requires Parsed(p)
    ensures var (q, hasOr) := RewriteOp(p); hasOr == HasOr(q) && WideOrs(q) && !HasIn(q)
  {
    match p
    case And(l, r) =>
      RewriteOpShape(l);
      RewriteOpShape(r);
    case Or(cs) =>
      forall i | 0 <= i < |cs|
        ensures WideOrs(RewriteOp(cs[i]).0) && !HasIn(RewriteOp(cs[i]).0)
      {
        RewriteOpShape(cs[i]);
      }
    case _ =>
  }

  /**
   * When the tree holds an OR after IN has been expanded, the result is an OR of at least two
   * conjunctions without OR; otherwise it is one conjunction.
   */
  lemma RewriteShape(p: Pred)
    requires Parsed(p)
    ensures var q := Rewrite(p);
            if HasOr(RewriteOp(p).0) then q.Or? && |q.children| >= 2 && forall d :: d in q.children ==> !HasOr(d)
            else !HasOr(q)
  {
    RewriteOpShape(p);
    LiftedShape(RewriteOp(p).0);
  }

  /** All the values of the list are the same value. */
  predicate OneValue(values: seq<Operand>) {
    forall i, j :: 0 <= i < |values| && 0 <= j < |values| ==>
      values[i].Constant? && values[j].Constant? && values[i].value == values[j].value
  }

  /** Every NOT IN of the tree lists one value only. */
  predicate NotInsListOneValue(p: Pred) {
    match p
    case And(l, r) => NotInsListOneValue(l) && NotInsListOneValue(r)
    case Or(cs) => forall i :: 0 <= i < |cs| ==> NotInsListOneValue(cs[i])
    case Cmp(_, _, _, _) => true
    case In(_, vs, negated, _) => negated ==> OneValue(vs)
  }

  /** IN is always rewritten faithfully; NOT IN is when its list holds one value. */
  lemma RewriteInMeaning(p: Pred, row: seq<Value>)
    requires p.In? && Parsed(p)
    requires p.negated ==> OneValue(p.values)
    ensures Sat(RewriteIn(p), row) == Sat(p, row)
  {
    var vs := p.values;
    if |vs| == 1 {
      assert vs[0] in vs;
    } else {
      var q := RewriteIn(p);
      assert forall i :: 0 <= i < |vs| ==> q.children[i] == OneOf(p.item, vs[i], p.negated);
      var x := ValueOf(p.item, row);
      if p.negated {
        assert forall i :: 0 <= i < |vs| ==> ValueOf(vs[i], row) == vs[0].value;
        assert Sat(q.children[0], row) == (Compare(x, vs[0].value) != 0);
      } else {
        assert forall i :: 0 <= i < |vs| ==> Sat(q.children[i], row) == (Compare(x, ValueOf(vs[i], row)) == 0);
      }
    }
  }

  /**
   * NOT IN on a column means the same after rewriting exactly when its list holds one value:
   * with two different values the OR of `!=` accepts every row.
   */
  lemma NotInExactly(p: Pred)
    requires p.In? && p.negated && Parsed(p) && p.item.Column?
    ensures OneValue(p.values) <==>
            forall row: seq<Value> :: |row| > p.item.index ==> Sat(RewriteIn(p), row) == Sat(p, row)
  {
    if OneValue(p.values) {
      forall row: seq<Value> ensures Sat(RewriteIn(p), row) == Sat(p, row) {
        RewriteInMeaning(p, row);
      }
    } else {
      var vs := p.values;
      var i, j :| 0 <= i < |vs| && 0 <= j < |vs| && vs[i].value != vs[j].value;
      var row := seq(p.item.index + 1, _ => vs[i].value);
      CompareOrder(vs[i].value, vs[i].value);
      CompareOrder(vs[i].value, vs[j].value);
      assert !Sat(p, row);
      assert RewriteIn(p).children[j] == OneOf(p.item, vs[j], true);
      assert Sat(RewriteIn(p).children[j], row);
      assert |row| > p.item.index && Sat(RewriteIn(p), row) != Sat(p, row);
    }
  }

  lemma {:induction false} RewriteOpMeaning(p: Pred, row: seq<Value>)
    requires Parsed(p) && NotInsListOneValue(p)
    ensures Sat(RewriteOp(p).0, row) == Sat(p, row)
  {
    match p
    case And(l, r) =>
      RewriteOpMeaning(l, row);
      RewriteOpMeaning(r, row);
    case Or(cs) =>
      var q := RewriteOp(p).0;
      forall i | 0 <= i < |cs| ensures Sat(q.children[i], row) == Sat(cs[i], row) {
        RewriteOpMeaning(cs[i], row);
      }
    case In(_, _, _, _) =>
      RewriteInMeaning(p, row);
    case Cmp(_, _, _, _) =>
  }

  /** The rewritten predicate accepts the rows that the original accepts. */
  lemma RewritePreservesMeaning(p: Pred, row: seq<Value>)
    requires Parsed(p) && NotInsListOneValue(p)
    ensures Sat(Rewrite(p), row) == Sat(p, row)
  {
    var (q, hasOr) := RewriteOp(p);
    RewriteOpMeaning(p, row);
    if hasOr {
      var ds := Disjuncts(q);
      LiftPreservesMeaning(q, OnRow(row));
      SatIsEvalBy(q, row);
      SatIsEvalBy(Or(ds), row);
      assert EvalBy(Or(ds), OnRow(row)) <==>
        exists d :: d in ds && EvalBy(d, OnRow(row));
    }
  }

  /** Lifting adds no leaf: every leaf of a disjunct is a leaf of the tree. */
  lemma {:induction false} DisjunctLeaves(p: Pred)
    ensures forall d, q :: d in Disjuncts(p) && q in Leaves(d) ==> q in Leaves(p)
    decreases p, 0
  {
    match p
    case And(l, r) =>
      if HasOr(p) {
        DisjunctLeaves(l);
        DisjunctLeaves(r);
        CrossMembers(Disjuncts(l), Disjuncts(r));
        forall d, q | d in Disjuncts(p) && q in Leaves(d) ensures q in Leaves(p) {
          assert q in Leaves(d.left) || q in Leaves(d.right);
        }
      }
    case Or(cs) =>
      DisjunctLeavesOf(p, |cs|);
    case _ =>
  }

  lemma {:induction false} DisjunctLeavesOf(p: Pred, n: nat)
    requires p.Or? && n <= |p.children|
    ensures forall d, q :: d in DisjunctsOf(p, n) && q in Leaves(d) ==> q in LeavesOf(p, n)
    decreases p, 0, n
  {
    if n > 0 {
      DisjunctLeavesOf(p, n - 1);
      DisjunctLeaves(p.children[n - 1]);
    }
  }
}
