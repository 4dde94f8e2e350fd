/** Predicate trees (common/ParseNode.h) and what they mean on a row. */
module Predicates {
  import opened Values

  datatype CmpOp = EQ | NE | LE | LT | GT | GE | LIKE

  /**
   * A column, named by the result index that the scan's `addProjection` gives it, or a
   * constant, already converted by the column's handler. `text` is the SQL text.
   */
  datatype Operand =
    | Column(index: nat, text: string)
    | Constant(value: Value, text: string)

  datatype Pred =
    | And(left: Pred, right: Pred)
    | Or(children: seq<Pred>)
    | Cmp(op: CmpOp, lhs: Operand, rhs: Operand, text: string)
    | In(item: Operand, values: seq<Operand>, negated: bool, text: string)

  /** Trees as the grammar builds them: binary OR, non-empty lists of constants. */
  predicate Parsed(p: Pred) {
    match p
    case And(l, r) => Parsed(l) && Parsed(r)
    case Or(cs) => |cs| == 2 && forall i :: 0 <= i < |cs| ==> Parsed(cs[i])
    case Cmp(_, _, _, _) => true
    case In(_, vs, _, _) => vs != [] && forall i :: 0 <= i < |vs| ==> vs[i].Constant?
  }

  /** The tree under an arbitrary valuation of everything that is not AND or OR. */
  ghost predicate EvalBy(p: Pred, val: Pred -> bool) {
    match p
    case And(l, r) => EvalBy(l, val) && EvalBy(r, val)
    case Or(cs) => exists i :: 0 <= i < |cs| && EvalBy(cs[i], val)
    case _ => val(p)
  }

  /** The value of an operand on a row; columns that a statement names exist. */
  function ValueOf(o: Operand, row: seq<Value>): Value {
    match o
    case Constant(v, _) => v
    case Column(i, _) => if i < |row| then row[i] else MaxString
  }

  predicate OccursAt(s: seq<Byte>, t: seq<Byte>, i: nat) {
    i + |t| <= |s| && s[i..i + |t|] == t
  }

  predicate Contains(s: seq<Byte>, t: seq<Byte>) {
    exists i :: 0 <= i <= |s| && OccursAt(s, t, i)
  }

  /** One comparison of two values, as `evaluate` decides it. */
  predicate Holds(op: CmpOp, x: Value, y: Value) {
    match op
    case EQ => Compare(x, y) == 0
    case NE => Compare(x, y) != 0
    case LE => Compare(x, y) <= 0
    case LT => Compare(x, y) < 0
    case GT => Compare(x, y) > 0
    case GE => Compare(x, y) >= 0
    case LIKE => x.StrV? && y.StrV? && Contains(x.s, y.s)
  }

  /** LIKE holds exactly of a string that has the pattern in it somewhere. */
  lemma LikeMeaning(s: seq<Byte>, t: seq<Byte>)
    ensures Holds(LIKE, StrV(s), StrV(t)) <==> exists p: seq<Byte>, q: seq<Byte> :: s == p + t + q
  {
    if i :| 0 <= i <= |s| && OccursAt(s, t, i) {
      assert s == s[..i] + t + s[i + |t|..];
    }
    if p: seq<Byte>, q: seq<Byte> :| s == p + t + q {
      assert OccursAt(s, t, |p|);
    }
  }

  /** The other comparisons of numbers and of strings, each by what it says of them. */
  lemma ComparisonMeaning(op: CmpOp, x: Value, y: Value)
    requires op != LIKE
    ensures x.IntV? && y.IntV? ==>
              Holds(op, x, y) == match op
                                 case EQ => x.n == y.n
                                 case NE => x.n != y.n
                                 case LE => x.n <= y.n
                                 case LT => x.n < y.n
                                 case GT => x.n > y.n
                                 case GE => x.n >= y.n
    ensures op == EQ ==> (Holds(op, x, y) <==> x == y)
    ensures op == NE ==> (Holds(op, x, y) <==> x != y)
    ensures op in {LT, GE} ==> (Holds(op, x, y) <==> ((Compare(x, y) < 0) == (op == LT)))
    ensures op in {GT, LE} ==> (Holds(op, x, y) <==> ((Compare(y, x) < 0) == (op == GT)))
  {
    CompareOrder(x, y);
  }

  predicate SatLeaf(p: Pred, row: seq<Value>) {
    match p
    case Cmp(op, l, r, _) => Holds(op, ValueOf(l, row), ValueOf(r, row))
    case In(item, vs, negated, _) =>
      negated != exists i :: 0 <= i < |vs| && Compare(ValueOf(item, row), ValueOf(vs[i], row)) == 0
    case _ => false
  }

  /** SQL's meaning of the predicate on a row: what every plan has to agree with. */
  predicate Sat(p: Pred, row: seq<Value>) {
    match p
    case And(l, r) => Sat(l, row) && Sat(r, row)
    case Or(cs) => exists i :: 0 <= i < |cs| && Sat(cs[i], row)
    case _ => SatLeaf(p, row)
  }

  predicate HasOr(p: Pred) {
    match p
    case And(l, r) => HasOr(l) || HasOr(r)
    case Or(_) => true
    case _ => false
  }

  predicate HasIn(p: Pred) {
    match p
    case And(l, r) => HasIn(l) || HasIn(r)
    case Or(cs) => exists i :: 0 <= i < |cs| && HasIn(cs[i])
    case Cmp(_, _, _, _) => false
    case In(_, _, _, _) => true
  }

  /** The leaves below AND and OR, left to right. */
  function Leaves(p: Pred): seq<Pred>
    decreases p, 0
  {
    match p
    case And(l, r) => Leaves(l) + Leaves(r)
    case Or(cs) => LeavesOf(p, |cs|)
    case _ => [p]
  }

  function LeavesOf(p: Pred, n: nat): seq<Pred>
    requires p.Or? && n <= |p.children|
    decreases p, 0, n
  {
    if n == 0 then [] else LeavesOf(p, n - 1) + Leaves(p.children[n - 1])
  }

  /** The valuation that a row gives to the leaves. */
  ghost function OnRow(row: seq<Value>): Pred -> bool {
    q => SatLeaf(q, row)
  }

  lemma {:induction false} SatIsEvalBy(p: Pred, row: seq<Value>)
    ensures Sat(p, row) == EvalBy(p, OnRow(row))
  {
    match p
    case And(l, r) =>
      SatIsEvalBy(l, row);
      SatIsEvalBy(r, row);
    case Or(cs) =>
      forall i | 0 <= i < |cs|
        ensures Sat(cs[i], row) == EvalBy(cs[i], OnRow(row))
      {
        SatIsEvalBy(cs[i], row);
      }
    case _ =>
  }

  /** A conjunction holds exactly when all of its leaves hold. */
  lemma {:induction false} ConjunctionMeaning(p: Pred, val: Pred -> bool)
    requires !HasOr(p)
    ensures EvalBy(p, val) <==> forall q :: q in Leaves(p) ==> val(q)
  {
    if p.And? {
      ConjunctionMeaning(p.left, val);
      ConjunctionMeaning(p.right, val);
      assert forall q :: q in Leaves(p) <==> q in Leaves(p.left) || q in Leaves(p.right);
    }
  }
}
