/**
 * From a conjunction of comparisons to one interval of multi-column keys
 * (execution/KeySearchRange.cpp).
 */
module KeyRange {
  import opened Seqs
  import opened Values
  import opened Predicates

  /** A comparison of a key column with a constant, column first. */
  datatype Bound = NoBound | Bound(op: CmpOp, col: nat, value: Value, text: string)

  /** The operator with its sides exchanged. */
  function Mirror(op: CmpOp): CmpOp {
    match op
    case LE => GE
    case LT => GT
    case GT => LT
    case GE => LE
    case _ => op
  }

  /** The bound that a leaf puts on one of the first `keys` columns. */
  function BoundOf(keys: nat, p: Pred): (b: Bound)
    ensures b.Bound? ==> b.col < keys && b.op != NE && b.op != LIKE
  {
    if !p.Cmp? || p.op == NE || p.op == LIKE then NoBound
    else if p.lhs.Column? && p.rhs.Constant? then
      if p.lhs.index < keys then Bound(p.op, p.lhs.index, p.rhs.value, p.text) else NoBound
    else if p.rhs.Column? && p.lhs.Constant? then
      if p.rhs.index < keys then Bound(Mirror(p.op), p.rhs.index, p.lhs.value, p.text) else NoBound
    else NoBound
  }

  predicate BoundHolds(b: Bound, key: seq<Value>) {
    b.Bound? ==> b.col < |key| && Holds(b.op, key[b.col], b.value)
  }

  // ---------- which bounds are used ----------

  /** The last bound with operator `op` that the leaves put on key column `col`. */
  function LastOn(keys: nat, leaves: seq<Pred>, op: CmpOp, col: nat): (b: Bound)
    ensures b.Bound? ==> b.op == op && b.col == col && col < keys
    ensures b.Bound? ==> exists q :: q in leaves && BoundOf(keys, q) == b
  {
    if leaves == [] then NoBound
    else
      var q := leaves[|leaves| - 1];
      var b := BoundOf(keys, q);
      if b.Bound? && b.op == op && b.col == col then b
      else LastOn(keys, leaves[..|leaves| - 1], op, col)
  }

  /** The last bound with operator `op` that the leaves put on any key column. */
  function LastOnAny(keys: nat, leaves: seq<Pred>, op: CmpOp): (b: Bound)
    ensures b.Bound? ==> b.op == op && b.col < keys
    ensures b.Bound? ==> exists q :: q in leaves && BoundOf(keys, q) == b
  {
    if leaves == [] then NoBound
    else
      var q := leaves[|leaves| - 1];
      var b := BoundOf(keys, q);
      if b.Bound? && b.op == op then b
      else LastOnAny(keys, leaves[..|leaves| - 1], op)
  }

  /** Equality wins over `>`, which wins over `>=`; among equals the last one wins. */
  function LowerPick(keys: nat, leaves: seq<Pred>, col: nat): (b: Bound)
    ensures b.Bound? ==> b.col == col && b.op in {EQ, GT, GE}
    ensures b.Bound? ==> exists q :: q in leaves && BoundOf(keys, q) == b
  {
    var eq := LastOn(keys, leaves, EQ, col);
    var gt := LastOn(keys, leaves, GT, col);
    if eq.Bound? then eq else if gt.Bound? then gt else LastOn(keys, leaves, GE, col)
  }

  /** One upper bound is kept for the whole key: `<` wins over `<=`, then the last one wins. */
  function UpperPick(keys: nat, leaves: seq<Pred>): (b: Bound)
    ensures b.Bound? ==> b.col < keys && b.op in {LT, LE}
    ensures b.Bound? ==> exists q :: q in leaves && BoundOf(keys, q) == b
  {
    var lt := LastOnAny(keys, leaves, LT);
    if lt.Bound? then lt else LastOnAny(keys, leaves, LE)
  }

  predicate IsEq(b: Bound) {
    b.Bound? && b.op == EQ
  }

  /** The bounds a conjunction leaves to the key search: per column, and the upper one. */
  datatype Picks = Picks(lower: seq<Bound>, upper: Bound)
  {
    /** The number of leading key columns fixed by equality, counted from column `i`. */
    function EqFrom(i: nat): (e: nat)
      requires i <= |lower|
      ensures i <= e <= |lower|
      ensures forall j :: i <= j < e ==> IsEq(lower[j])
      ensures e < |lower| ==> !IsEq(lower[e])
      decreases |lower| - i
    {
      if i < |lower| && IsEq(lower[i]) then EqFrom(i + 1) else i
    }

    function EqCount(): (e: nat)
      ensures e <= |lower|
      ensures forall j :: 0 <= j < e ==> IsEq(lower[j])
      ensures e < |lower| ==> !IsEq(lower[e])
    {
      EqFrom(0)
    }

    /** The lower bound on the first column that is not fixed. */
    function Low(): Bound {
      if EqCount() < |lower| then lower[EqCount()] else NoBound
    }

    /** The upper bound, if it is on the first column that is not fixed. */
    function High(): Bound {
      if EqCount() < |lower| && upper.Bound? && upper.col == EqCount() then upper else NoBound
    }

    function EqTexts(n: nat): set<string>
      requires n <= |lower|
    {
      if n == 0 then {} else EqTexts(n - 1) + Text(lower[n - 1])
    }

    /** The bounds behind the interval. */
    function Used(): seq<Bound> {
      lower[..EqCount()] + [Low(), High()]
    }

    function Text(b: Bound): set<string> {
      if b.Bound? then {b.text} else {}
    }

    /** The texts of the predicates that the interval takes care of. */
    function Solved(): set<string> {
      EqTexts(EqCount()) + Text(Low()) + Text(High())
    }

    /** The texts taken care of once the first `i` key columns are done. */
    function SolvedBy(i: nat): set<string>
      requires i <= |lower|
    {
      if i <= EqCount() then EqTexts(i) else Solved()
    }

    lemma SolvedStep(i: nat)
      requires i < |lower|
      ensures SolvedBy(i + 1) == SolvedBy(i) + (if i < EqCount() then Text(lower[i])
                                                else if i == EqCount() then Text(High()) + Text(Low()) else {})
    {
    }

    /** The start key: fixed columns, the lower bound, then minima, or maxima after `>`. */
    function StartAt(types: seq<ColType>, i: nat): Value
      requires i < |lower| == |types|
    {
      if i < EqCount() || (i == EqCount() && Low().Bound?) then
        (if lower[i].Bound? then lower[i].value else MinValue(types[i]))
      else if i > EqCount() && Low().Bound? && Low().op == GT then MaxValue(types[i])
      else MinValue(types[i])
    }

    /** The end key: fixed columns, the upper bound, then maxima, or minima after `<`. */
    function EndAt(types: seq<ColType>, i: nat): Value
      requires i < |lower| == |types|
    {
      if i < EqCount() then lower[i].value
      else if i == EqCount() && High().Bound? then High().value
      else if i > EqCount() && High().Bound? && High().op == LT then MinValue(types[i])
      else MaxValue(types[i])
    }

    function ToRange(types: seq<ColType>): Range
      requires |lower| == |types|
    {
      Range(
        seq(|types|, i requires 0 <= i < |types| => StartAt(types, i)),
        seq(|types|, i requires 0 <= i < |types| => EndAt(types, i)),
        !(Low().Bound? && Low().op == GT),
        !(High().Bound? && High().op == LT),
        EqCount() == 0 && Low() == NoBound,
        EqCount() == 0 && High() == NoBound)
    }

    /** Every slot holds a bound on its own column, and every constant fits its column. */
    predicate Fit(types: seq<ColType>) {
      && |lower| == |types|
      && (forall i :: 0 <= i < |lower| && lower[i].Bound? ==>
            lower[i].op in {EQ, GT, GE} && lower[i].col == i && Storable(types[i], lower[i].value))
      && (upper.Bound? ==> upper.op in {LT, LE} && upper.col < |types| && Storable(types[upper.col], upper.value))
    }

    /** All the bounds behind the interval hold for the key. */
    predicate BoundsHold(key: seq<Value>) {
      && (forall j :: 0 <= j < EqCount() ==> BoundHolds(lower[j], key))
      && BoundHolds(Low(), key)
      && BoundHolds(High(), key)
    }
  }

  function PicksOf(keys: nat, leaves: seq<Pred>): Picks {
    Picks(seq(keys, i requires 0 <= i < keys => LowerPick(keys, leaves, i)), UpperPick(keys, leaves))
  }

  function RangeOf(types: seq<ColType>, leaves: seq<Pred>): Range {
    PicksOf(|types|, leaves).ToRange(types)
  }

  function SolvedOf(keys: nat, leaves: seq<Pred>): set<string> {
    PicksOf(keys, leaves).Solved()
  }

  // ---------- intervals ----------

  /** A finished search range. */
  datatype Range = Range(
    start: seq<Value>, end: seq<Value>,
    startInclusive: bool, endInclusive: bool,
    seekToFirst: bool, seekToLast: bool)
  {
    predicate HasKeys(n: nat) {
      |start| == |end| == n
    }

    predicate AtOrAfterStart(key: seq<Value>)
      requires |key| == |start|
    {
      || seekToFirst
      || LexCompare(key, start) > 0
      || (startInclusive && LexCompare(key, start) == 0)
    }

    /** Not `exceedEnd`. */
    predicate AtOrBeforeEnd(key: seq<Value>)
      requires |key| == |end|
    {
      || seekToLast
      || LexCompare(key, end) < 0
      || (endInclusive && LexCompare(key, end) == 0)
    }

    predicate Contains(key: seq<Value>)
      requires HasKeys(|key|)
    {
      AtOrAfterStart(key) && AtOrBeforeEnd(key)
    }

    function CompareStart(other: Range): int
      requires |start| == |other.start|
    {
      if seekToFirst then (if other.seekToFirst then 0 else -1)
      else if other.seekToFirst then 1
      else LexCompare(start, other.start)
    }

    predicate StartAfterEnd(other: Range)
      requires |start| == |other.end|
    {
      if seekToFirst || other.seekToLast then false
      else
        var n := LexCompare(start, other.end);
        n > 0 || (n == 0 && (!other.endInclusive || !startInclusive))
    }

    /** The start is below the end, or meets it with both sides included. */
    predicate NonDegenerate()
      requires |start| == |end|
    {
      LexCompare(start, end) < 0 || (LexCompare(start, end) == 0 && startInclusive && endInclusive)
    }

    /** What every range made from a well-typed conjunction satisfies. */
    predicate Valid(types: seq<ColType>) {
      && HasKeys(|types|) && FitsRow(types, start) && FitsRow(types, end)
      && (startInclusive ==> StorableRow(types, start))
      && (seekToFirst ==> startInclusive && forall i :: 0 <= i < |types| ==> start[i] == MinValue(types[i]))
      && (seekToLast ==> endInclusive && forall i :: 0 <= i < |types| ==> end[i] == MaxValue(types[i]))
    }
  }

  /** The constants that the leaves compare key columns with fit those columns. */
  predicate KeyConstantsFit(types: seq<ColType>, leaves: seq<Pred>) {
    forall q :: q in leaves ==>
      var b := BoundOf(|types|, q); b.Bound? ==> Storable(types[b.col], b.value)
  }

  // ---------- building the range in place ----------

  class KeySearchRange {
    const keyTypes: seq<ColType>
    var predicates: seq<Bound>
    var endPredicate: Bound
    var startInclusive: bool
    var endInclusive: bool
    var seekToFirst: bool
    var seekToLast: bool
    var startKey: seq<Value>
    var endKey: seq<Value>
    /** The texts inserted through the constructor's `pSolved`. */
    var solved: set<string>

    /** The predicate slots hold what the leaves seen so far leave in them. */
    ghost predicate Reflects(seen: seq<Pred>)
      reads this
    {
      Picks(predicates, endPredicate) == PicksOf(|keyTypes|, seen)
    }

    function ToRange(): Range
      reads this
    {
      Range(startKey, endKey, startInclusive, endInclusive, seekToFirst, seekToLast)
    }

    constructor (keyTypes: seq<ColType>, pred: Option<Pred>)
      requires pred.Some? ==> !HasOr(pred.value)
      ensures this.keyTypes == keyTypes
      ensures var leaves := if pred.Some? then Leaves(pred.value) else [];
              ToRange() == RangeOf(keyTypes, leaves) && solved == SolvedOf(|keyTypes|, leaves)
    {
      this.keyTypes := keyTypes;
      predicates := seq(|keyTypes|, _ => NoBound);
      endPredicate := NoBound;
      startInclusive, endInclusive, seekToFirst, seekToLast := true, true, true, true;
      startKey, endKey, solved := [], [], {};
      new;
      Build(pred);
    }

    /** Collects the bounds, drops what the interval cannot use, and pads the keys. */
    method Build(pred: Option<Pred>)
      requires pred.Some? ==> !HasOr(pred.value)
      requires predicates == seq(|keyTypes|, _ => NoBound) && endPredicate == NoBound
      requires startInclusive && endInclusive && seekToFirst && seekToLast && startKey == [] && endKey == []
               && solved == {}
      modifies this
      ensures var leaves := if pred.Some? then Leaves(pred.value) else [];
              ToRange() == RangeOf(keyTypes, leaves) && solved == SolvedOf(|keyTypes|, leaves)
    {
      hide LowerPick, UpperPick, Picks.EqCount, Picks.Low, Picks.Solved;
      NothingPicked(|keyTypes|);
      if pred.Some? {
        DoSetPredicate(pred.value, []);
        assert [] + Leaves(pred.value) == Leaves(pred.value);
      }
      ghost var picks := Picks(predicates, endPredicate);
      assert picks == PicksOf(|keyTypes|, if pred.Some? then Leaves(pred.value) else []);
      DropUnusable(picks);
      FillKeys(picks);
      assert startKey == picks.ToRange(keyTypes).start && endKey == picks.ToRange(keyTypes).end;
    }

    method DoSetPredicate(p: Pred, ghost seen: seq<Pred>)
      requires !HasOr(p) && Reflects(seen)
      modifies `predicates, `endPredicate
      ensures Reflects(seen + Leaves(p))
      decreases p
    {
      match p
      case And(l, r) =>
        DoSetPredicate(l, seen);
        DoSetPredicate(r, seen + Leaves(l));
        assert seen + Leaves(l) + Leaves(r) == seen + Leaves(p);
      case Cmp(op, lhs, rhs, text) =>
        if op != NE && op != LIKE && lhs.Column? && rhs.Constant? {
          SetPredicateInfo(op, lhs.index, rhs.value, text, seen, p);
        } else if op != NE && op != LIKE && rhs.Column? && lhs.Constant? {
          SetPredicateInfo(Mirror(op), rhs.index, lhs.value, text, seen, p);
        } else {
          PickStep(|keyTypes|, seen, p);
        }
      case In(_, _, _, _) =>
        PickStep(|keyTypes|, seen, p);
      case Or(_) =>
        assert false;
    }

    method SetPredicateInfo(op: CmpOp, col: nat, value: Value, text: string, ghost seen: seq<Pred>, ghost p: Pred)
      requires Reflects(seen) && op != NE && op != LIKE
      requires BoundOf(|keyTypes|, p) == if col < |keyTypes| then Bound(op, col, value, text) else NoBound
      modifies `predicates, `endPredicate
      ensures Reflects(seen + [p])
    {
      PickStep(|keyTypes|, seen, p);
      if col >= |keyTypes| {
        return;
      }
      var info := Bound(op, col, value, text);
      var old' := predicates[col];
      match op
      case EQ =>
        predicates := predicates[col := info];
      case GT =>
        if IsEq(old') {
          return;
        }
        predicates := predicates[col := info];
      case GE =>
        if IsEq(old') || (old'.Bound? && old'.op == GT) {
          return;
        }
        predicates := predicates[col := info];
      case LE =>
        if endPredicate.Bound? && endPredicate.op == LT {
          return;
        }
        endPredicate := info;
      case LT =>
        endPredicate := info;
    }

    /** The constructor's first loop: bounds behind an inequality are dropped, flags are set. */
    method DropUnusable(ghost picks: Picks)
      requires |predicates| == |keyTypes|
      requires picks == Picks(predicates, endPredicate)
      requires forall j :: 0 <= j < |predicates| && predicates[j].Bound? ==> predicates[j].op in {EQ, GT, GE}
      requires endPredicate.Bound? ==> endPredicate.op in {LT, LE} && endPredicate.col < |keyTypes|
      requires startInclusive && endInclusive && seekToFirst && seekToLast && solved == {}
      modifies `predicates, `endPredicate, `startInclusive, `endInclusive, `seekToFirst, `seekToLast, `solved
      ensures |predicates| == |keyTypes|
      ensures forall j :: 0 <= j < |predicates| ==>
                predicates[j] == if j <= picks.EqCount() then picks.lower[j] else NoBound
      ensures endPredicate == picks.High()
      ensures startInclusive == !(picks.Low().Bound? && picks.Low().op == GT)
      ensures endInclusive == !(picks.High().Bound? && picks.High().op == LT)
      ensures seekToFirst == (picks.EqCount() == 0 && picks.Low() == NoBound)
      ensures seekToLast == (picks.EqCount() == 0 && picks.High() == NoBound)
      ensures solved == picks.Solved()
    {
      ghost var (e, low, high) := (picks.EqCount(), picks.Low(), picks.High());
      ghost var (lower, upper) := (picks.lower, picks.upper);
      var keyValid := true;
      for i := 0 to |predicates|
        invariant |predicates| == |keyTypes|
        invariant keyValid == (i <= e)
        invariant forall j :: 0 <= j < |predicates| ==>
                    predicates[j] == if e < j < i then NoBound else lower[j]
        invariant endPredicate == if upper.Bound? && upper.col < i && upper.col != e then NoBound else upper
        invariant startInclusive == !(e < i && low.Bound? && low.op == GT)
        invariant endInclusive == !(e < i && high.Bound? && high.op == LT)
        invariant seekToFirst == !((i > 0 && e > 0) || (e < i && low.Bound?))
        invariant seekToLast == !((i > 0 && e > 0) || (e < i && high.Bound?))
        invariant solved == picks.SolvedBy(i)
      {
        picks.SolvedStep(i);
        keyValid := DropUnusableAt(i, keyValid);
      }
    }

    /** One round of that loop. */
    method DropUnusableAt(i: nat, keyValid: bool) returns (stillValid: bool)
      requires i < |predicates|
      modifies `predicates, `endPredicate, `startInclusive, `endInclusive, `seekToFirst, `seekToLast, `solved
      ensures var info := if keyValid then old(predicates[i]) else NoBound;
              var ends := old(endPredicate.Bound? && endPredicate.col == i);
              var used := ends && keyValid && !IsEq(info);
              && stillValid == (keyValid && IsEq(info))
              && predicates == old(predicates)[i := info]
              && endPredicate == (if ends && !used then NoBound else old(endPredicate))
              && startInclusive == (if info.Bound? && !IsEq(info) then info.op == GE else old(startInclusive))
              && endInclusive == (if used then old(endPredicate.op) == LE else old(endInclusive))
              && seekToFirst == (old(seekToFirst) && info == NoBound)
              && seekToLast == (old(seekToLast) && !used && !IsEq(info))
              && solved == old(solved) + (if used then {old(endPredicate.text)} else {})
                           + (if info.Bound? then {info.text} else {})
    {
      stillValid := keyValid;
      if !stillValid {
        predicates := predicates[i := NoBound];
      }
      if endPredicate.Bound? && endPredicate.col == i {
        if !stillValid || IsEq(predicates[i]) {
          endPredicate := NoBound;
        } else {
          endInclusive := endPredicate.op == LE;
          stillValid := false;
          solved := solved + {endPredicate.text};
          seekToLast := false;
        }
      }
      match predicates[i]
      case NoBound =>
        stillValid := false;
      case Bound(op, _, _, text) =>
        solved := solved + {text};
        if op == EQ {
          seekToFirst, seekToLast := false, false;
        } else {
          startInclusive := op == GE;
          stillValid := false;
          seekToFirst := false;
        }
    }

    /** The constructor's second loop: the start and end keys with their padding. */
    method FillKeys(ghost picks: Picks)
      requires |predicates| == |picks.lower| == |keyTypes| && startKey == endKey == []
      requires forall j :: 0 <= j < |predicates| ==>
                 predicates[j] == if j <= picks.EqCount() then picks.lower[j] else NoBound
      requires forall j :: 0 <= j < |predicates| && picks.lower[j].Bound? ==> picks.lower[j].op in {EQ, GT, GE}
      requires endPredicate == picks.High() && (endPredicate.Bound? ==> endPredicate.op in {LT, LE})
      modifies `startKey, `endKey
      ensures |startKey| == |endKey| == |keyTypes|
      ensures forall j :: 0 <= j < |keyTypes| ==>
                startKey[j] == picks.StartAt(keyTypes, j) && endKey[j] == picks.EndAt(keyTypes, j)
    {
      ghost var e := picks.EqCount();
      var nextStartMax, nextEndMax := false, true;
      for i := 0 to |keyTypes|
        invariant |startKey| == |endKey| == i
        invariant forall j :: 0 <= j < i ==>
                    startKey[j] == picks.StartAt(keyTypes, j) && endKey[j] == picks.EndAt(keyTypes, j)
        invariant nextStartMax == (e < i && picks.Low().Bound? && picks.Low().op == GT)
        invariant nextEndMax == !(e < i && picks.High().Bound? && picks.High().op == LT)
      {
        var info := predicates[i];
        if IsEq(info) {
          startKey := startKey + [info.value];
          endKey := endKey + [info.value];
        } else {
          if info.Bound? {
            startKey := startKey + [info.value];
            nextStartMax := info.op == GT;
          } else if nextStartMax {
            startKey := startKey + [MaxValue(keyTypes[i])];
          } else {
            startKey := startKey + [MinValue(keyTypes[i])];
          }
          if endPredicate.Bound? && endPredicate.col == i {
            endKey := endKey + [endPredicate.value];
            nextEndMax := endPredicate.op == LE;
          } else if nextEndMax {
            endKey := endKey + [MaxValue(keyTypes[i])];
          } else {
            endKey := endKey + [MinValue(keyTypes[i])];
          }
        }
      }
    }
  }

  // ---------- which bounds those are ----------

  /** A leaf with a bound of the operator on the column, or on any column. */
  predicate BoundsWith(keys: nat, q: Pred, op: CmpOp, col: Option<nat>) {
    BoundOf(keys, q).Bound? && BoundOf(keys, q).op == op && (col.Some? ==> BoundOf(keys, q).col == col.value)
  }

  predicate HasBound(keys: nat, leaves: seq<Pred>, op: CmpOp, col: Option<nat>) {
    exists i :: 0 <= i < |leaves| && BoundsWith(keys, leaves[i], op, col)
  }

  /** `b` is the bound of leaf `i`, the last of these. */
  predicate LastAt(keys: nat, leaves: seq<Pred>, op: CmpOp, col: Option<nat>, b: Bound, i: nat) {
    && i < |leaves| && BoundsWith(keys, leaves[i], op, col) && BoundOf(keys, leaves[i]) == b
    && forall j :: i < j < |leaves| ==> !BoundsWith(keys, leaves[j], op, col)
  }

  ghost predicate IsLastBound(keys: nat, leaves: seq<Pred>, op: CmpOp, col: Option<nat>, b: Bound) {
    exists i :: LastAt(keys, leaves, op, col, b, i)
  }

  /** A further leaf is the last of these, or changes nothing. */
  lemma OneMoreLeaf(keys: nat, leaves: seq<Pred>, q: Pred, op: CmpOp, col: Option<nat>, b: Bound)
    ensures BoundsWith(keys, q, op, col) ==>
              HasBound(keys, leaves + [q], op, col) && IsLastBound(keys, leaves + [q], op, col, BoundOf(keys, q))
    ensures !BoundsWith(keys, q, op, col) ==>
              && (HasBound(keys, leaves + [q], op, col) ==> HasBound(keys, leaves, op, col))
              && (IsLastBound(keys, leaves, op, col, b) ==> IsLastBound(keys, leaves + [q], op, col, b))
  {
    hide BoundOf;
    var more := leaves + [q];
    assert more[|leaves|] == q && forall j :: 0 <= j < |leaves| ==> more[j] == leaves[j];
    if BoundsWith(keys, q, op, col) {
      assert LastAt(keys, more, op, col, BoundOf(keys, q), |leaves|);
    } else if i :| LastAt(keys, leaves, op, col, b, i) {
      assert LastAt(keys, more, op, col, b, i);
    }
  }

  lemma {:induction false} LastOnExactly(keys: nat, leaves: seq<Pred>, op: CmpOp, col: nat)
    ensures var b := LastOn(keys, leaves, op, col);
            if HasBound(keys, leaves, op, Some(col)) then IsLastBound(keys, leaves, op, Some(col), b) else b == NoBound
  {
    hide BoundOf, IsLastBound;
    if leaves != [] {
      var (init, q) := (leaves[..|leaves| - 1], leaves[|leaves| - 1]);
      LastOnExactly(keys, init, op, col);
      OneMoreLeaf(keys, init, q, op, Some(col), LastOn(keys, init, op, col));
      assert leaves == init + [q];
    }
  }

  lemma {:induction false} LastOnAnyExactly(keys: nat, leaves: seq<Pred>, op: CmpOp)
    ensures var b := LastOnAny(keys, leaves, op);
            if HasBound(keys, leaves, op, None) then IsLastBound(keys, leaves, op, None, b) else b == NoBound
  {
    hide BoundOf, IsLastBound;
    if leaves != [] {
      var (init, q) := (leaves[..|leaves| - 1], leaves[|leaves| - 1]);
      LastOnAnyExactly(keys, init, op);
      OneMoreLeaf(keys, init, q, op, None, LastOnAny(keys, init, op));
      assert leaves == init + [q];
    }
  }

  lemma LastIsBound(keys: nat, leaves: seq<Pred>, op: CmpOp, col: Option<nat>, b: Bound)
    ensures IsLastBound(keys, leaves, op, col, b) ==> b.Bound? && b.op == op
  {
  }

  /** On a column the last `=` counts; without one the last `>`, and without that the last `>=`. */
  lemma LowerPickExactly(keys: nat, leaves: seq<Pred>, col: nat)
    ensures var b := LowerPick(keys, leaves, col);
            if HasBound(keys, leaves, EQ, Some(col)) then IsLastBound(keys, leaves, EQ, Some(col), b)
            else if HasBound(keys, leaves, GT, Some(col)) then IsLastBound(keys, leaves, GT, Some(col), b)
            else if HasBound(keys, leaves, GE, Some(col)) then IsLastBound(keys, leaves, GE, Some(col), b)
            else b == NoBound
    ensures IsEq(LowerPick(keys, leaves, col)) <==> HasBound(keys, leaves, EQ, Some(col))
  {
    hide HasBound, IsLastBound, LastOn;
    LastOnExactly(keys, leaves, EQ, col);
    LastOnExactly(keys, leaves, GT, col);
    LastOnExactly(keys, leaves, GE, col);
    LastIsBound(keys, leaves, EQ, Some(col), LastOn(keys, leaves, EQ, col));
    LastIsBound(keys, leaves, GT, Some(col), LastOn(keys, leaves, GT, col));
  }

  /** Of all upper bounds the last `<` is kept, and without one the last `<=`, whatever their columns. */
  lemma UpperPickExactly(keys: nat, leaves: seq<Pred>)
    ensures var b := UpperPick(keys, leaves);
            if HasBound(keys, leaves, LT, None) then IsLastBound(keys, leaves, LT, None, b)
            else if HasBound(keys, leaves, LE, None) then IsLastBound(keys, leaves, LE, None, b)
            else b == NoBound
  {
    hide HasBound, IsLastBound, LastOnAny;
    LastOnAnyExactly(keys, leaves, LT);
    LastOnAnyExactly(keys, leaves, LE);
    LastIsBound(keys, leaves, LT, None, LastOnAny(keys, leaves, LT));
  }

  /**
   * The bounds behind the interval are exactly the picked lower bounds on columns that have an
   * equality on every column before them, and the upper bound on the first column without one.
   */
  lemma UsedExactly(keys: nat, leaves: seq<Pred>, b: Bound)
    requires b.Bound?
    ensures b in PicksOf(keys, leaves).Used() <==>
            && b.col < keys && (forall j :: 0 <= j < b.col ==> HasBound(keys, leaves, EQ, Some(j)))
            && (b == LowerPick(keys, leaves, b.col)
                || (b == UpperPick(keys, leaves) && !HasBound(keys, leaves, EQ, Some(b.col))))
  {
    hide HasBound, LowerPick, UpperPick;
    var picks := PicksOf(keys, leaves);
    var (e, used) := (picks.EqCount(), picks.Used());
    forall j | 0 <= j < keys ensures IsEq(picks.lower[j]) <==> HasBound(keys, leaves, EQ, Some(j)) {
      LowerPickExactly(keys, leaves, j);
    }
    assert used[e] == picks.Low() && used[e + 1] == picks.High();
    assert forall j :: 0 <= j < e ==> used[j] == picks.lower[j];
    if b in used {
      UsedKinds(keys, leaves, b);
    } else if b.col < keys && forall j :: 0 <= j < b.col ==> HasBound(keys, leaves, EQ, Some(j)) {
      assert forall j :: 0 <= j < b.col ==> IsEq(picks.lower[j]);
      assert b.col <= e;
      assert b.col < e ==> used[b.col] == picks.lower[b.col];
    }
  }

  lemma NothingPicked(keys: nat)
    ensures PicksOf(keys, []) == Picks(seq(keys, _ => NoBound), NoBound)
  {
  }

  lemma LowerStep(keys: nat, leaves: seq<Pred>, q: Pred, col: nat)
    ensures var (now, was, b) := (LowerPick(keys, leaves + [q], col), LowerPick(keys, leaves, col), BoundOf(keys, q));
            if b == NoBound || b.col != col || b.op in {LT, LE} then now == was
            else if b.op == GT && IsEq(was) then now == was
            else if b.op == GE && was.Bound? && was.op != GE then now == was
            else now == b
  {
  }

  lemma UpperStep(keys: nat, leaves: seq<Pred>, q: Pred)
    ensures var (now, was, b) := (UpperPick(keys, leaves + [q]), UpperPick(keys, leaves), BoundOf(keys, q));
            if b == NoBound || b.op !in {LT, LE} then now == was
            else if b.op == LE && was.Bound? && was.op == LT then now == was
            else now == b
  {
  }

  /** One more leaf changes at most the slot it is about. */
  lemma PickStep(keys: nat, leaves: seq<Pred>, q: Pred)
    ensures var (now, was, b) := (PicksOf(keys, leaves + [q]), PicksOf(keys, leaves), BoundOf(keys, q));
            if b == NoBound then now == was
            else match b.op
            case EQ => now == was.(lower := was.lower[b.col := b])
            case GT => now == if IsEq(was.lower[b.col]) then was else was.(lower := was.lower[b.col := b])
            case GE => now == if was.lower[b.col].Bound? && was.lower[b.col].op != GE then was
                              else was.(lower := was.lower[b.col := b])
            case LT => now == was.(upper := b)
            case LE => now == if was.upper.Bound? && was.upper.op == LT then was else was.(upper := b)
            case _ => true
  {
    hide LowerPick, UpperPick, BoundOf;
    forall i | 0 <= i < keys ensures PicksOf(keys, leaves + [q]).lower[i] == LowerPick(keys, leaves + [q], i) {
    }
    forall i: nat {
      LowerStep(keys, leaves, q, i);
    }
    UpperStep(keys, leaves, q);
  }

  // ---------- the interval means its bounds ----------

  lemma PicksFit(types: seq<ColType>, leaves: seq<Pred>)
    requires KeyConstantsFit(types, leaves)
    ensures PicksOf(|types|, leaves).Fit(types)
  {
  }

  lemma RangeIsValid(types: seq<ColType>, picks: Picks)
    requires picks.Fit(types)
    ensures picks.ToRange(types).Valid(types)
  {
  }

  /**
   * A storable key lies in the computed interval exactly when it satisfies every bound that
   * the interval stands for.
   */
  lemma RangeMeaning(types: seq<ColType>, picks: Picks, key: seq<Value>)
    requires picks.Fit(types) && StorableRow(types, key)
    ensures picks.ToRange(types).Contains(key) <==> picks.BoundsHold(key)
  {
    var r := picks.ToRange(types);
    var e := picks.EqCount();
    var fixed := seq(e, i requires 0 <= i < e => picks.lower[i].value);
    FixedMeaning(picks.lower[..e], fixed, key);
    assert forall j :: 0 <= j < e ==> picks.lower[..e][j] == picks.lower[j];
    assert r.start[..e] == fixed && r.end[..e] == fixed;
    if e < |types| {
      EndsMeaning(types, e, fixed, picks.Low(), picks.High(), r, key);
    } else {
      assert key[..e] == key && r.start[..e] == r.start && r.end[..e] == r.end;
      LexOrder(key, fixed);
    }
  }

  lemma EndsMeaning(types: seq<ColType>, e: nat, fixed: seq<Value>, low: Bound, high: Bound, r: Range, key: seq<Value>)
    requires e == |fixed| < |types| && StorableRow(types, key) && r.HasKeys(|types|)
    requires r.start[..e] == fixed && r.end[..e] == fixed
    requires low.Bound? ==> low.op in {GT, GE} && low.col == e
    requires high.Bound? ==> high.op in {LT, LE} && high.col == e
    requires r.start[e] == if low.Bound? then low.value else MinValue(types[e])
    requires r.end[e] == if high.Bound? then high.value else MaxValue(types[e])
    requires forall i :: e < i < |types| ==>
               r.start[i] == if low.Bound? && low.op == GT then MaxValue(types[i]) else MinValue(types[i])
    requires forall i :: e < i < |types| ==>
               r.end[i] == if high.Bound? && high.op == LT then MinValue(types[i]) else MaxValue(types[i])
    requires r.startInclusive == !(low.Bound? && low.op == GT) && r.endInclusive == !(high.Bound? && high.op == LT)
    requires r.seekToFirst == (e == 0 && low == NoBound) && r.seekToLast == (e == 0 && high == NoBound)
    ensures r.Contains(key) <==> key[..e] == fixed && BoundHolds(low, key) && BoundHolds(high, key)
  {
    if key[..e] == fixed {
      LexSamePrefix(key, r.start, e);
      LexSamePrefix(key, r.end, e);
      StartMeaning(types[e..], key[e..], r.start[e..], low);
      EndMeaning(types[e..], key[e..], r.end[e..], high);
    } else {
      LexOtherPrefix(key, r.start, e);
      LexOtherPrefix(key, r.end, e);
    }
  }

  lemma FixedMeaning(bounds: seq<Bound>, fixed: seq<Value>, key: seq<Value>)
    requires |bounds| == |fixed| <= |key|
    requires forall j :: 0 <= j < |bounds| ==> IsEq(bounds[j]) && bounds[j].col == j && bounds[j].value == fixed[j]
    ensures key[..|fixed|] == fixed <==> forall j :: 0 <= j < |bounds| ==> BoundHolds(bounds[j], key)
  {
    forall j | 0 <= j < |fixed|
      ensures BoundHolds(bounds[j], key) <==> key[..|fixed|][j] == fixed[j]
    {
      CompareOrder(key[j], fixed[j]);
    }
  }

  /** Below the fixed columns, a start key of a bound and padding means that bound. */
  lemma StartMeaning(types: seq<ColType>, key: seq<Value>, start: seq<Value>, low: Bound)
    requires StorableRow(types, key) && |start| == |types| > 0
    requires low.Bound? ==> low.op in {GT, GE}
    requires start[0] == if low.Bound? then low.value else MinValue(types[0])
    requires forall i :: 1 <= i < |types| ==>
               start[i] == if low.Bound? && low.op == GT then MaxValue(types[i]) else MinValue(types[i])
    ensures var n := LexCompare(key, start);
            low == NoBound || Holds(low.op, key[0], low.value)
            <==> n > 0 || (n == 0 && !(low.Bound? && low.op == GT))
  {
    if low == NoBound {
      LexAboveMin(types, key, start);
      LexOrder(start, key);
    } else if low.op == GE {
      LexAboveMin(types[1..], key[1..], start[1..]);
      LexOrder(start[1..], key[1..]);
    } else {
      LexBelowMax(types[1..], key[1..], start[1..]);
    }
  }

  lemma EndMeaning(types: seq<ColType>, key: seq<Value>, end: seq<Value>, high: Bound)
    requires StorableRow(types, key) && |end| == |types| > 0
    requires high.Bound? ==> high.op in {LT, LE}
    requires end[0] == if high.Bound? then high.value else MaxValue(types[0])
    requires forall i :: 1 <= i < |types| ==>
               end[i] == if high.Bound? && high.op == LT then MinValue(types[i]) else MaxValue(types[i])
    ensures var n := LexCompare(key, end);
            high == NoBound || Holds(high.op, key[0], high.value)
            <==> n < 0 || (n == 0 && !(high.Bound? && high.op == LT))
  {
    if high == NoBound {
      LexBelowMax(types, key, end);
    } else if high.op == LE {
      LexBelowMax(types[1..], key[1..], end[1..]);
    } else {
      LexAboveMin(types[1..], key[1..], end[1..]);
      LexOrder(end[1..], key[1..]);
    }
  }

  // ---------- solved predicates, tracked by their text ----------

  predicate SameOperand(a: Operand, b: Operand) {
    match (a, b)
    case (Column(i, _), Column(j, _)) => i == j
    case (Constant(v, _), Constant(w, _)) => v == w
    case _ => false
  }

  /** Leaves with the same text are the same comparison. */
  predicate TextsAgree(leaves: seq<Pred>) {
    forall p, q :: p in leaves && q in leaves && p.Cmp? && q.Cmp? && p.text == q.text ==>
      p.op == q.op && SameOperand(p.lhs, q.lhs) && SameOperand(p.rhs, q.rhs)
  }

  /** Comparing with `v` asks no more of a value than the bound does. */
  predicate NoTighter(b: Bound, v: Value)
    requires b.Bound?
  {
    match b.op
    case EQ => v == b.value
    case GT | GE => Compare(v, b.value) <= 0
    case LT | LE => Compare(v, b.value) >= 0
    case _ => false
  }

  /** A leaf that puts the same kind of bound on the same column, no tighter than `b`. */
  predicate Covers(keys: nat, b: Bound, q: Pred)
    requires b.Bound?
  {
    var c := BoundOf(keys, q);
    c.Bound? && c.op == b.op && c.col == b.col && NoTighter(b, c.value)
  }

  /** Each bound behind the interval is the tightest of the leaves that have its text. */
  predicate TextsCovered(keys: nat, leaves: seq<Pred>) {
    forall b, q :: b in PicksOf(keys, leaves).Used() && b.Bound? && q in leaves && q.Cmp? && q.text == b.text ==>
      Covers(keys, b, q)
  }

  /** Leaves that the text fixes up to their constants: `?` stands for any value. */
  predicate TextsFixShape(keys: nat, leaves: seq<Pred>) {
    forall p, q :: p in leaves && q in leaves && p.Cmp? && q.Cmp? && p.text == q.text && BoundOf(keys, p).Bound? ==>
      && BoundOf(keys, q).Bound? && BoundOf(keys, q).op == BoundOf(keys, p).op
      && BoundOf(keys, q).col == BoundOf(keys, p).col
  }

  /** Used bounds come from leaves. */
  lemma UsedArePicked(keys: nat, leaves: seq<Pred>, b: Bound)
    requires b in PicksOf(keys, leaves).Used() && b.Bound?
    ensures exists q :: q in leaves && BoundOf(keys, q) == b
  {
    var picks := PicksOf(keys, leaves);
    if b == picks.High() {
      assert b == UpperPick(keys, leaves);
    } else {
      var j :| 0 <= j < keys && b == picks.lower[j];
      assert b == LowerPick(keys, leaves, j);
    }
  }

  /** Texts that tell leaves apart are enough. */
  lemma AgreeingTextsAreCovered(keys: nat, leaves: seq<Pred>)
    requires TextsAgree(leaves)
    ensures TextsCovered(keys, leaves)
  {
    forall b, q | b in PicksOf(keys, leaves).Used() && b.Bound? && q in leaves && q.Cmp? && q.text == b.text
      ensures Covers(keys, b, q)
    {
      UsedArePicked(keys, leaves, b);
      var p :| p in leaves && BoundOf(keys, p) == b;
      assert q.op == p.op && SameOperand(p.lhs, q.lhs) && SameOperand(p.rhs, q.rhs);
      CompareOrder(b.value, b.value);
    }
  }

  lemma BoundMeaning(keys: nat, q: Pred, row: seq<Value>)
    requires keys <= |row| && BoundOf(keys, q).Bound?
    ensures SatLeaf(q, row) <==> BoundHolds(BoundOf(keys, q), row[..keys])
  {
    CompareOrder(ValueOf(q.lhs, row), ValueOf(q.rhs, row));
  }

  lemma CoveredHolds(keys: nat, b: Bound, q: Pred, row: seq<Value>)
    requires keys <= |row| && b.Bound? && b.col < keys && Covers(keys, b, q) && BoundHolds(b, row[..keys])
    ensures SatLeaf(q, row)
  {
    BoundMeaning(keys, q, row);
    var (x, v) := (row[b.col], BoundOf(keys, q).value);
    CompareOrder(x, b.value);
    CompareOrder(v, b.value);
    CompareOrder(x, v);
    if Compare(v, b.value) <= 0 && Compare(b.value, x) <= 0 {
      CompareTransitive(v, b.value, x);
    }
    if Compare(x, b.value) <= 0 && Compare(b.value, v) <= 0 {
      CompareTransitive(x, b.value, v);
    }
  }

  /** The bound holds on the row exactly when all the leaves with its text hold, and there is one. */
  ghost predicate Speaks(keys: nat, leaves: seq<Pred>, b: Bound, row: seq<Value>)
    requires keys <= |row|
  {
    b.Bound? ==>
      && (exists q :: q in leaves && q.Cmp? && q.text == b.text && (SatLeaf(q, row) ==> BoundHolds(b, row[..keys])))
      && (forall q :: q in leaves && q.Cmp? && q.text == b.text && BoundHolds(b, row[..keys]) ==> SatLeaf(q, row))
  }

  lemma UsedSpeaks(keys: nat, leaves: seq<Pred>, b: Bound, row: seq<Value>)
    requires keys <= |row| && TextsCovered(keys, leaves) && b in PicksOf(keys, leaves).Used()
    ensures Speaks(keys, leaves, b, row)
  {
    if b.Bound? {
      UsedArePicked(keys, leaves, b);
      var p :| p in leaves && BoundOf(keys, p) == b;
      BoundMeaning(keys, p, row);
      assert p.text == b.text && p.Cmp?;
      forall q | q in leaves && q.Cmp? && q.text == b.text && BoundHolds(b, row[..keys]) ensures SatLeaf(q, row) {
        CoveredHolds(keys, b, q, row);
      }
    }
  }

  /** The texts that are solved are the texts of the bounds behind the interval. */
  lemma {:induction false} EqTextsAre(picks: Picks, n: nat)
    requires n <= picks.EqCount()
    ensures forall j :: 0 <= j < n ==> picks.lower[j].text in picks.EqTexts(n)
    ensures forall t :: t in picks.EqTexts(n) ==> exists j :: 0 <= j < n && picks.lower[j].text == t
  {
    if n > 0 {
      EqTextsAre(picks, n - 1);
    }
  }

  lemma SolvedAreUsed(picks: Picks)
    ensures forall b :: b in picks.Used() && b.Bound? ==> b.text in picks.Solved()
    ensures forall t :: t in picks.Solved() ==> exists b :: b in picks.Used() && b.Bound? && b.text == t
    ensures forall key :: picks.BoundsHold(key) <==> forall b :: b in picks.Used() ==> BoundHolds(b, key)
  {
    var (e, used) := (picks.EqCount(), picks.Used());
    EqTextsAre(picks, e);
    assert used[e] == picks.Low() && used[e + 1] == picks.High();
    assert forall j :: 0 <= j < e ==> used[j] == picks.lower[j];
    forall t | t in picks.Solved() ensures exists b :: b in used && b.Bound? && b.text == t {
      if t in picks.EqTexts(e) {
        var j :| 0 <= j < e && picks.lower[j].text == t;
        assert used[j] in used;
      } else {
        assert used[e] in used && used[e + 1] in used;
      }
    }
    forall key ensures picks.BoundsHold(key) <==> forall b :: b in used ==> BoundHolds(b, key) {
      if forall b :: b in used ==> BoundHolds(b, key) {
        assert forall j :: 0 <= j < |used| ==> used[j] in used;
      }
    }
  }

  /** The bounds of an interval hold exactly when all the leaves whose text is solved hold. */
  lemma SolvedMeaning(keys: nat, leaves: seq<Pred>, row: seq<Value>)
    requires keys <= |row| && TextsCovered(keys, leaves)
    ensures PicksOf(keys, leaves).BoundsHold(row[..keys]) <==>
            forall q :: q in leaves && q.Cmp? && q.text in SolvedOf(keys, leaves) ==> SatLeaf(q, row)
  {
    hide Picks.Used, Picks.Solved, Picks.BoundsHold;
    var picks := PicksOf(keys, leaves);
    SolvedAreUsed(picks);
    forall b | b in picks.Used() ensures Speaks(keys, leaves, b, row) {
      UsedSpeaks(keys, leaves, b, row);
    }
    if forall q :: q in leaves && q.Cmp? && q.text in picks.Solved() ==> SatLeaf(q, row) {
      forall b | b in picks.Used() ensures BoundHolds(b, row[..keys]) {
        assert Speaks(keys, leaves, b, row);
      }
    }
  }

  /** The key of a row lies in the search range exactly when the row satisfies every comparison recorded as solved. */
  ghost predicate IntervalIsSolved(types: seq<ColType>, leaves: seq<Pred>, row: seq<Value>)
    requires |types| <= |row| && RangeOf(types, leaves).HasKeys(|types|)
  {
    RangeOf(types, leaves).Contains(row[..|types|]) <==>
    forall q :: q in leaves && q.Cmp? && q.text in SolvedOf(|types|, leaves) ==> SatLeaf(q, row)
  }

  /** The point of the search range, for conjunctions whose used bounds are the tightest of their text. */
  lemma IntervalMeansSolved(types: seq<ColType>, leaves: seq<Pred>, row: seq<Value>)
    requires KeyConstantsFit(types, leaves) && TextsCovered(|types|, leaves)
    requires |types| <= |row| && StorableRow(types, row[..|types|])
    ensures RangeOf(types, leaves).HasKeys(|types|) && IntervalIsSolved(types, leaves, row)
  {
    hide Picks.ToRange, Range.Contains, Picks.BoundsHold, Picks.Solved;
    PicksFit(types, leaves);
    RangeIsValid(types, PicksOf(|types|, leaves));
    RangeMeaning(types, PicksOf(|types|, leaves), row[..|types|]);
    SolvedMeaning(|types|, leaves, row);
  }

  /** A range without a key that a column could hold. */
  ghost predicate HoldsNoKey(types: seq<ColType>, leaves: seq<Pred>)
    requires RangeOf(types, leaves).HasKeys(|types|)
  {
    forall key :: StorableRow(types, key) ==> !RangeOf(types, leaves).Contains(key)
  }

  /** A key outside the range fails a comparison that is recorded as solved, whatever the texts are. */
  lemma OutsideFails(types: seq<ColType>, leaves: seq<Pred>, row: seq<Value>)
    requires KeyConstantsFit(types, leaves) && RangeOf(types, leaves).HasKeys(|types|)
    requires |types| <= |row| && StorableRow(types, row[..|types|]) && !RangeOf(types, leaves).Contains(row[..|types|])
    ensures IntervalIsSolved(types, leaves, row)
  {
    hide Picks.ToRange, Range.Contains, Picks.BoundsHold, Picks.Solved, Picks.Used;
    var (keys, picks) := (|types|, PicksOf(|types|, leaves));
    PicksFit(types, leaves);
    RangeMeaning(types, picks, row[..keys]);
    SolvedAreUsed(picks);
    var b :| b in picks.Used() && !BoundHolds(b, row[..keys]);
    UsedArePicked(keys, leaves, b);
    var q :| q in leaves && BoundOf(keys, q) == b;
    BoundMeaning(keys, q, row);
    assert q.Cmp? && q.text in SolvedOf(keys, leaves) && !SatLeaf(q, row);
  }

  /** The interval agrees with the comparisons recorded as solved: their texts are covered, or it holds no key. */
  ghost predicate TextsDoNoHarm(types: seq<ColType>, leaves: seq<Pred>)
    requires RangeOf(types, leaves).HasKeys(|types|)
  {
    TextsCovered(|types|, leaves) || HoldsNoKey(types, leaves)
  }

  lemma HarmlessIsSolved(types: seq<ColType>, leaves: seq<Pred>, row: seq<Value>)
    requires KeyConstantsFit(types, leaves) && RangeOf(types, leaves).HasKeys(|types|) && TextsDoNoHarm(types, leaves)
    requires |types| <= |row| && StorableRow(types, row[..|types|])
    ensures IntervalIsSolved(types, leaves, row)
  {
    hide Picks.ToRange, Range.Contains, IntervalIsSolved, TextsCovered;
    if RangeOf(types, leaves).Contains(row[..|types|]) {
      IntervalMeansSolved(types, leaves, row);
    } else {
      OutsideFails(types, leaves, row);
    }
  }

  /** At most a lower and an upper bound are used on a column, and nothing beside an equality. */
  lemma UsedKinds(keys: nat, leaves: seq<Pred>, b: Bound)
    requires b in PicksOf(keys, leaves).Used() && b.Bound?
    ensures var picks := PicksOf(keys, leaves);
            && b.col < keys
            && (b.op in {EQ, GT, GE} ==> b == picks.lower[b.col] && (b.op == EQ <==> b.col < picks.EqCount()))
            && (b.op in {LT, LE} ==> b == picks.upper && b.col == picks.EqCount())
            && b.op in {EQ, GT, GE, LT, LE}
  {
    var picks := PicksOf(keys, leaves);
    if b in picks.lower[..picks.EqCount()] {
      var j :| 0 <= j < picks.EqCount() && b == picks.lower[j];
      assert b == LowerPick(keys, leaves, j);
    } else if b == picks.Low() {
      assert b == LowerPick(keys, leaves, picks.EqCount());
    }
  }

  /** Comparing `y` in place of `x`: on the other side of the bound nothing is lost. */
  lemma MovedStillHolds(c: Bound, x: Value, y: Value)
    requires c.Bound? && Holds(c.op, x, c.value)
    ensures c.op in {LT, LE} && Compare(y, x) <= 0 ==> Holds(c.op, y, c.value)
    ensures c.op in {GT, GE} && Compare(y, x) >= 0 ==> Holds(c.op, y, c.value)
  {
    CompareOrder(x, y);
    CompareOrder(x, c.value);
    CompareOrder(y, c.value);
    if Compare(y, x) <= 0 && Compare(x, c.value) <= 0 {
      CompareTransitive(y, x, c.value);
      if Compare(c.value, y) <= 0 {
        CompareTransitive(c.value, y, x);
      }
    }
    if Compare(y, x) >= 0 && Compare(c.value, x) <= 0 {
      CompareTransitive(c.value, x, y);
      if Compare(y, c.value) <= 0 {
        CompareTransitive(x, y, c.value);
      }
    }
  }

  /** Where to put the column of a bound so that it still holds and the tighter comparison fails. */
  function Escape(b: Bound, v: Value, x: Value): Value
    requires b.Bound?
  {
    match b.op
    case GE | LE => b.value
    case GT => if Compare(x, v) > 0 then v else x
    case LT => if Compare(x, v) < 0 then v else x
    case _ => x
  }

  lemma EscapeWorks(b: Bound, v: Value, x: Value)
    requires b.Bound? && b.op in {EQ, GT, GE, LT, LE} && !NoTighter(b, v) && Holds(b.op, x, b.value)
    ensures var y := Escape(b, v, x);
            && Holds(b.op, y, b.value) && !Holds(b.op, y, v)
            && (b.op in {GT, GE} ==> Compare(y, x) <= 0) && (b.op in {LT, LE} ==> Compare(y, x) >= 0)
            && (b.op == EQ ==> y == x)
  {
    CompareOrder(v, b.value);
    CompareOrder(x, b.value);
    CompareOrder(x, v);
    CompareOrder(b.value, b.value);
    CompareOrder(v, v);
    CompareOrder(x, x);
  }

  lemma EscapesTo(b: Bound, v: Value, x: Value)
    requires b.Bound?
    ensures Escape(b, v, x) in {b.value, v, x}
  {
  }

  lemma OthersStillHold(keys: nat, leaves: seq<Pred>, b: Bound, c: Bound, key: seq<Value>, y: Value)
    requires b in PicksOf(keys, leaves).Used() && c in PicksOf(keys, leaves).Used() && b.Bound? && |key| == keys
    requires BoundHolds(c, key) && b.col < keys && Holds(b.op, y, b.value)
    requires (b.op in {GT, GE} ==> Compare(y, key[b.col]) <= 0) && (b.op in {LT, LE} ==> Compare(y, key[b.col]) >= 0)
    requires b.op == EQ ==> y == key[b.col]
    ensures BoundHolds(c, key[b.col := y])
  {
    hide Compare, Holds, Picks.Used;
    if c.Bound? && c.col == b.col {
      UsedKinds(keys, leaves, b);
      UsedKinds(keys, leaves, c);
      MovedStillHolds(c, key[b.col], y);
    }
  }

  /**
   * A used bound that is not the tightest of its text: any key of the interval leads to one that
   * is in the interval and does not satisfy the tighter comparison.
   */
  lemma UncoveredFails(types: seq<ColType>, leaves: seq<Pred>, b: Bound, q: Pred, key: seq<Value>)
    returns (bad: seq<Value>)
    requires KeyConstantsFit(types, leaves) && TextsFixShape(|types|, leaves)
    requires b in PicksOf(|types|, leaves).Used() && b.Bound? && q in leaves && q.Cmp? && q.text == b.text
    requires !Covers(|types|, b, q)
    requires StorableRow(types, key) && PicksOf(|types|, leaves).BoundsHold(key)
    ensures StorableRow(types, bad) && PicksOf(|types|, leaves).BoundsHold(bad) && !SatLeaf(q, bad)
  {
    hide Picks.Used, Picks.Solved, Picks.BoundsHold, Picks.EqCount, LowerPick, UpperPick, NoTighter, Escape, Compare,
      Holds;
    var (keys, picks) := (|types|, PicksOf(|types|, leaves));
    UsedArePicked(keys, leaves, b);
    UsedKinds(keys, leaves, b);
    SolvedAreUsed(picks);
    var p :| p in leaves && BoundOf(keys, p) == b;
    var v := BoundOf(keys, q).value;
    EscapesTo(b, v, key[b.col]);
    EscapeWorks(b, v, key[b.col]);
    bad := key[b.col := Escape(b, v, key[b.col])];
    forall c | c in picks.Used() ensures BoundHolds(c, bad) {
      OthersStillHold(keys, leaves, b, c, key, Escape(b, v, key[b.col]));
    }
    assert bad[..keys] == bad;
    BoundMeaning(keys, q, bad);
  }

  /**
   * Exactly when a search range is right on every row: when each used bound is the tightest of
   * the leaves with its text, or the range holds no key at all. The text tells leaves apart up to
   * their constants, as it does when these are parameters.
   */
  lemma IntervalMeansSolvedExactly(types: seq<ColType>, leaves: seq<Pred>)
    requires KeyConstantsFit(types, leaves) && TextsFixShape(|types|, leaves) && RangeOf(types, leaves).HasKeys(|types|)
    ensures TextsDoNoHarm(types, leaves) <==>
            forall row :: |types| <= |row| && StorableRow(types, row[..|types|]) ==>
              IntervalIsSolved(types, leaves, row)
  {
    hide Picks.ToRange, Range.Contains, IntervalIsSolved, TextsCovered;
    if TextsDoNoHarm(types, leaves) {
      forall row | |types| <= |row| && StorableRow(types, row[..|types|]) ensures IntervalIsSolved(types, leaves, row) {
        HarmlessIsSolved(types, leaves, row);
      }
    } else {
      var key :| StorableRow(types, key) && RangeOf(types, leaves).Contains(key);
      var row := HarmfulText(types, leaves, key);
    }
  }

  lemma HarmfulText(types: seq<ColType>, leaves: seq<Pred>, key: seq<Value>) returns (bad: seq<Value>)
    requires KeyConstantsFit(types, leaves) && TextsFixShape(|types|, leaves) && RangeOf(types, leaves).HasKeys(|types|)
    requires StorableRow(types, key) && RangeOf(types, leaves).Contains(key) && !TextsCovered(|types|, leaves)
    ensures |types| <= |bad| && StorableRow(types, bad[..|types|]) && !IntervalIsSolved(types, leaves, bad)
  {
    hide Picks.ToRange, Range.Contains, Picks.BoundsHold, Picks.Solved, Picks.Used;
    PicksFit(types, leaves);
    var b, q :| b in PicksOf(|types|, leaves).Used() && b.Bound? && q in leaves && q.Cmp? && q.text == b.text
                && !Covers(|types|, b, q);
    RangeMeaning(types, PicksOf(|types|, leaves), key);
    bad := UncoveredFails(types, leaves, b, q, key);
    RangeMeaning(types, PicksOf(|types|, leaves), bad);
    SolvedAreUsed(PicksOf(|types|, leaves));
    assert bad[..|types|] == bad && q.text in SolvedOf(|types|, leaves);
  }
}
