/**
 * The texts by which the planner tells comparisons apart, from the predicate as it was parsed to the
 * disjuncts of its rewriting: comparisons keep their text, and those made from IN get the texts of
 * the item, the operator and the value (common/QueryRewritter.cpp, execution/KeySearchRange.cpp).
 */
module QueryTexts {
  import opened Values
  import opened Predicates
  import opened KeyRange
  import opened QueryRewriter

  // ---------- the text of a comparison made from IN ----------

  /** A text without the characters that operators begin with. */
  predicate NoOperator(text: string) {
    forall i :: 0 <= i < |text| ==> text[i] != '=' && text[i] != '!'
  }

  /** The text of an item without operators ends where the operator begins. */
  lemma ItemEnds(a: string, x: string, b: string, y: string)
    requires NoOperator(a) && NoOperator(b) && x != [] && y != [] && x[0] in "=!" && y[0] in "=!" && a + x == b + y
    ensures a == b && x == y
  {
    var text := a + x;
    assert text[|a|] == x[0] && text[|b|] == y[0];
    assert forall i :: 0 <= i < |a| ==> text[i] == a[i];
    assert forall i :: 0 <= i < |b| ==> text[i] == b[i];
    assert |a| == |b|;
    assert text[..|a|] == a && text[|a|..] == x && text[..|b|] == b && text[|b|..] == y;
  }

  /** The operator and the value that a text behind an item names. */
  function Behind(negated: bool, value: string): (s: string)
    ensures s != [] && s[0] in "=!"
  {
    (if negated then "!=" else "=") + value
  }

  lemma BehindTells(m: bool, v: string, n: bool, w: string)
    ensures Behind(m, v) == Behind(n, w) <==> m == n && v == w
  {
    var (x, y) := (Behind(m, v), Behind(n, w));
    assert x[if m then 2 else 1..] == v && y[if n then 2 else 1..] == w;
    assert x[0] == (if m then '!' else '=') && y[0] == (if n then '!' else '=');
  }

  /** The comparison that an item of IN or NOT IN stands for, with its text. */
  lemma OneOfMeans(i: Operand, v: Operand, negated: bool)
    ensures var q := OneOf(i, v, negated);
            && q.Cmp? && q.op == (if negated then NE else EQ) && q.lhs == i && q.rhs == v
            && q.text == i.text + Behind(negated, v.text)
  {
  }

  /**
   * When texts fix operands and the texts of items hold no operator, two comparisons made from IN
   * have one text exactly when they are the same comparison.
   */
  lemma MadeTextsTell(i: Operand, v: Operand, m: bool, j: Operand, w: Operand, n: bool)
    requires NoOperator(i.text) && NoOperator(j.text)
    requires (i.text == j.text ==> i == j) && (v.text == w.text ==> v == w)
    ensures OneOf(i, v, m).text == OneOf(j, w, n).text <==> i == j && v == w && m == n
  {
    hide OneOf, Behind, NoOperator;
    OneOfMeans(i, v, m);
    OneOfMeans(j, w, n);
    BehindTells(m, v.text, n, w.text);
    if OneOf(i, v, m).text == OneOf(j, w, n).text {
      ItemEnds(i.text, Behind(m, v.text), j.text, Behind(n, w.text));
    }
  }

  // ---------- texts of a parsed predicate ----------

  /** One comparison, up to the texts of its operands. */
  predicate SameComparison(p: Pred, q: Pred) {
    p.Cmp? && q.Cmp? && p.op == q.op && SameOperand(p.lhs, q.lhs) && SameOperand(p.rhs, q.rhs)
  }

  /** The values of the lists agree where their texts do. */
  predicate ValuesAgree(p: Pred, q: Pred)
    requires p.In? && q.In?
  {
    forall k, l :: 0 <= k < |p.values| && 0 <= l < |q.values| && p.values[k].text == q.values[l].text ==>
      SameOperand(p.values[k], q.values[l])
  }

  /** A comparison that reads like one that a list stands for is that comparison. */
  predicate ReadsLikeList(q: Pred, p: Pred)
    requires q.Cmp? && p.In?
  {
    forall k :: 0 <= k < |p.values| && q.text == p.item.text + Behind(p.negated, p.values[k].text) ==>
      && q.op == (if p.negated then NE else EQ)
      && SameOperand(q.lhs, p.item) && SameOperand(q.rhs, p.values[k])
  }

  /** Texts tell the leaves of a parsed predicate apart, comparisons and IN lists. */
  predicate TextsTellApart(leaves: seq<Pred>) {
    && TextsAgree(leaves)
    && (forall p :: p in leaves && p.In? ==> NoOperator(p.item.text))
    && (forall p, q :: p in leaves && q in leaves && p.In? && q.In? && p.item.text == q.item.text ==>
          SameOperand(p.item, q.item) && ValuesAgree(p, q))
    && (forall p, q :: p in leaves && q in leaves && p.In? && q.Cmp? ==> ReadsLikeList(q, p))
  }

  /** The values of an IN list on a key column fit it. */
  predicate ListFits(types: seq<ColType>, p: Pred)
    requires p.In?
  {
    !p.negated && p.item.Column? && p.item.index < |types| ==>
      forall k :: 0 <= k < |p.values| && p.values[k].Constant? ==> Storable(types[p.item.index], p.values[k].value)
  }

  /** The constants of comparisons and IN lists fit the key columns that they are compared with. */
  predicate ConstantsFit(types: seq<ColType>, leaves: seq<Pred>) {
    KeyConstantsFit(types, leaves) && forall p :: p in leaves && p.In? ==> ListFits(types, p)
  }

  // ---------- the leaves of the rewritten predicate ----------

  /** A comparison of the parsed predicate, or one of those that an IN list of it stands for. */
  ghost predicate MadeFrom(q: Pred, leaves: seq<Pred>) {
    q.Cmp? && (q in leaves || exists p, k :: p in leaves && MadeOf(q, p, k))
  }

  predicate MadeOf(q: Pred, p: Pred, k: int) {
    p.In? && 0 <= k < |p.values| && p.values[k].Constant? && q == OneOf(p.item, p.values[k], p.negated)
  }

  lemma {:induction false} LeavesOfChildren(p: Pred, n: nat, q: Pred)
    requires p.Or? && n <= |p.children|
    ensures q in LeavesOf(p, n) <==> exists i :: 0 <= i < n && q in Leaves(p.children[i])
  {
    if n > 0 {
      LeavesOfChildren(p, n - 1, q);
    }
  }

  lemma MadeFromMore(q: Pred, some: seq<Pred>, all: seq<Pred>)
    requires MadeFrom(q, some) && forall p :: p in some ==> p in all
    ensures MadeFrom(q, all)
  {
  }

  lemma LeavesOfList(p: Pred)
    requires p.In? && Parsed(p)
    ensures forall q :: q in Leaves(RewriteIn(p)) ==> MadeFrom(q, [p])
  {
    var r := RewriteIn(p);
    forall q | q in Leaves(r) ensures MadeFrom(q, [p]) {
      if r.Or? {
        LeavesOfChildren(r, |r.children|, q);
        var i :| 0 <= i < |r.children| && q in Leaves(r.children[i]);
        assert p in [p] && MadeOf(q, p, i);
      } else {
        assert p in [p] && MadeOf(q, p, 0);
      }
    }
  }

  /** The rewriting has no other leaves than these. */
  lemma {:induction false} LeavesAreMade(p: Pred)
    requires Parsed(p)
    ensures forall q :: q in Leaves(RewriteOp(p).0) ==> MadeFrom(q, Leaves(p))
  {
    match p
    case And(l, r) =>
      LeavesAreMade(l);
      LeavesAreMade(r);
      forall q | q in Leaves(RewriteOp(p).0) ensures MadeFrom(q, Leaves(p)) {
        MadeFromMore(q, if q in Leaves(RewriteOp(l).0) then Leaves(l) else Leaves(r), Leaves(p));
      }
    case Or(cs) =>
      var r := RewriteOp(p).0;
      forall q | q in Leaves(r) ensures MadeFrom(q, Leaves(p)) {
        LeavesOfChildren(r, |r.children|, q);
        var i :| 0 <= i < |r.children| && q in Leaves(r.children[i]);
        LeavesAreMade(cs[i]);
        ChildLeaves(p, i);
        MadeFromMore(q, Leaves(cs[i]), Leaves(p));
      }
    case In(_, _, _, _) =>
      LeavesOfList(p);
    case Cmp(_, _, _, _) =>
  }

  lemma ChildLeaves(p: Pred, i: nat)
    requires p.Or? && i < |p.children|
    ensures forall q :: q in Leaves(p.children[i]) ==> q in Leaves(p)
  {
    forall q | q in Leaves(p.children[i]) ensures q in Leaves(p) {
      LeavesOfChildren(p, |p.children|, q);
    }
  }

  lemma ParsedAndMade(q: Pred, p: Pred, k: int, made: Pred)
    requires q.Cmp? && MadeOf(made, p, k) && ReadsLikeList(q, p) && q.text == made.text
    ensures SameComparison(q, made)
  {
    hide Behind, OneOf;
    OneOfMeans(p.item, p.values[k], p.negated);
  }

  lemma BothMade(p: Pred, s: Pred, k: int, q: Pred, t: Pred, l: int)
    requires MadeOf(p, s, k) && MadeOf(q, t, l) && p.text == q.text
    requires NoOperator(s.item.text) && NoOperator(t.item.text)
    requires s.item.text == t.item.text ==> SameOperand(s.item, t.item) && ValuesAgree(s, t)
    ensures SameComparison(p, q)
  {
    hide Behind, OneOf, NoOperator;
    var (v, w) := (s.values[k].text, t.values[l].text);
    OneOfMeans(s.item, s.values[k], s.negated);
    OneOfMeans(t.item, t.values[l], t.negated);
    ItemEnds(s.item.text, Behind(s.negated, v), t.item.text, Behind(t.negated, w));
    BehindTells(s.negated, v, t.negated, w);
  }

  /** Leaves of one text are one comparison, whether they were parsed or made. */
  lemma MadeAgree(leaves: seq<Pred>, p: Pred, q: Pred)
    requires TextsTellApart(leaves) && MadeFrom(p, leaves) && MadeFrom(q, leaves) && p.text == q.text
    ensures SameComparison(p, q)
  {
    hide MadeOf, ReadsLikeList, NoOperator, ValuesAgree, SameOperand;
    if p in leaves && q in leaves {
    } else if p in leaves {
      var s, k :| s in leaves && MadeOf(q, s, k);
      MadeOfList(q, s, k);
      ParsedAndMade(p, s, k, q);
    } else if q in leaves {
      var s, k :| s in leaves && MadeOf(p, s, k);
      MadeOfList(p, s, k);
      ParsedAndMade(q, s, k, p);
      SameBothWays(p, q);
    } else {
      var s, k :| s in leaves && MadeOf(p, s, k);
      var t, l :| t in leaves && MadeOf(q, t, l);
      MadeOfList(p, s, k);
      MadeOfList(q, t, l);
      BothMade(p, s, k, q, t, l);
    }
  }

  lemma MadeOfList(q: Pred, p: Pred, k: int)
    requires MadeOf(q, p, k)
    ensures p.In?
  {
  }

  lemma SameBothWays(p: Pred, q: Pred)
    requires SameComparison(q, p)
    ensures SameComparison(p, q)
  {
  }

  /** The disjuncts of the rewriting. */
  function DisjunctsOfRewriting(p: Pred): seq<Pred>
    requires Parsed(p)
  {
    var q := Rewrite(p);
    if q.Or? then q.children else [q]
  }

  lemma DisjunctLeavesAreMade(p: Pred, d: Pred, q: Pred)
    requires Parsed(p) && d in DisjunctsOfRewriting(p) && q in Leaves(d)
    ensures MadeFrom(q, Leaves(p))
  {
    var (r, hasOr) := RewriteOp(p);
    LeavesAreMade(p);
    RewriteOpShape(p);
    if hasOr {
      DisjunctLeaves(r);
    }
  }

  /**
   * Texts that tell the leaves of the parsed predicate apart tell the comparisons of every disjunct
   * of its rewriting apart.
   */
  lemma RewrittenTextsAgree(p: Pred, d: Pred)
    requires Parsed(p) && TextsTellApart(Leaves(p)) && d in DisjunctsOfRewriting(p)
    ensures TextsAgree(Leaves(d))
  {
    forall a, b | a in Leaves(d) && b in Leaves(d) && a.Cmp? && b.Cmp? && a.text == b.text
      ensures SameComparison(a, b)
    {
      DisjunctLeavesAreMade(p, d, a);
      DisjunctLeavesAreMade(p, d, b);
      MadeAgree(Leaves(p), a, b);
    }
  }

  lemma MadeFits(types: seq<ColType>, q: Pred, leaves: seq<Pred>)
    requires ConstantsFit(types, leaves) && MadeFrom(q, leaves)
    ensures KeyConstantsFit(types, [q])
  {
    if q !in leaves {
      var p, k :| p in leaves && MadeOf(q, p, k);
      assert ListFits(types, p);
      OneOfMeans(p.item, p.values[k], p.negated);
    }
  }

  /** So do the constants fit in every disjunct. */
  lemma RewrittenConstantsFit(types: seq<ColType>, p: Pred, d: Pred)
    requires Parsed(p) && ConstantsFit(types, Leaves(p)) && d in DisjunctsOfRewriting(p)
    ensures KeyConstantsFit(types, Leaves(d))
  {
    hide ConstantsFit, MadeFrom, BoundOf, Storable;
    forall q | q in Leaves(d) ensures KeyConstantsFit(types, [q]) {
      DisjunctLeavesAreMade(p, d, q);
      MadeFits(types, q, Leaves(p));
    }
    assert forall q :: q in Leaves(d) ==> q in [q];
  }
}
