/**
 * The plans above a scan: the residual filter (execution/FilterPlan.cpp) and the union of
 * range scans (execution/UnionAllPlan.cpp, execution/UnionAllPlan.h). Every plan says which
 * rows a run delivers (`Output`) and which are still to come (`Remaining`).
 */
module Plans {
  import opened Seqs
  import opened Values
  import opened Predicates
  import opened Scan

  function TextOf(p: Pred): string {
    if p.Cmp? || p.In? then p.text else ""
  }

  function Unsolved(solved: set<string>): Pred -> bool {
    (q: Pred) => TextOf(q) !in solved
  }

  /** The leaves of a conjunction that are not solved already, in their order. */
  function Residual(p: Pred, solved: set<string>): seq<Pred> {
    Filter(Leaves(p), Unsolved(solved))
  }

  predicate AllHold(leaves: seq<Pred>, row: seq<Value>) {
    forall j :: 0 <= j < |leaves| ==> SatLeaf(leaves[j], row)
  }

  predicate AnyHolds(predicatesInOr: seq<seq<Pred>>, row: seq<Value>) {
    exists i :: 0 <= i < |predicatesInOr| && AllHold(predicatesInOr[i], row)
  }

  ghost function Accepts(predicatesInOr: seq<seq<Pred>>): Entry -> bool {
    (e: Entry) => AnyHolds(predicatesInOr, e.Row())
  }

  class FilterPlan {
    const child: LevelDBScanPlan
    /** The leaves of each conjunction; one of the conjunctions has to hold. */
    var predicatesInOr: seq<seq<Pred>>

    constructor (child: LevelDBScanPlan)
      ensures this.child == child && predicatesInOr == []
    {
      this.child, predicatesInOr := child, [];
    }

    /** Adds a conjunction without its solved leaves; says whether any leaf is left. */
    method AddPredicate(p: Pred, solved: set<string>) returns (added: bool)
      requires !HasOr(p)
      modifies `predicatesInOr
      ensures predicatesInOr == old(predicatesInOr) + [Residual(p, solved)]
      ensures added == (Residual(p, solved) != [])
    {
      var andList := DoAddPredicate([], p, solved);
      assert [] + Residual(p, solved) == Residual(p, solved);
      predicatesInOr := predicatesInOr + [andList];
      added := andList != [];
    }

    method DoAddPredicate(before: seq<Pred>, p: Pred, solved: set<string>) returns (andList: seq<Pred>)
      requires !HasOr(p)
      ensures andList == before + Residual(p, solved)
      decreases p
    {
      if p.And? {
        andList := DoAddPredicate(before, p.left, solved);
        andList := DoAddPredicate(andList, p.right, solved);
        FilterAppend(Leaves(p.left), Leaves(p.right), Unsolved(solved));
        assert before + Residual(p.left, solved) + Residual(p.right, solved) == before + Residual(p, solved);
      } else if TextOf(p) in solved {
        FilterHead(p, [], Unsolved(solved));
        assert [p] + [] == [p];
        andList := before;
      } else {
        FilterHead(p, [], Unsolved(solved));
        assert [p] + [] == [p];
        andList := before + [p];
      }
    }

    ghost predicate Running()
      reads this, child, child.iter
    {
      child.Running()
    }

    ghost function Output(): seq<Entry>
      reads `predicatesInOr, child`range, child`order
    {
      Filter(child.Output(), Accepts(predicatesInOr))
    }

    ghost function Remaining(): seq<Entry>
      reads `predicatesInOr, child`rows, child`ended, child`output
    {
      Filter(child.Remaining(), Accepts(predicatesInOr))
    }

    /** Takes rows from the scan until one of them satisfies a conjunction. */
    method Next() returns (ok: bool)
      requires Running() && !child.ended
      modifies child`rows, child`current, child`ended, child.iter`pos
      ensures Running() && child.ended == !ok
      ensures ok == (old(Remaining()) != [])
      ensures ok ==> child.current == old(Remaining())[0] && Remaining() == old(Remaining())[1..]
    {
      ghost var (all, accepts) := (Remaining(), Accepts(predicatesInOr));
      ghost var rest := child.Remaining();
      ok := child.Next();
      while ok
        invariant Running() && child.ended == !ok
        invariant Filter(rest, accepts) == all
        invariant ok == (rest != [])
        invariant ok ==> child.current == rest[0] && child.Remaining() == rest[1..]
        decreases |rest|
      {
        var matches := Matches(child.current.Row());
        if matches {
          return true;
        }
        rest := child.Remaining();
        ok := child.Next();
      }
    }

    method Matches(row: seq<Value>) returns (b: bool)
      ensures b == AnyHolds(predicatesInOr, row)
    {
      for i := 0 to |predicatesInOr|
        invariant forall k :: 0 <= k < i ==> !AllHold(predicatesInOr[k], row)
      {
        var match' := true;
        var j := 0;
        while match' && j < |predicatesInOr[i]|
          invariant 0 <= j <= |predicatesInOr[i]|
          invariant match' ==> forall k :: 0 <= k < j ==> SatLeaf(predicatesInOr[i][k], row)
          invariant !match' ==> exists k :: 0 <= k < |predicatesInOr[i]| && !SatLeaf(predicatesInOr[i][k], row)
          decreases match', |predicatesInOr[i]| - j
        {
          if SatLeaf(predicatesInOr[i][j], row) {
            j := j + 1;
          } else {
            match' := false;
          }
        }
        if match' {
          return true;
        }
      }
      return false;
    }
  }

  /** The rows of a scan whose direction changes. */
  function Turned(was: SortOrder, now: SortOrder, rows: seq<Entry>): seq<Entry> {
    if was != Descend && now == Descend then Reverse(rows) else rows
  }

  /** A scan with or without a residual filter: the children of a union. */
  datatype ScanNode = Plain(scan: LevelDBScanPlan) | Filtered(filter: FilterPlan)
  {
    function Base(): LevelDBScanPlan {
      if Plain? then scan else filter.child
    }

    ghost function Output(): seq<Entry>
      reads Base()`range, Base()`order, if Filtered? then {filter} else {}
    {
      if Plain? then scan.Output() else filter.Output()
    }

    ghost function Remaining(): seq<Entry>
      reads Base()`rows, Base()`ended, Base()`output, if Filtered? then {filter} else {}
    {
      if Plain? then scan.Remaining() else filter.Remaining()
    }

    /** The node can begin a run, over the given cursor if there is one, and will deliver `out`. */
    ghost predicate Ready(shared: LevelDBIterator?, out: seq<Entry>)
      reads Base()`range, Base()`order, Base()`iter, if Filtered? then {filter} else {}
      ensures Ready(shared, out) ==> Base().iter == shared
    {
      && Base().Sound() && Base().iter == shared && Output() == out
      && (shared != null ==> Base().table == shared.entries)
    }

    /** The request goes to the scan; turning it to Descend turns the rows around. */
    method EnsureSortOrder(index: nat, column: nat, requested: SortOrder) returns (ok: bool)
      modifies Base()`order
      ensures (ok, Base().order) == ScanEnsures(|Base().types|, old(Base().order), index, column, requested)
      ensures Base().Sound() ==> Output() == Turned(old(Base().order), Base().order, old(Output()))
    {
      ghost var before := Base().Output();
      match this
      case Plain(s) =>
        ok := s.EnsureSortOrder(index, column, requested);
      case Filtered(f) =>
        ok := f.child.EnsureSortOrder(index, column, requested);
        FilterReverse(before, Accepts(f.predicatesInOr));
    }

    method Begin(ghost shared: LevelDBIterator?, ghost out: seq<Entry>)
      requires Ready(shared, out)
      modifies Base()`iter, Base()`range, Base()`rows, Base()`ended, Base()`lo, Base()`hi, Base()`output
      ensures shared != null ==> Ready(shared, out)
      ensures shared == null ==> fresh(Base().iter)
      ensures Base().Running() && !Base().ended && Remaining() == out
    {
      match this
      case Plain(s) => s.Begin();
      case Filtered(f) => f.child.Begin();
    }

    method Next() returns (ok: bool)
      requires Base().Running() && !Base().ended
      modifies Base()`rows, Base()`current, Base()`ended, Base().iter`pos
      ensures Base().Running() && Base().ended == !ok
      ensures ok == (old(Remaining()) != [])
      ensures ok ==> Base().current == old(Remaining())[0] && Remaining() == old(Remaining())[1..]
    {
      match this
      case Plain(s) => ok := s.Next();
      case Filtered(f) => ok := f.Next();
    }
  }

  /** What the children answer to a request when they are asked, and the directions they have then. */
  function Answers(nodes: seq<ScanNode>, before: seq<SortOrder>, index: nat, column: nat, requested: SortOrder)
    : (r: seq<(bool, SortOrder)>)
    requires |before| == |nodes|
    ensures |r| == |nodes|
  {
    seq(|nodes|, i requires 0 <= i < |nodes| =>
      ScanEnsures(|nodes[i].Base().types|, before[i], index, column, requested))
  }

  /** The first `n` children accept. */
  predicate AllAccept(answers: seq<(bool, SortOrder)>, n: nat)
    requires n <= |answers|
  {
    forall k :: 0 <= k < n ==> answers[k].0
  }

  /** The directions after a request: children are asked in turn up to the first refusal. */
  function AfterRequest(before: seq<SortOrder>, answers: seq<(bool, SortOrder)>): seq<SortOrder>
    requires |before| == |answers|
  {
    seq(|before|, i requires 0 <= i < |before| => if AllAccept(answers, i) then answers[i].1 else before[i])
  }

  /** When the first `n` children have been asked. */
  function AskedUpTo(before: seq<SortOrder>, answers: seq<(bool, SortOrder)>, n: nat): seq<SortOrder>
    requires |before| == |answers|
  {
    seq(|before|, i requires 0 <= i < |before| => if i < n then answers[i].1 else before[i])
  }

  lemma NoneAsked(before: seq<SortOrder>, answers: seq<(bool, SortOrder)>)
    requires |before| == |answers|
    ensures AskedUpTo(before, answers, 0) == before
  {
  }

  /** The last child that is asked is the first that refuses, or the last of all. */
  lemma AskedAre(before: seq<SortOrder>, answers: seq<(bool, SortOrder)>, n: nat)
    requires |before| == |answers| && n <= |answers| && forall k :: 0 <= k < n - 1 ==> answers[k].0
    requires n == |answers| || (n > 0 && !answers[n - 1].0)
    ensures AskedUpTo(before, answers, n) == AfterRequest(before, answers)
  {
  }

  function TurnedParts(before: seq<SortOrder>, now: seq<SortOrder>, outs: seq<seq<Entry>>): seq<seq<Entry>>
    requires |before| == |now| == |outs|
  {
    seq(|outs|, i requires 0 <= i < |outs| => Turned(before[i], now[i], outs[i]))
  }

  lemma NothingTurned(before: seq<SortOrder>, outs: seq<seq<Entry>>)
    requires |before| == |outs|
    ensures TurnedParts(before, before, outs) == outs
  {
  }

  class UnionAllPlan {
    var plans: seq<ScanNode>
    var currentIndex: nat
    var order: SortOrder
    var current: Entry
    /** The cursor that all the children share, and what each child delivers in a run. */
    ghost const shared: LevelDBIterator
    ghost var outputs: seq<seq<Entry>>
    ghost var scans: set<LevelDBScanPlan>
    ghost var filters: set<FilterPlan>
    ghost var ended: bool

    constructor (ghost shared: LevelDBIterator)
      ensures plans == [] && outputs == [] && order == Any && this.shared == shared && Sound()
      ensures scans == {} && filters == {}
    {
      plans, currentIndex, order := [], 0, Any;
      current := Entry([], []);
      this.shared, outputs, scans, filters, ended := shared, [], {}, {}, false;
    }

    /** The children scan one table, each with its own state, over one shared cursor. */
    ghost predicate Sound()
      reads `plans, `outputs, `scans, `filters, scans, filters
      ensures Sound() ==> |outputs| == |plans| && forall i :: 0 <= i < |plans| ==> plans[i].Base() in scans
    {
      && |outputs| == |plans|
      && (forall i, j :: 0 <= i < j < |plans| ==> plans[i].Base() != plans[j].Base())
      && (forall i :: 0 <= i < |plans| ==>
            plans[i].Base() in scans && (plans[i].Filtered? ==> plans[i].filter in filters))
      && (forall i :: 0 <= i < |plans| ==> plans[i].Ready(shared, outputs[i]))
    }

    method AddChildPlan(node: ScanNode)
      requires Sound() && node.Base() !in scans && node.Ready(shared, node.Output())
      modifies this
      ensures Sound() && plans == old(plans) + [node] && outputs == old(outputs) + [node.Output()]
      ensures scans == old(scans) + {node.Base()} && order == old(order)
      ensures filters == old(filters) + if node.Filtered? then {node.filter} else {}
    {
      hide ScanNode.Ready, ScanNode.Output;
      plans := plans + [node];
      outputs := outputs + [node.Output()];
      scans := scans + {node.Base()};
      filters := filters + if node.Filtered? then {node.filter} else {};
    }

    /** All the children scan in the same direction. */
    ghost predicate Uniform(keys: nat, direction: SortOrder)
      requires forall i :: 0 <= i < |plans| ==> plans[i].Base() in scans
      reads `plans, `scans, scans`order
    {
      forall i :: 0 <= i < |plans| ==> |plans[i].Base().types| == keys && plans[i].Base().order == direction
    }

    /** The directions of the children. */
    ghost function Directions(): (r: seq<SortOrder>)
      requires forall i :: 0 <= i < |plans| ==> plans[i].Base() in scans
      reads `plans, `scans, scans
      ensures |r| == |plans| && forall i :: 0 <= i < |plans| ==> r[i] == plans[i].Base().order
    {
      var (nodes, bases) := (plans, scans);
      seq(|nodes|, i requires 0 <= i < |nodes| && nodes[i].Base() in bases reads bases => nodes[i].Base().order)
    }

    /**
     * Child by child until one refuses. When all have accepted, the union records the request
     * itself; the children that have been asked keep the direction that they have taken on.
     */
    method EnsureSortOrder(index: nat, column: nat, requested: SortOrder) returns (ok: bool)
      requires Sound()
      modifies `order, `outputs, scans`order
      ensures Sound() && plans == old(plans) && scans == old(scans) && filters == old(filters)
      ensures ok == AllAccept(Answers(plans, old(Directions()), index, column, requested), |plans|)
      ensures order == if ok then requested else old(order)
      ensures Directions() ==
                AfterRequest(old(Directions()), Answers(plans, old(Directions()), index, column, requested))
      ensures outputs == TurnedParts(old(Directions()), Directions(), old(outputs))
    {
      hide Sound, ScanNode.Ready, Turned, AfterRequest;
      ghost var (was, before) := (outputs, Directions());
      ghost var answers := Answers(plans, before, index, column, requested);
      NothingTurned(before, was);
      NoneAsked(before, answers);
      for i := 0 to |plans|
        invariant Sound() && unchanged(`plans, `order, `scans, `filters) && AllAccept(answers, i)
        invariant Directions() == AskedUpTo(before, answers, i)
        invariant outputs == TurnedParts(before, Directions(), was)
      {
        var childOk := EnsureChild(i, index, column, requested);
        assert childOk == answers[i].0;
        assert Directions() == AskedUpTo(before, answers, i + 1);
        if !childOk {
          AskedAre(before, answers, i + 1);
          return false;
        }
      }
      AskedAre(before, answers, |plans|);
      order := requested;
      return true;
    }

    method EnsureChild(i: nat, index: nat, column: nat, requested: SortOrder) returns (ok: bool)
      requires Sound() && i < |plans|
      modifies `outputs, plans[i].Base()`order
      ensures Sound() && unchanged(`plans, `order, `scans, `filters)
      ensures (ok, plans[i].Base().order) ==
                ScanEnsures(|plans[i].Base().types|, old(plans[i].Base().order), index, column, requested)
      ensures forall k :: 0 <= k < |plans| && k != i ==> plans[k].Base().order == old(plans[k].Base().order)
      ensures outputs == old(outputs)[i := Turned(old(plans[i].Base().order), plans[i].Base().order, old(outputs[i]))]
    {
      hide RunOf, ScanNode.Output;
      label before:
      ok := plans[i].EnsureSortOrder(index, column, requested);
      outputs := outputs[i := Turned(old(plans[i].Base().order), plans[i].Base().order, outputs[i])];
      forall k | 0 <= k < |plans| ensures plans[k].Ready(shared, outputs[k]) {
        assert old@before(plans[k].Ready(shared, outputs[k]));
      }
    }

    ghost predicate Running()
      reads `plans, `outputs, `scans, `filters, `currentIndex, `ended, shared, scans, filters
      ensures Running() ==> Sound() && (!ended ==> currentIndex < |plans|)
    {
      && Sound() && currentIndex <= |plans|
      && (!ended ==>
            currentIndex < |plans| && plans[currentIndex].Base().Running() && !plans[currentIndex].Base().ended)
    }

    /** The rows still to come: the rest of the current child, then the later children. */
    ghost function Remaining(): seq<Entry>
      reads `plans, `outputs, `scans, `filters, `currentIndex, `ended, scans, filters
      requires Sound()
    {
      if !ended && currentIndex < |plans| then
        plans[currentIndex].Remaining() + Concat(outputs[currentIndex + 1..])
      else []
    }

    /** In Descend mode the children are run in reverse order. */
    method Begin()
      requires Sound() && plans != []
      modifies `plans, `outputs, `currentIndex, `ended
      modifies scans`iter, scans`range, scans`rows, scans`ended, scans`lo, scans`hi, scans`output
      ensures Running() && !ended && plans != []
      ensures outputs == if order == Descend then Reverse(old(outputs)) else old(outputs)
      ensures Remaining() == Concat(outputs)
    {
      hide RunOf, ScanNode.Ready, ScanNode.Remaining, ScanNode.Output, Concat, Reverse, UnionAllPlan.Sound;
      if order == Descend {
        ReversePlans();
      }
      currentIndex, ended := 0, false;
      BeginCurrent();
      ConcatFrom(outputs, 0);
      assert outputs[0..] == outputs;
    }

    method ReversePlans()
      requires Sound()
      modifies `plans, `outputs
      ensures Sound() && plans == Reverse(old(plans)) && outputs == Reverse(old(outputs))
    {
      hide ScanNode.Ready;
      plans, outputs := Reverse(plans), Reverse(outputs);
    }

    method BeginCurrent()
      requires Sound() && currentIndex < |plans|
      modifies plans[currentIndex].Base()`iter, plans[currentIndex].Base()`range, plans[currentIndex].Base()`rows
      modifies plans[currentIndex].Base()`ended, plans[currentIndex].Base()`lo, plans[currentIndex].Base()`hi
      modifies plans[currentIndex].Base()`output
      ensures Sound() && unchanged(this)
      ensures plans[currentIndex].Base().Running() && !plans[currentIndex].Base().ended
      ensures plans[currentIndex].Remaining() == outputs[currentIndex]
    {
      hide RunOf, ScanNode.Ready, ScanNode.Remaining, ScanNode.Output;
      label before:
      plans[currentIndex].Begin(shared, outputs[currentIndex]);
      forall i | 0 <= i < |plans| ensures plans[i].Ready(shared, outputs[i]) {
        assert old@before(plans[i].Ready(shared, outputs[i]));
        if i != currentIndex {
          assert plans[i].Base() != plans[currentIndex].Base();
        }
      }
    }

    method Next() returns (ok: bool)
      requires Running() && !ended
      modifies `currentIndex, `current, `ended, shared`pos
      modifies scans`iter, scans`range, scans`rows, scans`current, scans`ended, scans`lo, scans`hi, scans`output
      ensures Running() && ended == !ok
      ensures ok == (old(Remaining()) != [])
      ensures ok ==> current == old(Remaining())[0] && Remaining() == old(Remaining())[1..]
    {
      hide *;
      ghost var all := Remaining();
      ok := NextOfCurrent(all);
      while !ok
        invariant unchanged(`plans, `outputs, `order, `scans, `filters)
        invariant if ok then Running() && Delivering(all) else Exhausted(all)
        decreases |plans| - currentIndex
      {
        var more := BeginFollowing(all);
        if !more {
          return false;
        }
        ok := NextOfCurrent(all);
      }
      current := TakeCurrent(all);
    }

    /** The current child has delivered the first of the rows `all`, and the others are to come. */
    ghost predicate Delivering(all: seq<Entry>)
      reads `plans, `outputs, `scans, `filters, `currentIndex, `ended, scans, filters
      ensures Delivering(all) ==> Sound() && !ended && currentIndex < |plans|
    {
      && Sound() && !ended && currentIndex < |plans|
      && all != [] && plans[currentIndex].Base().current == all[0] && Remaining() == all[1..]
    }

    /** The current child is at its end, and the rows `all` are to come from later children. */
    ghost predicate Exhausted(all: seq<Entry>)
      reads `plans, `outputs, `scans, `filters, `currentIndex, `ended, scans, filters
      ensures Exhausted(all) ==> Sound() && !ended && currentIndex < |plans|
    {
      Sound() && !ended && currentIndex < |plans| && all == Concat(outputs[currentIndex + 1..])
    }

    method TakeCurrent(ghost all: seq<Entry>) returns (row: Entry)
      requires Running() && Delivering(all)
      ensures !ended && all != [] && row == all[0] && Remaining() == all[1..]
    {
      row := plans[currentIndex].Base().current;
    }

    method NextOfCurrent(ghost all: seq<Entry>) returns (ok: bool)
      requires Running() && !ended && currentIndex < |plans| && Sound() && Remaining() == all
      modifies plans[currentIndex].Base()`rows, plans[currentIndex].Base()`current, plans[currentIndex].Base()`ended
      modifies shared`pos
      ensures unchanged(this) && if ok then Running() && Delivering(all) else Exhausted(all)
    {
      hide RunOf, ScanNode.Ready, ScanNode.Remaining, ScanNode.Output, Concat;
      label before:
      ghost var (rest, tail) := (plans[currentIndex].Remaining(), Concat(outputs[currentIndex + 1..]));
      ok := plans[currentIndex].Next();
      forall i | 0 <= i < |plans| ensures plans[i].Ready(shared, outputs[i]) {
        assert old@before(plans[i].Ready(shared, outputs[i]));
      }
      if ok {
        AppendHead(rest, tail);
      }
    }

    /** To the next child, if there is one. */
    method BeginFollowing(ghost all: seq<Entry>) returns (more: bool)
      requires Exhausted(all)
      modifies `currentIndex, `ended
      modifies scans`iter, scans`range, scans`rows, scans`ended, scans`lo, scans`hi, scans`output
      ensures currentIndex == old(currentIndex) + 1 && Running() && ended == !more
      ensures old(currentIndex) < |plans|
      ensures unchanged(`plans, `outputs, `order, `scans, `filters)
      ensures if more then currentIndex < |plans| && Sound() && Remaining() == all else all == []
    {
      currentIndex := currentIndex + 1;
      if currentIndex >= |plans| {
        ended := true;
        return false;
      }
      ConcatFrom(outputs, currentIndex);
      BeginCurrent();
      return true;
    }
  }
}
