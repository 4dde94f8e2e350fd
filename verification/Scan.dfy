/**
 * A cursor over the stored rows and the range scan that drives it
 * (execution/LevelDBHandler.h, execution/KeySearchRange.cpp, execution/LevelDBScanPlan.cpp).
 */
module Scan {
  import opened Seqs
  import opened Values
  import opened Predicates
  import opened KeyRange
  import RowCodec

  datatype SortOrder = Ascend | Descend | Any

  /** A stored row: the values of the key columns and of the other columns. */
  datatype Entry = Entry(key: seq<Value>, value: seq<Value>)
  {
    /** The row as result columns number it: key columns first. */
    function Row(): seq<Value> {
      key + value
    }
  }

  /** A table: rows with keys that can be stored and read back column by column, strictly ascending. */
  predicate ValidTable(types: seq<ColType>, es: seq<Entry>) {
    && (forall i :: 0 <= i < |es| ==> StorableRow(types, es[i].key) && RowCodec.SafeRow(es[i].key))
    && (forall i, j :: 0 <= i < j < |es| ==> |es[i].key| == |es[j].key| && LexCompare(es[i].key, es[j].key) < 0)
  }

  ghost function InRange(r: Range): Entry -> bool {
    (e: Entry) => r.HasKeys(|e.key|) && r.Contains(e.key)
  }

  predicate Keyed(r: Range, es: seq<Entry>) {
    forall i :: 0 <= i < |es| ==> |r.start| == |r.end| == |es[i].key|
  }

  /** The first position from `i` on that the start of the range does not exclude. */
  function LoFrom(r: Range, es: seq<Entry>, i: nat): (lo: nat)
    requires Keyed(r, es) && i <= |es|
    ensures i <= lo <= |es|
    ensures forall k :: i <= k < lo ==> !r.AtOrAfterStart(es[k].key)
    ensures lo < |es| ==> r.AtOrAfterStart(es[lo].key)
    decreases |es| - i
  {
    if i < |es| && !r.AtOrAfterStart(es[i].key) then LoFrom(r, es, i + 1) else i
  }

  /** The first position from `i` on that the end of the range excludes. */
  function HiFrom(r: Range, es: seq<Entry>, i: nat): (hi: nat)
    requires Keyed(r, es) && i <= |es|
    ensures i <= hi <= |es|
    ensures forall k :: i <= k < hi ==> r.AtOrBeforeEnd(es[k].key)
    ensures hi < |es| ==> !r.AtOrBeforeEnd(es[hi].key)
    decreases |es| - i
  {
    if i < |es| && r.AtOrBeforeEnd(es[i].key) then HiFrom(r, es, i + 1) else i
  }

  /** The rows of the range, ascending: one slice of the table. */
  function Hits(r: Range, es: seq<Entry>): seq<Entry>
    requires Keyed(r, es)
  {
    var (lo, hi) := (LoFrom(r, es, 0), HiFrom(r, es, 0));
    if lo < hi then es[lo..hi] else []
  }

  /** Exactly the rows from `lo` on are at or after the start, exactly those before `hi` at or before the end. */
  predicate Placed(r: Range, es: seq<Entry>, lo: nat, hi: nat) {
    && Keyed(r, es) && lo <= |es| && hi <= |es|
    && (forall k :: 0 <= k < |es| ==> (r.AtOrAfterStart(es[k].key) <==> lo <= k))
    && (forall k :: 0 <= k < |es| ==> (r.AtOrBeforeEnd(es[k].key) <==> k < hi))
  }

  /** What a scan of the range delivers in the given direction. */
  function ScanOutput(r: Range, es: seq<Entry>, order: SortOrder): seq<Entry>
    requires Keyed(r, es)
  {
    if order == Descend then Reverse(Hits(r, es)) else Hits(r, es)
  }

  lemma StartMonotone(types: seq<ColType>, r: Range, es: seq<Entry>, i: nat, j: nat)
    requires ValidTable(types, es) && r.Valid(types) && i <= j < |es|
    ensures r.AtOrAfterStart(es[i].key) ==> r.AtOrAfterStart(es[j].key)
    ensures r.AtOrBeforeEnd(es[j].key) ==> r.AtOrBeforeEnd(es[i].key)
  {
    if i < j {
      LexOrder(r.start, es[i].key);
      LexOrder(r.start, es[j].key);
      if LexCompare(r.start, es[i].key) <= 0 {
        LexTransitive(r.start, es[i].key, es[j].key);
      }
      if LexCompare(es[j].key, r.end) <= 0 {
        LexTransitive(es[i].key, es[j].key, r.end);
      }
    }
  }

  /** In a sorted table the rows of a range form one slice. */
  lemma Bounds(types: seq<ColType>, r: Range, es: seq<Entry>)
    requires ValidTable(types, es) && r.Valid(types)
    ensures Keyed(r, es) && Placed(r, es, LoFrom(r, es, 0), HiFrom(r, es, 0))
  {
    var (lo, hi) := (LoFrom(r, es, 0), HiFrom(r, es, 0));
    forall k | 0 <= k < |es|
      ensures r.AtOrAfterStart(es[k].key) <==> lo <= k
      ensures r.AtOrBeforeEnd(es[k].key) <==> k < hi
    {
      if lo <= k {
        StartMonotone(types, r, es, lo, k);
      }
      if hi <= k {
        StartMonotone(types, r, es, hi, k);
      }
    }
  }

  /** The slice that the scan walks is exactly the rows whose key lies in the range. */
  lemma HitsAreTheRowsInRange(types: seq<ColType>, r: Range, es: seq<Entry>)
    requires ValidTable(types, es) && r.Valid(types)
    ensures Keyed(r, es) && Hits(r, es) == Filter(es, InRange(r))
  {
    Bounds(types, r, es);
    var (lo, hi) := (LoFrom(r, es, 0), HiFrom(r, es, 0));
    if lo < hi {
      FilterSlice(es, lo, hi, InRange(r));
    } else {
      FilterNone(es, InRange(r));
    }
  }

  /** A run of a range over a sorted table: where its rows are, and the rows in order of delivery. */
  ghost predicate RunOf(types: seq<ColType>, r: Range, es: seq<Entry>, order: SortOrder, lo: nat, hi: nat,
                        out: seq<Entry>) {
    && ValidTable(types, es) && r.Valid(types) && Keyed(r, es)
    && lo == LoFrom(r, es, 0) && hi == HiFrom(r, es, 0) && out == ScanOutput(r, es, order)
  }

  /** The cursor position that follows `rows` delivered rows. */
  function Position(order: SortOrder, lo: nat, hi: nat, rows: nat): int {
    if order == Descend then hi - 1 - rows else lo + rows
  }

  /** At the next position the end test passes exactly when there is a next row, and it is that row. */
  lemma RunStep(types: seq<ColType>, r: Range, es: seq<Entry>, order: SortOrder, lo: nat, hi: nat, out: seq<Entry>,
                rows: nat)
    requires RunOf(types, r, es, order, lo, hi, out) && rows <= |out|
    ensures Placed(r, es, lo, hi)
    ensures var p := Position(order, lo, hi, rows);
            && (rows < |out| <==>
                  (0 <= p < |es| && |es[p].key| == |r.start| == |r.end|
                   && if order == Descend then r.AtOrAfterStart(es[p].key) else r.AtOrBeforeEnd(es[p].key)))
            && (0 <= p < |es| ==> |es[p].key| == |r.start| == |r.end|)
            && (rows < |out| ==> out[rows] == es[p])
  {
    hide LoFrom, HiFrom, ValidTable, Range.Valid, Range.AtOrAfterStart, Range.AtOrBeforeEnd;
    Bounds(types, r, es);
    var p := Position(order, lo, hi, rows);
    assert |out| == if lo < hi then hi - lo else 0;
    assert 0 <= p < |es| ==> (r.AtOrAfterStart(es[p].key) <==> lo <= p) && (r.AtOrBeforeEnd(es[p].key) <==> p < hi);
  }

  // ---------- the cursor ----------

  class LevelDBIterator {
    const entries: seq<Entry>
    var pos: int

    constructor (entries: seq<Entry>)
      ensures this.entries == entries
    {
      this.entries := entries;
      pos := -1;
    }

    predicate Valid()
      reads this
    {
      0 <= pos < |entries|
    }

    /** To the first row whose stored key does not compare below the given bytes. */
    method Seek(types: seq<ColType>, bs: seq<Byte>, ghost bound: seq<Value>)
      requires ValidTable(types, entries) && FitsRow(types, bound) && bs == RowCodec.EncodeRow(types, bound)
      modifies `pos
      ensures 0 <= pos <= |entries|
      ensures forall k :: 0 <= k < pos ==> LexCompare(entries[k].key, bound) < 0
      ensures Valid() ==> LexCompare(entries[pos].key, bound) >= 0
    {
      hide LexCompare, RowCodec.CompareRows, RowCodec.EncodeRow, RowCodec.SafeRow;
      pos := 0;
      while pos < |entries|
        invariant 0 <= pos <= |entries|
        invariant forall k :: 0 <= k < pos ==> LexCompare(entries[k].key, bound) < 0
      {
        var n := CompareKey(types, bs, bound);
        if n >= 0 {
          return;
        }
        pos := pos + 1;
      }
    }

    /** The stored key under the cursor against the bytes of a bound. */
    method CompareKey(types: seq<ColType>, bs: seq<Byte>, ghost bound: seq<Value>) returns (n: int)
      requires ValidTable(types, entries) && Valid()
      requires FitsRow(types, bound) && bs == RowCodec.EncodeRow(types, bound)
      ensures n == LexCompare(entries[pos].key, bound)
    {
      hide LexCompare, RowCodec.CompareRows, RowCodec.EncodeRow;
      RowCodec.StoredKeyAgainstBound(types, entries[pos].key, bound);
      var compared := RowCodec.CompareEncoded(types, RowCodec.EncodeRow(types, entries[pos].key), bs);
      n := compared.value;
    }

    method First()
      modifies `pos
      ensures pos == 0
    {
      pos := 0;
    }

    method Last()
      modifies `pos
      ensures pos == |entries| - 1
    {
      pos := |entries| - 1;
    }

    method Next()
      requires Valid()
      modifies `pos
      ensures pos == old(pos) + 1
    {
      pos := pos + 1;
    }

    method Prev()
      requires Valid()
      modifies `pos
      ensures pos == old(pos) - 1
    {
      pos := pos - 1;
    }
  }

  /** Puts the cursor on the first row of the range, if there is one. */
  method SeekStart(types: seq<ColType>, r: Range, it: LevelDBIterator, ghost lo: nat, ghost hi: nat)
    requires ValidTable(types, it.entries) && r.Valid(types) && Placed(r, it.entries, lo, hi)
    modifies it`pos
    ensures it.pos == lo
  {
    hide ValidTable, RowCodec.EncodeRow, LexCompare;
    assert lo < |it.entries| ==> r.AtOrAfterStart(it.entries[lo].key);
    if r.seekToFirst {
      assert |it.entries| > 0 ==> r.AtOrAfterStart(it.entries[0].key);
      it.First();
      return;
    }
    var startRow := RowCodec.EncodeRow(types, r.start);
    it.Seek(types, startRow, r.start);
    if !r.startInclusive {
      while it.Valid()
        invariant 0 <= it.pos <= lo
        decreases |it.entries| - it.pos
      {
        var n := it.CompareKey(types, startRow, r.start);
        assert n > 0 <==> r.AtOrAfterStart(it.entries[it.pos].key);
        if n > 0 {
          return;
        }
        it.Next();
      }
    }
  }

  /** Rows behind one that is not below the end are past the end. */
  lemma PastEnd(types: seq<ColType>, r: Range, es: seq<Entry>, i: nat, k: nat)
    requires ValidTable(types, es) && r.Valid(types) && !r.seekToLast && i < k < |es|
    requires LexCompare(es[i].key, r.end) >= 0
    ensures !r.AtOrBeforeEnd(es[k].key)
  {
    LexOrder(r.end, es[i].key);
    LexTransitive(r.end, es[i].key, es[k].key);
    LexOrder(r.end, es[k].key);
  }

  /** Puts the cursor on the last row that the end of the range allows, or before the first row. */
  method SeekStartReversed(types: seq<ColType>, r: Range, it: LevelDBIterator, ghost lo: nat, ghost hi: nat)
    requires ValidTable(types, it.entries) && r.Valid(types) && Placed(r, it.entries, lo, hi)
    modifies it`pos
    ensures it.pos == hi - 1
  {
    hide ValidTable, RowCodec.EncodeRow, LexCompare;
    if r.seekToLast {
      it.Last();
      return;
    }
    var endRow := RowCodec.EncodeRow(types, r.end);
    it.Seek(types, endRow, r.end);
    if !it.Valid() {
      assert |it.entries| > 0 ==> r.AtOrBeforeEnd(it.entries[|it.entries| - 1].key);
      it.Last();
      return;
    }
    ghost var sought := it.pos;
    if sought + 1 < |it.entries| {
      PastEnd(types, r, it.entries, sought, sought + 1);
    }
    while it.Valid()
      invariant -1 <= it.pos <= sought && hi <= it.pos + 1
      decreases it.pos
    {
      var n := it.CompareKey(types, endRow, r.end);
      assert n < 0 || (n == 0 && r.endInclusive) <==> r.AtOrBeforeEnd(it.entries[it.pos].key);
      if n == 0 && r.endInclusive {
        return;
      }
      if n < 0 {
        return;
      }
      it.Prev();
    }
  }

  function FullRange(types: seq<ColType>): Range {
    RangeOf(types, [])
  }

  // ---------- the scan ----------

  class LevelDBScanPlan {
    const types: seq<ColType>
    const table: seq<Entry>
    var iter: LevelDBIterator?
    var range: Option<Range>
    var order: SortOrder
    var rows: nat
    var current: Entry
    /** `next` has returned false; it must not be called again. */
    ghost var ended: bool
    /** Where the rows of the range are in the table, and the rows of this run. */
    ghost var lo: nat
    ghost var hi: nat
    ghost var output: seq<Entry>

    constructor (types: seq<ColType>, table: seq<Entry>)
      ensures this.types == types && this.table == table
      ensures iter == null && range == None && order == Any && rows == 0
    {
      this.types, this.table := types, table;
      iter, range, order, rows, ended := null, None, Any, 0, false;
      current := Entry([], []);
    }

    ghost predicate Sound()
      reads `range
    {
      ValidTable(types, table) && (range.Some? ==> range.value.Valid(types))
    }

    /** All the rows that a run of the scan delivers: the whole table without a predicate. */
    ghost function Output(): seq<Entry>
      reads `range, `order
    {
      if range.Some? then (if Keyed(range.value, table) then ScanOutput(range.value, table, order) else [])
      else if order == Descend then Reverse(table) else table
    }

    /** The rows that are still to come. */
    ghost function Remaining(): seq<Entry>
      reads `rows, `ended, `output
    {
      if ended || rows > |output| then [] else output[rows..]
    }

    /** The scan has begun and the cursor is on the row delivered last. */
    ghost predicate Running()
      reads this, iter
    {
      && range.Some? && iter != null && iter.entries == table
      && RunOf(types, range.value, table, order, lo, hi, output)
      && rows <= |output|
      && (rows > 0 && !ended ==> iter.pos == Position(order, lo, hi, rows - 1))
    }

    method SetPredicate(p: Pred) returns (solved: set<string>)
      requires !HasOr(p)
      modifies `range
      ensures range == Some(RangeOf(types, Leaves(p))) && solved == SolvedOf(|types|, Leaves(p))
    {
      var search := new KeySearchRange(types, Some(p));
      range := Some(search.ToRange());
      solved := search.solved;
    }

    method SetLevelDBIterator(it: LevelDBIterator)
      modifies `iter
      ensures iter == it
    {
      iter := it;
    }

    /** Without a predicate the scan runs over the full range. */
    method EnsureRange()
      requires Sound()
      modifies `range
      ensures Sound() && range.Some? && (old(range).Some? ==> range == old(range))
      ensures Output() == old(Output())
    {
      if range == None {
        var search := new KeySearchRange(types, None);
        range := Some(search.ToRange());
        FullRangeIsValid(types);
        FullRangeHitsAll(types, table);
      }
    }

    method Begin()
      requires Sound()
      requires iter != null ==> iter.entries == table
      modifies `iter, `range, `rows, `ended, `lo, `hi, `output
      ensures Sound() && Running() && !ended && (old(range).Some? ==> range == old(range))
      ensures Remaining() == Output() == old(Output())
      ensures if old(iter) != null then iter == old(iter) else fresh(iter)
    {
      if iter == null {
        iter := new LevelDBIterator(table);
      }
      EnsureRange();
      StartRun();
      assert output[rows..] == output;
    }

    method StartRun()
      requires Sound() && range.Some? && iter != null && iter.entries == table
      modifies `rows, `ended, `lo, `hi, `output
      ensures Running() && !ended && rows == 0 && output == Output()
    {
      Bounds(types, range.value, table);
      rows, ended := 0, false;
      lo, hi := LoFrom(range.value, table, 0), HiFrom(range.value, table, 0);
      output := ScanOutput(range.value, table, order);
    }

    /** Delivers the next row of the output, or reports that there is none. */
    method Next() returns (ok: bool)
      requires Running() && !ended
      modifies `rows, `current, `ended, iter`pos
      ensures Running() && ended == !ok
      ensures ok == (old(Remaining()) != [])
      ensures ok ==> current == old(Remaining())[0] && Remaining() == old(Remaining())[1..]
    {
      hide ValidTable, LoFrom, HiFrom, ScanOutput, Range.Valid, LexCompare;
      RunStep(types, range.value, table, order, lo, hi, output, rows);
      MoveCursor();
      ended := true;
      if !iter.Valid() {
        return false;
      }
      current := iter.entries[iter.pos];
      if order == Descend {
        if !range.value.AtOrAfterStart(current.key) {
          return false;
        }
      } else if !range.value.AtOrBeforeEnd(current.key) {
        return false;
      }
      rows, ended := rows + 1, false;
      return true;
    }

    /** To the first row in the direction of the scan, or one row on. */
    method MoveCursor()
      requires Running() && !ended
      modifies iter`pos
      ensures iter.pos == Position(order, lo, hi, rows)
    {
      Bounds(types, range.value, table);
      if order == Descend {
        if rows == 0 {
          SeekStartReversed(types, range.value, iter, lo, hi);
        } else {
          iter.Prev();
        }
      } else {
        if rows == 0 {
          SeekStart(types, range.value, iter, lo, hi);
        } else {
          iter.Next();
        }
      }
    }

    method EnsureSortOrder(index: nat, column: nat, requested: SortOrder) returns (ok: bool)
      modifies `order
      ensures (ok, order) == ScanEnsures(|types|, old(order), index, column, requested)
    {
      if column >= |types| || column != index {
        return false;
      }
      if requested == Any {
        return true;
      }
      if order == Any {
        order := requested;
      }
      return order == requested;
    }
  }

  /** What a scan answers to a sort request, and the direction it has afterwards. */
  function ScanEnsures(keys: nat, order: SortOrder, index: nat, column: nat, requested: SortOrder): (bool, SortOrder) {
    if column >= keys || column != index then (false, order)
    else if requested == Any then (true, order)
    else
      var now := if order == Any then requested else order;
      (now == requested, now)
  }

  lemma FullRangeIsValid(types: seq<ColType>)
    ensures FullRange(types).Valid(types)
  {
  }

  /** A scan without a predicate delivers the whole table. */
  lemma FullRangeHitsAll(types: seq<ColType>, es: seq<Entry>)
    requires ValidTable(types, es)
    ensures Keyed(FullRange(types), es) && Hits(FullRange(types), es) == es
  {
    var picks := PicksOf(|types|, []);
    PicksFit(types, []);
    RangeIsValid(types, picks);
    HitsAreTheRowsInRange(types, FullRange(types), es);
    forall i | 0 <= i < |es| ensures InRange(FullRange(types))(es[i]) {
      RangeMeaning(types, picks, es[i].key);
    }
    FilterAll(es, InRange(FullRange(types)));
  }
}
