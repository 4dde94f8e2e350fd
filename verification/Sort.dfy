/** Sorting the rows of a child plan in a row buffer (execution/SortPlan.cpp). */
module Sort {
  import opened Seqs
  import opened Values
  import opened RowCodec
  import opened ExecBuffer
  import opened Source
  import opened Scan
  import StdSort

  const SORT_BUFFER_SIZE: nat := 64 * 1024 * 1024

  /** One ORDER BY item: a column of the projected rows and a direction; Any counts as Ascend. */
  datatype SortSpec = SortSpec(index: nat, order: SortOrder)

  /** The first item in which the rows differ decides, in its direction. */
  predicate Precedes(specs: seq<SortSpec>, a: Row, b: Row) {
    if specs == [] then false
    else
      var n := Compare(At(a, specs[0].index), At(b, specs[0].index));
      if n == 0 then Precedes(specs[1..], a, b)
      else if specs[0].order == Descend then n > 0
      else n < 0
  }

  /** The rows agree on the items before `k`, and there `a` comes first, from below or, descending, from above. */
  predicate FirstAt(specs: seq<SortSpec>, a: Row, b: Row, k: nat)
    requires k < |specs|
  {
    var (x, y) := (At(a, specs[k].index), At(b, specs[k].index));
    && (forall j :: 0 <= j < k ==> At(a, specs[j].index) == At(b, specs[j].index))
    && if specs[k].order == Descend then Compare(y, x) < 0 else Compare(x, y) < 0
  }

  lemma FirstAtNext(specs: seq<SortSpec>, a: Row, b: Row, k: nat)
    requires k + 1 < |specs|
    ensures FirstAt(specs, a, b, k + 1) <==>
            At(a, specs[0].index) == At(b, specs[0].index) && FirstAt(specs[1..], a, b, k)
  {
    var rest := specs[1..];
    assert forall j :: 0 <= j < k ==> rest[j] == specs[j + 1];
    assert forall j :: 0 < j < k + 1 ==> specs[j] == rest[j - 1];
  }

  /** One row precedes another exactly when it comes first at the first item in which they differ. */
  lemma {:induction false} PrecedesExactly(specs: seq<SortSpec>, a: Row, b: Row)
    ensures Precedes(specs, a, b) <==> exists k :: 0 <= k < |specs| && FirstAt(specs, a, b, k)
  {
    if specs != [] {
      PrecedesExactly(specs[1..], a, b);
      CompareOrder(At(a, specs[0].index), At(b, specs[0].index));
      if Precedes(specs, a, b) {
        if At(a, specs[0].index) == At(b, specs[0].index) {
          var k :| 0 <= k < |specs[1..]| && FirstAt(specs[1..], a, b, k);
          FirstAtNext(specs, a, b, k);
        } else {
          assert FirstAt(specs, a, b, 0);
        }
      }
      if k :| 0 <= k < |specs| && FirstAt(specs, a, b, k) {
        if k > 0 {
          FirstAtNext(specs, a, b, k - 1);
        }
      }
    }
  }

  /** A strict weak order on rows: never both ways round, and not-before is transitive. */
  lemma {:induction false} PrecedesIsWeakOrder(specs: seq<SortSpec>, a: Row, b: Row, c: Row)
    ensures !(Precedes(specs, a, b) && Precedes(specs, b, a))
    ensures !Precedes(specs, a, b) && !Precedes(specs, b, c) ==> !Precedes(specs, a, c)
  {
    if specs != [] {
      var (x, y, z) := (At(a, specs[0].index), At(b, specs[0].index), At(c, specs[0].index));
      CompareOrder(x, y);
      CompareOrder(y, z);
      CompareOrder(x, z);
      if Compare(x, y) >= 0 && Compare(y, z) >= 0 {
        CompareTransitive(z, y, x);
      }
      if Compare(x, y) <= 0 && Compare(y, z) <= 0 {
        CompareTransitive(x, y, z);
      }
      PrecedesIsWeakOrder(specs[1..], a, b, c);
    }
  }

  ghost predicate SortedRows(specs: seq<SortSpec>, rows: seq<Row>) {
    forall i, j :: 0 <= i < j < |rows| ==> !Precedes(specs, rows[j], rows[i])
  }

  /** What a sort answers to a sort request, and its items afterwards. */
  function SortEnsures(specs: seq<SortSpec>, index: nat, column: nat, requested: SortOrder): (bool, seq<SortSpec>) {
    if index >= |specs| || specs[index].index != column then (false, specs)
    else if requested == Any then (true, specs)
    else if specs[index].order == Any then (true, specs[index := SortSpec(column, requested)])
    else (specs[index].order == requested, specs)
  }

  function Project(row: Row, proj: seq<nat>): Row {
    seq(|proj|, i requires 0 <= i < |proj| => At(row, proj[i]))
  }

  /** The comparator of `begin` on buffered rows, column by column from the bytes. */
  predicate PrecedesEncoded(types: seq<ColType>, specs: seq<SortSpec>, a: seq<Byte>, b: seq<Byte>) {
    if specs == [] || specs[0].index >= |types| then false
    else
      match (ReadColumn(types, a, specs[0].index), ReadColumn(types, b, specs[0].index))
      case (Some(x), Some(y)) =>
        var n := Compare(x, y);
        if n == 0 then PrecedesEncoded(types, specs[1..], a, b)
        else if specs[0].order == Descend then n > 0
        else n < 0
      case _ => false
  }

  /** On encoded rows the comparator of the bytes is the order of the rows. */
  lemma {:induction false} EncodedOrder(types: seq<ColType>, specs: seq<SortSpec>, a: Row, b: Row)
    requires FitsRow(types, a) && SafeRow(a) && FitsRow(types, b) && SafeRow(b)
    requires forall s :: s in specs ==> s.index < |types|
    ensures PrecedesEncoded(types, specs, EncodeRow(types, a), EncodeRow(types, b)) == Precedes(specs, a, b)
  {
    if specs != [] {
      RowRoundTrip(types, a);
      RowRoundTrip(types, b);
      ColumnOfDecodedRow(types, EncodeRow(types, a), specs[0].index);
      ColumnOfDecodedRow(types, EncodeRow(types, b), specs[0].index);
      EncodedOrder(types, specs[1..], a, b);
    }
  }

  /** The rows that a sort plan buffers can be encoded and read back. */
  predicate Bufferable(types: seq<ColType>, rows: seq<Row>) {
    forall i :: 0 <= i < |rows| ==> FitsRow(types, rows[i]) && SafeRow(rows[i])
  }

  function Projected(rows: seq<Row>, proj: seq<nat>): seq<Row> {
    seq(|rows|, i requires 0 <= i < |rows| => Project(rows[i], proj))
  }

  /** The bytes that buffering the rows takes. */
  function TotalBytes(types: seq<ColType>, rows: seq<Row>): nat
    requires Bufferable(types, rows)
  {
    if rows == [] then 0
    else TotalBytes(types, rows[..|rows| - 1]) + |EncodeRow(types, rows[|rows| - 1])|
  }

  lemma {:induction false} TotalOfPrefix(types: seq<ColType>, rows: seq<Row>, n: nat)
    requires Bufferable(types, rows) && n <= |rows|
    ensures TotalBytes(types, rows[..n]) <= TotalBytes(types, rows)
    decreases |rows|
  {
    if n < |rows| {
      assert rows[..|rows| - 1][..n] == rows[..n];
      TotalOfPrefix(types, rows[..|rows| - 1], n);
    } else {
      assert rows[..n] == rows;
    }
  }

  /** The rows fit the blocks one by one and the budget together. */
  predicate FitsBudget(types: seq<ColType>, rows: seq<Row>)
    requires Bufferable(types, rows)
  {
    && (forall i :: 0 <= i < |rows| ==> |EncodeRow(types, rows[i])| <= BLOCK_SIZE)
    && TotalBytes(types, rows) <= SORT_BUFFER_SIZE
  }

  /** The comparator over the encoded rows `images`. */
  function LessOf(types: seq<ColType>, specs: seq<SortSpec>, images: seq<seq<Byte>>): (nat, nat) -> bool {
    (a: nat, b: nat) => a < |images| && b < |images| && PrecedesEncoded(types, specs, images[a], images[b])
  }

  /** The images are the encoded rows. */
  ghost predicate Encodes(types: seq<ColType>, images: seq<seq<Byte>>, content: seq<Row>) {
    && Bufferable(types, content) && |images| == |content|
    && forall i :: 0 <= i < |images| ==> images[i] == EncodeRow(types, content[i])
  }

  /** std::sort may be used: over encoded rows the comparator is a strict weak order. */
  lemma EncodedWeakOrder(types: seq<ColType>, specs: seq<SortSpec>, images: seq<seq<Byte>>, content: seq<Row>)
    requires Encodes(types, images, content) && forall s :: s in specs ==> s.index < |types|
    ensures StdSort.StrictWeakOrder(LessOf(types, specs, images), |images|)
    ensures forall a: nat, b: nat :: a < |images| && b < |images| ==>
              LessOf(types, specs, images)(a, b) == Precedes(specs, content[a], content[b])
  {
    var less := LessOf(types, specs, images);
    forall a: nat, b: nat | a < |images| && b < |images| ensures less(a, b) == Precedes(specs, content[a], content[b]) {
      EncodedOrder(types, specs, content[a], content[b]);
    }
    forall a: nat, b: nat, c: nat | a < |images| && b < |images| && c < |images|
      ensures !(less(a, b) && less(b, a))
      ensures !less(a, b) && !less(b, c) ==> !less(a, c)
    {
      PrecedesIsWeakOrder(specs, content[a], content[b], content[c]);
    }
  }

  lemma SortedByMeansSorted(specs: seq<SortSpec>, content: seq<Row>, less: (nat, nat) -> bool, perm: seq<nat>)
    requires StdSort.IsPermutation(perm, |content|) && StdSort.SortedBy(less, perm)
    requires forall a: nat, b: nat :: a < |content| && b < |content| ==>
               less(a, b) == Precedes(specs, content[a], content[b])
    ensures SortedRows(specs, StdSort.Permuted(content, perm))
  {
  }

  class SortPlan {
    const child: RowSource
    const types: seq<ColType>
    const proj: seq<nat>
    var specs: seq<SortSpec>
    const buffer: ExecutionBuffer
    var rows: seq<Span>
    var current: nat

    constructor (child: RowSource, types: seq<ColType>, proj: seq<nat>, specs: seq<SortSpec>)
      ensures this.child == child && this.types == types && this.proj == proj && this.specs == specs
      ensures rows == [] && current == 0
      ensures fresh(buffer) && buffer.Valid() && buffer.spans == [] && buffer.bufferBlocks == []
      ensures buffer.total == SORT_BUFFER_SIZE
    {
      this.child, this.types, this.proj, this.specs := child, types, proj, specs;
      buffer := new ExecutionBuffer(SORT_BUFFER_SIZE);
      rows, current := [], 0;
    }

    /** The rows in the buffer, in the order of `rows`, are these. */
    ghost predicate Holds(content: seq<Row>)
      reads `rows, buffer, buffer.bufferBlocks
    {
      && buffer.Valid() && |rows| == |content| && Bufferable(types, content)
      && forall i :: 0 <= i < |rows| ==> buffer.Inside(rows[i]) && buffer.Bytes(rows[i]) == EncodeRow(types, content[i])
    }

    /**
     * Buffers the projected rows of the child and sorts them: the rows held are a permutation
     * of them, sorted. False stands for the error of an exhausted buffer.
     */
    method Begin(pool: GlobalMemBlockPool) returns (ok: bool, ghost perm: seq<nat>)
      requires buffer.Valid() && buffer.spans == [] && buffer.bufferBlocks == [] && buffer.total == SORT_BUFFER_SIZE
      requires rows == [] && Bufferable(types, Projected(child.rows, proj))
      requires forall s :: s in specs ==> s.index < |types|
      modifies `rows, `current, buffer, child, pool
      ensures ok ==> StdSort.IsPermutation(perm, |child.rows|)
      ensures ok ==> current == 0 && Holds(StdSort.Permuted(Projected(child.rows, proj), perm))
      ensures ok ==> SortedRows(specs, StdSort.Permuted(Projected(child.rows, proj), perm))
      ensures !ok ==> pool.left == 0 || !FitsBudget(types, Projected(child.rows, proj))
    {
      perm := [];
      ok := BufferRows(pool);
      if ok {
        perm := SortRows(Projected(child.rows, proj));
      }
    }

    /** The loop of `begin` over the child's rows. */
    method BufferRows(pool: GlobalMemBlockPool) returns (ok: bool)
      requires buffer.Valid() && buffer.spans == [] && buffer.bufferBlocks == [] && buffer.total == SORT_BUFFER_SIZE
      requires rows == [] && Bufferable(types, Projected(child.rows, proj))
      modifies `rows, buffer, child, pool
      ensures ok ==> Holds(Projected(child.rows, proj))
      ensures !ok ==> pool.left == 0 || !FitsBudget(types, Projected(child.rows, proj))
    {
      hide EncodeRow, Laid, ExecutionBuffer.BlocksDistinct, SafeRow, FitsRow;
      ghost var content := Projected(child.rows, proj);
      child.Begin();
      var more := child.Next();
      while more
        invariant child.pos <= |child.rows| && |rows| == (if more then child.pos - 1 else child.pos)
        invariant !more ==> child.pos == |child.rows|
        invariant fresh(buffer.bufferBlocks) && buffer.spans == rows
        invariant Holds(content[..|rows|]) && buffer.used == TotalBytes(types, content[..|rows|])
        decreases |child.rows| - |rows|
      {
        ok := BufferRow(child.Current(), pool, content);
        if !ok {
          return;
        }
        more := child.Next();
      }
      assert content[..|rows|] == content;
      return true;
    }

    /** One row more: the rows buffered before keep their bytes. */
    method BufferRow(row: Row, pool: GlobalMemBlockPool, ghost content: seq<Row>) returns (ok: bool)
      requires Bufferable(types, content) && |rows| < |content| && content[|rows|] == Project(row, proj)
      requires buffer.total == SORT_BUFFER_SIZE
      requires Holds(content[..|rows|]) && buffer.used == TotalBytes(types, content[..|rows|]) && buffer.spans == rows
      modifies `rows, buffer, pool, buffer.bufferBlocks
      ensures forall i :: |old(buffer.bufferBlocks)| <= i < |buffer.bufferBlocks| ==> fresh(buffer.bufferBlocks[i])
      ensures ok ==> old(buffer.bufferBlocks) <= buffer.bufferBlocks && |rows| == |old(rows)| + 1
      ensures ok ==>
                && Holds(content[..|rows|]) && buffer.used == TotalBytes(types, content[..|rows|])
                && buffer.spans == rows
      ensures !ok ==> pool.left == 0 || !FitsBudget(types, content)
    {
      hide TotalSize, Laid, Project, EncodeRow, ExecutionBuffer.BlocksDistinct, SafeRow, FitsRow;
      var results := Project(row, proj);
      ghost var n := |rows|;
      assert content[..n + 1][..n] == content[..n];
      TotalOfPrefix(types, content, n + 1);
      var span;
      ok, span := buffer.CopyRow(types, results, pool);
      if ok {
        rows := rows + [span];
        forall i | 0 <= i < n + 1 ensures buffer.Bytes(buffer.spans[i]) == EncodeRow(types, content[i]) {
          assert i < n ==> buffer.Bytes(buffer.spans[i]) == old(buffer.Bytes(rows[i]));
        }
      }
    }

    method SortRows(ghost content: seq<Row>) returns (perm: seq<nat>)
      requires Holds(content) && forall s :: s in specs ==> s.index < |types|
      modifies `rows, `current
      ensures StdSort.IsPermutation(perm, |content|) && current == 0
      ensures Holds(StdSort.Permuted(content, perm)) && SortedRows(specs, StdSort.Permuted(content, perm))
    {
      hide Encodes, PrecedesEncoded, Precedes;
      var images := Images(content);
      EncodedWeakOrder(types, specs, images, content);
      perm := StdSort.Sort(LessOf(types, specs, images), |rows|);
      SortedByMeansSorted(specs, content, LessOf(types, specs, images), perm);
      Rearrange(perm, content);
      current := 0;
    }

    method Images(ghost content: seq<Row>) returns (images: seq<seq<Byte>>)
      requires Holds(content)
      ensures Encodes(types, images, content) && |images| == |rows| == |content|
    {
      hide EncodeRow, Laid, TotalSize, SafeRow, FitsRow;
      images := [];
      for i := 0 to |rows|
        invariant |images| == i && forall k :: 0 <= k < i ==> images[k] == EncodeRow(types, content[k])
      {
        images := images + [buffer.Bytes(rows[i])];
      }
    }

    method Rearrange(perm: seq<nat>, ghost content: seq<Row>)
      requires Holds(content) && StdSort.IsPermutation(perm, |content|)
      modifies `rows
      ensures Holds(StdSort.Permuted(content, perm))
    {
      rows := StdSort.Permuted(rows, perm);
    }

    /** A request for the column sorted by at this position, upgrading an open direction. */
    method EnsureSortOrder(index: nat, column: nat, requested: SortOrder) returns (ok: bool)
      modifies `specs
      ensures (ok, specs) == SortEnsures(old(specs), index, column, requested)
    {
      if |specs| <= index {
        return false;
      }
      if column != specs[index].index {
        return false;
      }
      if requested == Any {
        return true;
      }
      if specs[index].order == Any {
        specs := specs[index := SortSpec(column, requested)];
      }
      return specs[index].order == requested;
    }

    method Next() returns (ok: bool)
      requires current <= |rows|
      modifies `current
      ensures ok == (old(current) < |rows|) && current == if ok then old(current) + 1 else old(current)
    {
      if current >= |rows| {
        return false;
      }
      current := current + 1;
      return true;
    }

    /** A column of the row delivered last, read from the bytes in the buffer. */
    method GetResult(index: nat, ghost content: seq<Row>) returns (v: Option<Value>)
      requires Holds(content) && 0 < current <= |rows| && index < |types|
      ensures v == Some(content[current - 1][index])
    {
      ghost var row := content[current - 1];
      v := RowCodec.GetResult(types, buffer.Bytes(rows[current - 1]), index);
      RowRoundTrip(types, row);
      ColumnOfDecodedRow(types, EncodeRow(types, row), index);
    }
  }
}
