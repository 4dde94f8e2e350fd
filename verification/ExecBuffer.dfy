/** Bump allocation of row buffers in fixed-size blocks (execution/ExecutionBuffer.cpp). */
module ExecBuffer {
  import opened Values
  import opened RowCodec

  const BLOCK_SIZE: nat := 512 * 1024

  /** A stretch of bytes inside one block: what a pointer and a size denote. */
  datatype Span = Span(block: nat, offset: nat, size: nat)

  predicate Disjoint(a: Span, b: Span) {
    a.block != b.block || a.offset + a.size <= b.offset || b.offset + b.size <= a.offset
  }

  function TotalSize(spans: seq<Span>): nat {
    if spans == [] then 0 else TotalSize(spans[..|spans| - 1]) + spans[|spans| - 1].size
  }

  /** The spans lie inside one block each, before `blockUsed` in the current one, apart from one another. */
  ghost predicate Laid(spans: seq<Span>, currentBlock: nat, blockUsed: nat) {
    && (forall i :: 0 <= i < |spans| ==>
          && spans[i].block <= currentBlock
          && spans[i].offset + spans[i].size <= (if spans[i].block == currentBlock then blockUsed else BLOCK_SIZE))
    && forall i, j :: 0 <= i < j < |spans| ==> Disjoint(spans[i], spans[j])
  }

  /** One more span, behind the others in the current block or at the start of a new one. */
  lemma OneMoreSpan(spans: seq<Span>, currentBlock: nat, blockUsed: nat, size: nat)
    requires Laid(spans, currentBlock, blockUsed) && blockUsed <= BLOCK_SIZE && size <= BLOCK_SIZE
    ensures TotalSize(spans + [Span(currentBlock, blockUsed, size)]) == TotalSize(spans) + size
    ensures TotalSize(spans + [Span(currentBlock + 1, 0, size)]) == TotalSize(spans) + size
    ensures Laid(spans + [Span(currentBlock, blockUsed, size)], currentBlock, blockUsed + size)
    ensures Laid(spans + [Span(currentBlock + 1, 0, size)], currentBlock + 1, size)
  {
    assert (spans + [Span(currentBlock, blockUsed, size)])[..|spans|] == spans;
    assert (spans + [Span(currentBlock + 1, 0, size)])[..|spans|] == spans;
  }

  /** The pool of blocks; it may run dry. */
  class GlobalMemBlockPool {
    var left: nat

    constructor (left: nat)
      ensures this.left == left
    {
      this.left := left;
    }

    method Alloc() returns (block: array?<Byte>)
      modifies this
      ensures block == null <==> old(left) == 0
      ensures block == null ==> left == 0
      ensures block != null ==> fresh(block) && block.Length == BLOCK_SIZE
    {
      if left == 0 {
        return null;
      }
      left := left - 1;
      block := new Byte[BLOCK_SIZE](_ => 0);
    }
  }

  class ExecutionBuffer {
    const total: nat
    var bufferBlocks: seq<array<Byte>>
    var used: nat
    var blockUsed: nat
    var currentBlock: nat
    /** The spans handed out so far. */
    ghost var spans: seq<Span>

    constructor (total: nat)
      ensures Valid() && spans == [] && bufferBlocks == [] && this.total == total
    {
      this.total := total;
      bufferBlocks, used, blockUsed, currentBlock, spans := [], 0, 0, 0, [];
    }

    /** Every block has the size of the pool's blocks, and no block is there twice. */
    predicate BlocksDistinct()
      reads `bufferBlocks
    {
      && (forall i :: 0 <= i < |bufferBlocks| ==> bufferBlocks[i].Length == BLOCK_SIZE)
      && (forall i, j :: 0 <= i < j < |bufferBlocks| ==> bufferBlocks[i] != bufferBlocks[j])
    }

    /** A span lies inside a block of the buffer. */
    predicate Inside(span: Span)
      reads `bufferBlocks
    {
      span.block < |bufferBlocks| && span.offset + span.size <= BLOCK_SIZE
    }

    /** Spans lie inside one block each, apart from one another, within the total budget. */
    ghost predicate Valid()
      reads this
      ensures Valid() ==> BlocksDistinct() && forall i :: 0 <= i < |spans| ==> Inside(spans[i])
    {
      && BlocksDistinct()
      && blockUsed <= BLOCK_SIZE
      && (if bufferBlocks == [] then currentBlock == 0 && blockUsed == 0 else currentBlock == |bufferBlocks| - 1)
      && TotalSize(spans) == used <= total
      && (bufferBlocks == [] ==> spans == [])
      && Laid(spans, currentBlock, blockUsed)
    }

    /** The bytes of a span. */
    function Bytes(span: Span): seq<Byte>
      requires BlocksDistinct() && Inside(span)
      reads this, bufferBlocks
    {
      bufferBlocks[span.block][span.offset..span.offset + span.size]
    }

    /**
     * A fresh stretch of `size` bytes inside one block, or false when the request is too large
     * or the budget or the pool is exhausted; nothing is claimed about the buffer after that.
     */
    method DoAlloc(size: nat, pool: GlobalMemBlockPool) returns (ok: bool, span: Span)
      requires Valid()
      modifies this, pool
      ensures ok ==> Valid() && span.size == size && spans == old(spans) + [span] && used == old(used) + size
      ensures ok ==> span == if old(blockUsed) + size <= BLOCK_SIZE then Span(old(currentBlock), old(blockUsed), size)
                             else Span(old(currentBlock) + 1, 0, size)
      ensures ok ==> old(bufferBlocks) <= bufferBlocks
      ensures forall i :: |old(bufferBlocks)| <= i < |bufferBlocks| ==> fresh(bufferBlocks[i])
      ensures size > BLOCK_SIZE || old(used) + size > total ==> !ok
      ensures !ok ==> size > BLOCK_SIZE || old(used) + size > total || pool.left == 0
    {
      hide Laid, TotalSize;
      span := Span(0, 0, 0);
      if size > BLOCK_SIZE {
        return false, span;
      }
      OneMoreSpan(spans, currentBlock, blockUsed, size);
      used := used + size;
      if used > total {
        return false, span;
      }
      blockUsed := blockUsed + size;
      if blockUsed > BLOCK_SIZE {
        currentBlock := currentBlock + 1;
        blockUsed := size;
      }
      if currentBlock == |bufferBlocks| {
        var block := pool.Alloc();
        if block == null {
          return false, span;
        }
        bufferBlocks := bufferBlocks + [block];
      }
      span := Span(currentBlock, blockUsed - size, size);
      spans := spans + [span];
      return true, span;
    }

    /** Writes the row into a fresh span; all earlier spans keep their bytes. */
    method CopyRow(types: seq<ColType>, row: seq<Value>, pool: GlobalMemBlockPool) returns (ok: bool, span: Span)
      requires Valid() && FitsRow(types, row)
      modifies this, pool, bufferBlocks
      ensures forall i :: |old(bufferBlocks)| <= i < |bufferBlocks| ==> fresh(bufferBlocks[i])
      ensures ok ==> Valid() && spans == old(spans) + [span] && old(bufferBlocks) <= bufferBlocks
      ensures ok ==> used == old(used) + |EncodeRow(types, row)| && Bytes(span) == EncodeRow(types, row)
      ensures !ok ==>
                || |EncodeRow(types, row)| > BLOCK_SIZE
                || old(used) + |EncodeRow(types, row)| > total
                || pool.left == 0
      ensures ok ==> forall i :: 0 <= i < |old(spans)| ==> Bytes(spans[i]) == old(Bytes(spans[i]))
    {
      var rowSize := ComputeSize(types, row);
      ok, span := DoAlloc(rowSize, pool);
      if !ok {
        return;
      }
      var block := bufferBlocks[span.block];
      ghost var was := block[..];
      Copy(types, row, block, span.offset);
      assert block[..] == Overwritten(was, span.offset, EncodeRow(types, row));
      forall i | 0 <= i < |old(spans)| ensures Bytes(spans[i]) == old(Bytes(spans[i])) {
        Untouched(was, span, EncodeRow(types, row), spans[i]);
      }
    }
  }

  lemma Untouched(block: seq<Byte>, span: Span, bs: seq<Byte>, other: Span)
    requires |bs| == span.size && span.offset + span.size <= |block| && other.offset + other.size <= |block|
    requires Disjoint(other, span)
    ensures other.block == span.block ==>
              Overwritten(block, span.offset, bs)[other.offset..other.offset + other.size] ==
              block[other.offset..other.offset + other.size]
  {
  }
}
