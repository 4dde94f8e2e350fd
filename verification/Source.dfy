/** Rows, and a child plan that delivers them by the begin/next protocol of execution/ExecutionPlan.h. */
module Source {
  import opened Values

  type Row = seq<Value>

  /** A column of a row; the columns that a plan names exist. */
  function At(row: Row, index: nat): Value {
    if index < |row| then row[index] else MaxString
  }

  /** A child plan that delivers given rows. */
  class RowSource {
    const rows: seq<Row>
    var pos: nat

    constructor (rows: seq<Row>)
      ensures this.rows == rows && pos == 0
    {
      this.rows, pos := rows, 0;
    }

    method Begin()
      modifies `pos
      ensures pos == 0
    {
      pos := 0;
    }

    method Next() returns (ok: bool)
      requires pos <= |rows|
      modifies `pos
      ensures ok == (old(pos) < |rows|) && pos == if ok then old(pos) + 1 else old(pos)
    {
      ok := pos < |rows|;
      if ok {
        pos := pos + 1;
      }
    }

    /** The row that the last successful `next` delivered. */
    function Current(): Row
      requires 0 < pos <= |rows|
      reads `pos
    {
      rows[pos - 1]
    }
  }
}
