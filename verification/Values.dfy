/**
 * Column values, their types and the order that the type handlers give them
 * (execution/DBDataTypeHandler.cpp, execution/ExecutionResult.h).
 */
module Values {

  type Byte = b: int | 0 <= b < 256

  datatype ColType = Bool | Int16 | Int32 | Int64 | Date | DateTime | Varchar | Bytes

  /** A column value; averages are reals, and `MaxString` is the marker above every string. */
  datatype Value = IntV(n: int) | RealV(r: real) | StrV(s: seq<Byte>) | MaxString

  predicate IsInt(t: ColType) {
    t != Varchar && t != Bytes
  }

  /** sizeof the integer type behind a column type. */
  function Width(t: ColType): nat
    requires IsInt(t)
  {
    match t
    case Bool => 1
    case Int16 => 2
    case Int32 => 4
    case Int64 | Date | DateTime => 8
  }

  function MinInt(t: ColType): int
    requires IsInt(t)
  {
    match t
    case Bool => 0
    case Int16 => -0x8000
    case Int32 => -0x8000_0000
    case Int64 | Date | DateTime => -0x8000_0000_0000_0000
  }

  function MaxInt(t: ColType): int
    requires IsInt(t)
  {
    match t
    case Bool => 1
    case Int16 => 0x7FFF
    case Int32 => 0x7FFF_FFFF
    case Int64 | Date | DateTime => 0x7FFF_FFFF_FFFF_FFFF
  }

  const MAX_UINT16 := 0xFFFF

  /** Values that a table can hold in a column: `write` rejects all others. */
  predicate Storable(t: ColType, v: Value) {
    if IsInt(t) then v.IntV? && MinInt(t) <= v.n <= MaxInt(t)
    else v.StrV? && |v.s| < MAX_UINT16
  }

  /** Storable values and the marker used at the upper end of ranges. */
  predicate Fits(t: ColType, v: Value) {
    Storable(t, v) || (!IsInt(t) && v.MaxString?)
  }

  function MinValue(t: ColType): (v: Value)
    ensures Storable(t, v)
  {
    if IsInt(t) then IntV(MinInt(t)) else StrV([])
  }

  function MaxValue(t: ColType): (v: Value)
    ensures Fits(t, v)
  {
    if IsInt(t) then IntV(MaxInt(t)) else MaxString
  }

  /** Unsigned byte-wise order, shorter first, as std::string_view::compare; only the sign counts. */
  function CompareBytes(a: seq<Byte>, b: seq<Byte>): (r: int)
    ensures -1 <= r <= 1
  {
    if a == [] then (if b == [] then 0 else -1)
    else if b == [] then 1
    else if a[0] < b[0] then -1
    else if a[0] > b[0] then 1
    else CompareBytes(a[1..], b[1..])
  }

  /**
   * The handlers' `compare`. Integers, reals and strings never meet in a well-typed statement;
   * the value chosen for that case only keeps the function total.
   */
  function Compare(a: Value, b: Value): (r: int)
    ensures -1 <= r <= 1
  {
    match (a, b)
    case (IntV(x), IntV(y)) => if x == y then 0 else if x < y then -1 else 1
    case (RealV(x), RealV(y)) => if x == y then 0 else if x < y then -1 else 1
    case (StrV(x), StrV(y)) => CompareBytes(x, y)
    case (MaxString, MaxString) => 0
    case (IntV(_), _) => -1
    case (_, IntV(_)) => 1
    case (RealV(_), _) => -1
    case (_, RealV(_)) => 1
    case (MaxString, _) => 1
    case (_, MaxString) => -1
  }

  /** First non-zero column comparison of two rows of equal length. */
  function LexCompare(a: seq<Value>, b: seq<Value>): (r: int)
    requires |a| == |b|
    ensures -1 <= r <= 1
  {
    if a == [] then 0
    else
      var n := Compare(a[0], b[0]);
      if n != 0 then n else LexCompare(a[1..], b[1..])
  }

  predicate StorableRow(types: seq<ColType>, row: seq<Value>) {
    |row| == |types| && forall i :: 0 <= i < |row| ==> Storable(types[i], row[i])
  }

  predicate FitsRow(types: seq<ColType>, row: seq<Value>) {
    |row| == |types| && forall i :: 0 <= i < |row| ==> Fits(types[i], row[i])
  }

  // ---------- both comparisons are total orders ----------

  lemma {:induction false} CompareBytesOrder(a: seq<Byte>, b: seq<Byte>)
    ensures CompareBytes(a, b) == -CompareBytes(b, a)
    ensures CompareBytes(a, b) == 0 <==> a == b
  {
    if a != [] && b != [] && a[0] == b[0] {
      CompareBytesOrder(a[1..], b[1..]);
      assert a == [a[0]] + a[1..] && b == [b[0]] + b[1..];
    }
  }

  lemma {:induction false} CompareBytesTransitive(a: seq<Byte>, b: seq<Byte>, c: seq<Byte>)
    requires CompareBytes(a, b) <= 0 && CompareBytes(b, c) <= 0
    ensures CompareBytes(a, c) <= 0
  {
    if a != [] && b != [] && c != [] && a[0] == b[0] == c[0] {
      CompareBytesTransitive(a[1..], b[1..], c[1..]);
    }
  }

  /** A proper prefix comes first, otherwise the first byte in which the strings differ decides. */
  lemma {:induction false} CompareBytesMeaning(a: seq<Byte>, b: seq<Byte>)
    ensures CompareBytes(a, b) < 0 <==>
            || (|a| < |b| && a == b[..|a|])
            || exists i :: 0 <= i < |a| && i < |b| && a[..i] == b[..i] && a[i] < b[i]
  {
    if a == [] || b == [] {
    } else if a[0] != b[0] {
      assert a[..0] == b[..0];
      assert forall i :: 0 < i < |a| && i < |b| && a[..i] == b[..i] ==> a[0] == a[..i][0] == b[..i][0] == b[0];
    } else {
      var (x, y) := (a[1..], b[1..]);
      CompareBytesMeaning(x, y);
      assert a == [a[0]] + x && b == [b[0]] + y;
      assert |a| <= |b| ==> b[..|a|] == [b[0]] + y[..|x|];
      forall i | 0 <= i < |x| && i < |y|
        ensures (a[..i + 1] == b[..i + 1] <==> x[..i] == y[..i]) && a[i + 1] == x[i] && b[i + 1] == y[i]
      {
        assert a[..i + 1] == [a[0]] + x[..i] && b[..i + 1] == [b[0]] + y[..i];
        assert a[..i + 1][1..] == x[..i] && b[..i + 1][1..] == y[..i];
      }
      if i :| 0 <= i < |x| && i < |y| && x[..i] == y[..i] && x[i] < y[i] {
        assert a[i + 1] < b[i + 1] && a[..i + 1] == b[..i + 1];
      }
      if j :| 0 <= j < |a| && j < |b| && a[..j] == b[..j] && a[j] < b[j] {
        assert x[j - 1] < y[j - 1] && x[..j - 1] == y[..j - 1];
      }
    }
  }

  /** Numbers compare as numbers and strings by their first difference; the marker is above all strings. */
  lemma CompareMeaning(a: Value, b: Value)
    ensures a.IntV? && b.IntV? ==> (Compare(a, b) < 0 <==> a.n < b.n)
    ensures a.RealV? && b.RealV? ==> (Compare(a, b) < 0 <==> a.r < b.r)
    ensures a.StrV? && b.StrV? ==>
              (Compare(a, b) < 0 <==>
               || (|a.s| < |b.s| && a.s == b.s[..|a.s|])
               || exists i :: 0 <= i < |a.s| && i < |b.s| && a.s[..i] == b.s[..i] && a.s[i] < b.s[i])
    ensures a.StrV? && b.MaxString? ==> Compare(a, b) < 0
  {
    if a.StrV? && b.StrV? {
      CompareBytesMeaning(a.s, b.s);
    }
  }

  lemma CompareOrder(a: Value, b: Value)
    ensures Compare(a, b) == -Compare(b, a)
    ensures Compare(a, b) == 0 <==> a == b
  {
    if a.StrV? && b.StrV? {
      CompareBytesOrder(a.s, b.s);
    }
  }

  lemma CompareTransitive(a: Value, b: Value, c: Value)
    requires Compare(a, b) <= 0 && Compare(b, c) <= 0
    ensures Compare(a, c) <= 0
  {
    if a.StrV? && b.StrV? && c.StrV? {
      CompareBytesTransitive(a.s, b.s, c.s);
    }
  }

  /** The minimum and the maximum of a type bound its storable values; the string maximum strictly. */
  lemma MinMaxBound(t: ColType, v: Value)
    requires Fits(t, v)
    ensures Compare(MinValue(t), v) <= 0 && Compare(v, MaxValue(t)) <= 0
    ensures Storable(t, v) && !IsInt(t) ==> Compare(v, MaxValue(t)) < 0
  {
  }

  lemma {:induction false} LexOrder(a: seq<Value>, b: seq<Value>)
    requires |a| == |b|
    ensures LexCompare(a, b) == -LexCompare(b, a)
    ensures LexCompare(a, b) == 0 <==> a == b
  {
    if a != [] {
      CompareOrder(a[0], b[0]);
      LexOrder(a[1..], b[1..]);
      assert a == [a[0]] + a[1..] && b == [b[0]] + b[1..];
    }
  }

  lemma {:induction false} LexTransitive(a: seq<Value>, b: seq<Value>, c: seq<Value>)
    requires |a| == |b| == |c|
    requires LexCompare(a, b) <= 0 && LexCompare(b, c) <= 0
    ensures LexCompare(a, c) <= 0
    ensures LexCompare(a, b) < 0 || LexCompare(b, c) < 0 ==> LexCompare(a, c) < 0
  {
    if a != [] {
      CompareTransitive(a[0], b[0], c[0]);
      CompareOrder(a[0], b[0]);
      CompareOrder(b[0], c[0]);
      CompareOrder(a[0], c[0]);
      if a[0] == b[0] == c[0] {
        LexTransitive(a[1..], b[1..], c[1..]);
      }
    }
  }

  /** The first column in which rows differ decides. */
  lemma {:induction false} LexMeaning(a: seq<Value>, b: seq<Value>)
    requires |a| == |b|
    ensures LexCompare(a, b) < 0 <==> exists i :: 0 <= i < |a| && a[..i] == b[..i] && Compare(a[i], b[i]) < 0
  {
    if a != [] {
      var (x, y) := (a[1..], b[1..]);
      LexMeaning(x, y);
      CompareOrder(a[0], b[0]);
      assert a[..0] == b[..0];
      forall i | 0 <= i < |x|
        ensures a[..i + 1] == b[..i + 1] <==> a[0] == b[0] && x[..i] == y[..i]
      {
        assert a[..i + 1] == [a[0]] + x[..i] && b[..i + 1] == [b[0]] + y[..i];
        assert a[..i + 1][1..] == x[..i] && b[..i + 1][1..] == y[..i];
        assert a[..i + 1][0] == a[0] && b[..i + 1][0] == b[0];
      }
      if i :| 0 <= i < |x| && x[..i] == y[..i] && Compare(x[i], y[i]) < 0 {
        assert Compare(a[i + 1], b[i + 1]) < 0;
      }
      if j :| 0 <= j < |a| && a[..j] == b[..j] && Compare(a[j], b[j]) < 0 {
        if j > 0 {
          assert a[..j - 1 + 1] == b[..j - 1 + 1];
          assert x[..j - 1] == y[..j - 1] && Compare(x[j - 1], y[j - 1]) < 0;
        }
      }
    }
  }

  /** Rows that agree on a prefix compare as their suffixes do. */
  lemma {:induction false} LexSamePrefix(a: seq<Value>, b: seq<Value>, n: nat)
    requires n <= |a| == |b|
    requires a[..n] == b[..n]
    ensures LexCompare(a, b) == LexCompare(a[n..], b[n..])
  {
    if n > 0 {
      assert a[0] == a[..n][0] == b[..n][0] == b[0];
      CompareOrder(a[0], b[0]);
      assert a[1..][..n - 1] == a[..n][1..] && b[1..][..n - 1] == b[..n][1..];
      LexSamePrefix(a[1..], b[1..], n - 1);
      assert a[1..][n - 1..] == a[n..] && b[1..][n - 1..] == b[n..];
    } else {
      assert a[0..] == a && b[0..] == b;
    }
  }

  /** Rows that differ on a prefix compare as that prefix does. */
  lemma {:induction false} LexOtherPrefix(a: seq<Value>, b: seq<Value>, n: nat)
    requires n <= |a| == |b|
    requires a[..n] != b[..n]
    ensures LexCompare(a, b) == LexCompare(a[..n], b[..n]) != 0
  {
    LexOrder(a[..n], b[..n]);
    if a[0] == b[0] {
      CompareOrder(a[0], b[0]);
      assert a[..n][1..] == a[1..][..n - 1] && b[..n][1..] == b[1..][..n - 1];
      assert a[..n] == [a[0]] + a[..n][1..] && b[..n] == [b[0]] + b[..n][1..];
      LexOtherPrefix(a[1..], b[1..], n - 1);
    } else {
      CompareOrder(a[0], b[0]);
    }
  }

  lemma {:induction false} LexAboveMin(types: seq<ColType>, row: seq<Value>, low: seq<Value>)
    requires FitsRow(types, row) && |low| == |types|
    requires forall i :: 0 <= i < |low| ==> low[i] == MinValue(types[i])
    ensures LexCompare(low, row) <= 0
  {
    if row != [] {
      MinMaxBound(types[0], row[0]);
      LexAboveMin(types[1..], row[1..], low[1..]);
    }
  }

  lemma {:induction false} LexBelowMax(types: seq<ColType>, row: seq<Value>, high: seq<Value>)
    requires FitsRow(types, row) && |high| == |types|
    requires forall i :: 0 <= i < |high| ==> high[i] == MaxValue(types[i])
    ensures LexCompare(row, high) <= 0
  {
    if row != [] {
      MinMaxBound(types[0], row[0]);
      LexBelowMax(types[1..], row[1..], high[1..]);
    }
  }
}
