/**
 * Rows as bytes: writing, reading, skipping and comparing columns
 * (execution/DataRow.cpp, the integer and string handlers of execution/DBDataTypeHandler.cpp).
 * A pointer into a row is the sequence of bytes from there on. Integers are little-endian.
 */
module RowCodec {
  import opened Seqs
  import opened Values

  function Pow256(n: nat): (p: int)
    ensures p > 0
  {
    if n == 0 then 1 else 256 * Pow256(n - 1)
  }

  function ToBytes(n: nat, width: nat): (bs: seq<Byte>)
    ensures |bs| == width
  {
    if width == 0 then [] else [n % 256] + ToBytes(n / 256, width - 1)
  }

  function FromBytes(bs: seq<Byte>): nat {
    if bs == [] then 0 else bs[0] + 256 * FromBytes(bs[1..])
  }

  lemma {:induction false} BytesRoundTrip(n: nat, width: nat)
    requires n < Pow256(width)
    ensures FromBytes(ToBytes(n, width)) == n
  {
    if width > 0 {
      BytesRoundTrip(n / 256, width - 1);
      assert ToBytes(n, width)[1..] == ToBytes(n / 256, width - 1);
    }
  }

  /** The integer types in two's complement. */
  function EncodeInt(n: int, width: nat): seq<Byte>
    requires -Pow256(width) <= n
  {
    ToBytes(if n < 0 then n + Pow256(width) else n, width)
  }

  function DecodeInt(bs: seq<Byte>): int {
    var n := FromBytes(bs);
    if 2 * n >= Pow256(|bs|) then n - Pow256(|bs|) else n
  }

  lemma DigitsInTwo(a: int, b: int, k: int, s: int, r: int)
    requires 0 <= r < a && 0 <= s < b
    ensures a * (b * k + s) + r == (a * b) * k + (a * s + r) && 0 <= a * s + r < a * b
  {
    assert a * s <= a * (b - 1);
  }

  lemma DivideTwice(n: int, a: int, b: int)
    requires a > 0 && b > 0
    ensures a * b > 0 && n / a / b == n / (a * b)
  {
    var (q, r) := (n / a, n % a);
    var (k, s) := (q / b, q % b);
    DigitsInTwo(a, b, k, s, r);
    QuotientIs(n, a * b, k, a * s + r);
  }

  lemma QuotientIs(n: int, d: int, q: int, r: int)
    requires d > 0 && n == d * q + r && 0 <= r < d
    ensures n / d == q
  {
    var (k, s) := (n / d, n % d);
    assert d * (k - q) == r - s && -d < r - s < d;
    assert k - q >= 1 ==> d * (k - q) >= d;
    assert k - q <= -1 ==> d * (k - q) <= -d;
  }

  lemma {:induction false} ByteOf(n: nat, width: nat, i: nat)
    requires i < width
    ensures ToBytes(n, width)[i] == n / Pow256(i) % 256
  {
    if i > 0 {
      ByteOf(n / 256, width - 1, i - 1);
      DivideTwice(n, 256, Pow256(i - 1));
    }
  }

  lemma {:induction false} PowerOfSum(a: nat, b: nat)
    ensures Pow256(a + b) == Pow256(a) * Pow256(b)
  {
    if a > 0 {
      PowerOfSum(a - 1, b);
    }
  }

  lemma SameDigit(n: int, p: int, m: int)
    requires p > 0
    ensures (n + p * (256 * m)) / p % 256 == n / p % 256
  {
    var (q, r) := (n / p, n % p);
    assert n + p * (256 * m) == p * (q + 256 * m) + r by {
      assert p * (q + 256 * m) == p * q + p * (256 * m);
    }
    QuotientIs(n + p * (256 * m), p, q + 256 * m, r);
  }

  /** Byte `i` of an integer, negative ones included: the `i`th digit to the base of 256, the lowest first. */
  lemma EncodedByte(n: int, width: nat, i: nat)
    requires -Pow256(width) <= n && i < width
    ensures |EncodeInt(n, width)| == width && EncodeInt(n, width)[i] == n / Pow256(i) % 256
  {
    ByteOf(if n < 0 then n + Pow256(width) else n, width, i);
    PowerOfSum(i, 1 + (width - i - 1));
    assert Pow256(width) == Pow256(i) * (256 * Pow256(width - i - 1));
    SameDigit(n, Pow256(i), Pow256(width - i - 1));
  }

  /** The limits of an integer type are those of its width; a boolean is 0 or 1. */
  lemma ExactLimits(t: ColType)
    requires IsInt(t) && t != Bool
    ensures 2 * MinInt(t) == -Pow256(Width(t)) && 2 * MaxInt(t) + 2 == Pow256(Width(t))
  {
    assert Pow256(1) == 256;
    assert Pow256(2) == 0x1_0000;
    assert Pow256(4) == 0x1_0000 * Pow256(2);
    assert Pow256(6) == 0x1_0000 * Pow256(4);
    assert Pow256(8) == 0x1_0000 * Pow256(6);
  }

  lemma IntLimits(t: ColType)
    requires IsInt(t)
    ensures -Pow256(Width(t)) <= 2 * MinInt(t) && 2 * MaxInt(t) < Pow256(Width(t))
  {
    if t == Bool {
      assert Pow256(1) == 256;
    } else {
      ExactLimits(t);
    }
  }

  lemma IntRoundTrip(t: ColType, n: int)
    requires IsInt(t) && MinInt(t) <= n <= MaxInt(t)
    ensures -Pow256(Width(t)) <= n && DecodeInt(EncodeInt(n, Width(t))) == n
  {
    IntLimits(t);
    BytesRoundTrip(if n < 0 then n + Pow256(Width(t)) else n, Width(t));
  }

  // ---------- one column ----------

  /** `write`, for the values that it does not reject. */
  function EncodeValue(t: ColType, v: Value): seq<Byte>
    requires Fits(t, v)
  {
    if IsInt(t) then IntLimits(t); EncodeInt(v.n, Width(t))
    else if v.MaxString? then ToBytes(MAX_UINT16, 2)
    else ToBytes(|v.s|, 2) + v.s
  }

  /** `getSize` of a value. */
  function ValueSize(t: ColType, v: Value): nat
    requires Fits(t, v)
  {
    if IsInt(t) then Width(t) else if v.MaxString? then 2 else |v.s| + 2
  }

  /** `getSize` of the bytes at a pointer: the marker is looked for after adding 2 to the length. */
  function ByteSize(t: ColType, bs: seq<Byte>): nat
    requires |bs| >= if IsInt(t) then Width(t) else 2
  {
    if IsInt(t) then Width(t)
    else
      var size := FromBytes(bs[..2]) + 2;
      if size == MAX_UINT16 then 2 else size
  }

  /** The bytes that `read` touches are there. */
  predicate Readable(t: ColType, bs: seq<Byte>) {
    if IsInt(t) then |bs| >= Width(t)
    else |bs| >= 2 && (FromBytes(bs[..2]) == MAX_UINT16 || |bs| >= 2 + FromBytes(bs[..2]))
  }

  function ReadValue(t: ColType, bs: seq<Byte>): Value
    requires Readable(t, bs)
  {
    if IsInt(t) then IntV(DecodeInt(bs[..Width(t)]))
    else
      var size := FromBytes(bs[..2]);
      if size == MAX_UINT16 then MaxString else StrV(bs[2..2 + size])
  }

  lemma ReadBack(t: ColType, v: Value, rest: seq<Byte>)
    requires Fits(t, v)
    ensures |EncodeValue(t, v)| == ValueSize(t, v)
    ensures Readable(t, EncodeValue(t, v) + rest) && ReadValue(t, EncodeValue(t, v) + rest) == v
  {
    var bs := EncodeValue(t, v) + rest;
    if IsInt(t) {
      IntRoundTrip(t, v.n);
      assert bs[..Width(t)] == EncodeValue(t, v);
    } else {
      var size := if v.MaxString? then MAX_UINT16 else |v.s|;
      assert Pow256(2) == 0x1_0000;
      BytesRoundTrip(size, 2);
      assert bs[..2] == ToBytes(size, 2);
      if v.StrV? {
        assert bs[2..2 + size] == v.s;
      }
    }
  }

  lemma {:induction false} BytesInRange(bs: seq<Byte>)
    ensures FromBytes(bs) < Pow256(|bs|)
  {
    if bs != [] {
      BytesInRange(bs[1..]);
    }
  }

  /** Whatever bytes there are, what is read from them is a value of the type or the marker; booleans are 0 or 1. */
  lemma ReadFits(t: ColType, bs: seq<Byte>)
    requires Readable(t, bs)
    ensures Fits(t, ReadValue(t, bs)) <==> t != Bool || bs[0] in {0, 1}
  {
    if t == Bool {
      assert Pow256(1) == 256 && bs[..1][1..] == [];
      assert FromBytes(bs[..1]) == bs[0];
    } else if IsInt(t) {
      BytesInRange(bs[..Width(t)]);
      ExactLimits(t);
    } else {
      assert Pow256(2) == 0x1_0000;
      BytesInRange(bs[..2]);
    }
  }

  /** A string is its length in two bytes, the lower one first, and its text; the marker is the length 65535. */
  lemma EncodedText(t: ColType, v: Value)
    requires Fits(t, v) && !IsInt(t)
    ensures v.StrV? ==> EncodeValue(t, v) == [|v.s| % 256, |v.s| / 256] + v.s
    ensures v.MaxString? ==> EncodeValue(t, v) == [255, 255]
  {
    var size := if v.MaxString? then MAX_UINT16 else |v.s|;
    assert ToBytes(size, 2) == [size % 256] + ToBytes(size / 256, 1);
    assert ToBytes(size / 256, 1) == [size / 256 % 256] + ToBytes(size / 256 / 256, 0);
  }

  /** Columns that another column may follow: no marker, and no string of 65533 bytes. */
  predicate Skippable(v: Value) {
    !v.MaxString? && (v.StrV? ==> |v.s| != MAX_UINT16 - 2)
  }

  /** The size found in the bytes is the size written exactly for skippable columns. */
  lemma SkipExactly(t: ColType, v: Value, rest: seq<Byte>)
    requires Fits(t, v)
    ensures |EncodeValue(t, v)| >= if IsInt(t) then Width(t) else 2
    ensures ByteSize(t, EncodeValue(t, v) + rest) == |EncodeValue(t, v)| <==> Skippable(v)
  {
    ReadBack(t, v, rest);
    var bs := EncodeValue(t, v) + rest;
    if !IsInt(t) {
      var size := if v.MaxString? then MAX_UINT16 else |v.s|;
      assert Pow256(2) == 0x1_0000;
      BytesRoundTrip(size, 2);
      assert bs[..2] == ToBytes(size, 2);
    }
  }

  // ---------- rows ----------

  function EncodeRow(types: seq<ColType>, row: seq<Value>): seq<Byte>
    requires FitsRow(types, row)
  {
    if row == [] then [] else EncodeValue(types[0], row[0]) + EncodeRow(types[1..], row[1..])
  }

  function RowSize(types: seq<ColType>, row: seq<Value>): nat
    requires FitsRow(types, row)
  {
    if row == [] then 0 else ValueSize(types[0], row[0]) + RowSize(types[1..], row[1..])
  }

  /** Reading all columns from the front; None when a read would leave the row. */
  function DecodeRow(types: seq<ColType>, bs: seq<Byte>): Option<seq<Value>> {
    if types == [] then Some([])
    else if !Readable(types[0], bs) then None
    else if |types| == 1 then Some([ReadValue(types[0], bs)])
    else if ByteSize(types[0], bs) > |bs| then None
    else
      match DecodeRow(types[1..], bs[ByteSize(types[0], bs)..])
      case None => None
      case Some(rest) => Some([ReadValue(types[0], bs)] + rest)
  }

  /** Where the column `index` starts, found by skipping the columns before it. */
  function Skip(types: seq<ColType>, bs: seq<Byte>, index: nat): Option<seq<Byte>>
    requires index <= |types|
  {
    if index == 0 then Some(bs)
    else if !Readable(types[0], bs) || ByteSize(types[0], bs) > |bs| then None
    else Skip(types[1..], bs[ByteSize(types[0], bs)..], index - 1)
  }

  function ReadColumn(types: seq<ColType>, bs: seq<Byte>, index: nat): Option<Value>
    requires index < |types|
  {
    match Skip(types, bs, index)
    case None => None
    case Some(at) => if Readable(types[index], at) then Some(ReadValue(types[index], at)) else None
  }

  /** Every column but the last is skippable. */
  predicate SafeRow(row: seq<Value>) {
    forall i :: 0 <= i < |row| - 1 ==> Skippable(row[i])
  }

  lemma SafeTail(row: seq<Value>)
    requires |row| > 1
    ensures SafeRow(row) <==> Skippable(row[0]) && SafeRow(row[1..])
  {
  }

  lemma {:induction false} EncodedSize(types: seq<ColType>, row: seq<Value>)
    requires FitsRow(types, row)
    ensures |EncodeRow(types, row)| == RowSize(types, row)
  {
    if row != [] {
      ReadBack(types[0], row[0], []);
      EncodedSize(types[1..], row[1..]);
    }
  }

  /** Decoding an encoded row gives the row back. */
  lemma {:induction false} RowRoundTrip(types: seq<ColType>, row: seq<Value>)
    requires FitsRow(types, row) && SafeRow(row)
    ensures DecodeRow(types, EncodeRow(types, row)) == Some(row)
  {
    hide EncodeValue, ByteSize, ReadValue, Readable, Fits;
    if row != [] {
      var (head, rest) := (EncodeValue(types[0], row[0]), EncodeRow(types[1..], row[1..]));
      ReadBack(types[0], row[0], rest);
      SkipExactly(types[0], row[0], rest);
      if |row| == 1 {
        assert row == [row[0]];
      } else {
        SafeTail(row);
        RowRoundTrip(types[1..], row[1..]);
        assert (head + rest)[|head|..] == rest;
        assert row == [row[0]] + row[1..];
      }
    }
  }

  /** Reading one column by skipping agrees with decoding the whole row, for all bytes. */
  lemma {:induction false} ColumnOfDecodedRow(types: seq<ColType>, bs: seq<Byte>, index: nat)
    requires index < |types| && DecodeRow(types, bs).Some?
    ensures |DecodeRow(types, bs).value| == |types|
    ensures ReadColumn(types, bs, index) == Some(DecodeRow(types, bs).value[index])
  {
    if |types| > 1 {
      var rest := bs[ByteSize(types[0], bs)..];
      ColumnOfDecodedRow(types[1..], rest, if index > 0 then index - 1 else 0);
    }
  }

  /** The first column is skipped rightly exactly when it is skippable. */
  lemma SkipFirst(types: seq<ColType>, row: seq<Value>)
    requires FitsRow(types, row) && |row| > 1
    ensures Skip(types, EncodeRow(types, row), 1) == Some(EncodeRow(types[1..], row[1..])) <==> Skippable(row[0])
  {
    hide EncodeValue, ByteSize, ReadValue, Skippable;
    var (head, rest) := (EncodeValue(types[0], row[0]), EncodeRow(types[1..], row[1..]));
    ReadBack(types[0], row[0], rest);
    SkipExactly(types[0], row[0], rest);
    if Skip(types, head + rest, 1) == Some(rest) {
      var n := ByteSize(types[0], head + rest);
      assert |(head + rest)[n..]| == |head| + |rest| - n;
    } else {
      assert (head + rest)[|head|..] == rest;
    }
  }

  lemma SkipLater(types: seq<ColType>, row: seq<Value>, i: nat)
    requires FitsRow(types, row) && 1 <= i < |row| && Skippable(row[0])
    ensures Skip(types, EncodeRow(types, row), i) == Skip(types[1..], EncodeRow(types[1..], row[1..]), i - 1)
    ensures types[1..][i - 1..] == types[i..] && row[1..][i - 1..] == row[i..]
  {
    hide EncodeValue, ByteSize, ReadValue, Skippable;
    var (head, rest) := (EncodeValue(types[0], row[0]), EncodeRow(types[1..], row[1..]));
    ReadBack(types[0], row[0], rest);
    SkipExactly(types[0], row[0], rest);
    assert (head + rest)[|head|..] == rest;
  }

  /** Skipping reaches the start of every column. */
  predicate SkipsToAll(types: seq<ColType>, row: seq<Value>)
    requires FitsRow(types, row)
  {
    forall i :: 0 <= i < |row| ==> Skip(types, EncodeRow(types, row), i) == Some(EncodeRow(types[i..], row[i..]))
  }

  lemma SkipsToLater(types: seq<ColType>, row: seq<Value>)
    requires FitsRow(types, row) && |row| > 1 && Skippable(row[0])
    ensures SkipsToAll(types, row) <==> SkipsToAll(types[1..], row[1..])
  {
    hide Skippable, EncodeRow, Fits;
    var (whole, rest) := (EncodeRow(types, row), EncodeRow(types[1..], row[1..]));
    forall i | 1 <= i < |row|
      ensures Skip(types, whole, i) == Skip(types[1..], rest, i - 1)
      ensures types[1..][i - 1..] == types[i..] && row[1..][i - 1..] == row[i..]
    {
      SkipLater(types, row, i);
    }
    assert types[0..] == types && row[0..] == row;
    if SkipsToAll(types, row) {
      forall k | 0 <= k < |row[1..]|
        ensures Skip(types[1..], rest, k) == Some(EncodeRow(types[1..][k..], row[1..][k..]))
      {
        assert Skip(types, whole, k + 1) == Some(EncodeRow(types[k + 1..], row[k + 1..]));
      }
    }
  }

  /**
   * Skipping reaches the start of every column exactly when every column but the last is
   * skippable: behind a string of 65533 bytes the reader is lost.
   */
  lemma {:induction false} SkippingExactly(types: seq<ColType>, row: seq<Value>)
    requires FitsRow(types, row)
    ensures SafeRow(row) <==> SkipsToAll(types, row)
  {
    assert types[0..] == types && row[0..] == row;
    if |row| > 1 {
      hide Skippable, EncodeRow, Fits;
      SkipFirst(types, row);
      SafeTail(row);
      if Skippable(row[0]) {
        SkippingExactly(types[1..], row[1..]);
        SkipsToLater(types, row);
      } else {
        assert Skip(types, EncodeRow(types, row), 1) != Some(EncodeRow(types[1..], row[1..]));
      }
    }
  }

  // ---------- the comparator ----------

  /** Column by column; None when a read would leave a row. */
  function CompareRows(types: seq<ColType>, a: seq<Byte>, b: seq<Byte>): Option<int> {
    if types == [] then Some(0)
    else if !Readable(types[0], a) || !Readable(types[0], b) then None
    else
      var n := Compare(ReadValue(types[0], a), ReadValue(types[0], b));
      if n != 0 then Some(n)
      else if |types| == 1 then Some(0)
      else if ByteSize(types[0], a) > |a| || ByteSize(types[0], b) > |b| then None
      else CompareRows(types[1..], a[ByteSize(types[0], a)..], b[ByteSize(types[0], b)..])
  }

  /**
   * Comparing two encoded rows is comparing their values in order. A marker or a string of
   * 65533 bytes does no harm in a column where the rows differ: nothing behind it is read.
   */
  lemma {:induction false} ComparatorIsLexicographic(types: seq<ColType>, a: seq<Value>, b: seq<Value>)
    requires FitsRow(types, a) && FitsRow(types, b)
    requires forall i :: 0 <= i < |types| - 1 && a[i] == b[i] ==> Skippable(a[i])
    ensures CompareRows(types, EncodeRow(types, a), EncodeRow(types, b)) == Some(LexCompare(a, b))
  {
    if types != [] {
      var (headA, restA) := (EncodeValue(types[0], a[0]), EncodeRow(types[1..], a[1..]));
      var (headB, restB) := (EncodeValue(types[0], b[0]), EncodeRow(types[1..], b[1..]));
      ReadBack(types[0], a[0], restA);
      ReadBack(types[0], b[0], restB);
      CompareOrder(a[0], b[0]);
      if a[0] == b[0] && |types| > 1 {
        SkipExactly(types[0], a[0], restA);
        SkipExactly(types[0], b[0], restB);
        assert (headA + restA)[|headA|..] == restA && (headB + restB)[|headB|..] == restB;
        assert forall i :: 0 <= i < |types[1..]| - 1 ==> a[1..][i] == a[i + 1] && b[1..][i] == b[i + 1];
        ComparatorIsLexicographic(types[1..], a[1..], b[1..]);
      }
    }
  }

  /**
   * A stored key against the start or end of a range, whose padding may hold markers: the
   * comparison is that of the values, since it ends at a marker.
   */
  lemma StoredKeyAgainstBound(types: seq<ColType>, key: seq<Value>, bound: seq<Value>)
    requires StorableRow(types, key) && SafeRow(key) && FitsRow(types, bound)
    ensures CompareRows(types, EncodeRow(types, key), EncodeRow(types, bound)) == Some(LexCompare(key, bound))
    ensures CompareRows(types, EncodeRow(types, bound), EncodeRow(types, key)) == Some(LexCompare(bound, key))
  {
    ComparatorIsLexicographic(types, key, bound);
    ComparatorIsLexicographic(types, bound, key);
  }

  /** Two encoded keys compare as their values do, so stored keys are totally ordered byte by byte. */
  lemma KeyComparatorIsTotalOrder(types: seq<ColType>, a: seq<Value>, b: seq<Value>, c: seq<Value>)
    requires StorableRow(types, a) && StorableRow(types, b) && StorableRow(types, c)
    requires SafeRow(a) && SafeRow(b) && SafeRow(c)
    ensures var (x, y, z) := (EncodeRow(types, a), EncodeRow(types, b), EncodeRow(types, c));
            && CompareRows(types, x, y).Some? && CompareRows(types, y, z).Some? && CompareRows(types, x, z).Some?
            && CompareRows(types, y, x) == Some(-CompareRows(types, x, y).value)
            && (CompareRows(types, x, y) == Some(0) <==> a == b)
            && (CompareRows(types, x, y).value <= 0 && CompareRows(types, y, z).value <= 0 ==>
                  CompareRows(types, x, z).value <= 0)
  {
    hide CompareRows, EncodeRow, LexCompare;
    ComparatorIsLexicographic(types, a, b);
    ComparatorIsLexicographic(types, b, a);
    ComparatorIsLexicographic(types, b, c);
    ComparatorIsLexicographic(types, a, c);
    LexOrder(a, b);
    if LexCompare(a, b) <= 0 && LexCompare(b, c) <= 0 {
      LexTransitive(a, b, c);
    }
  }

  // ---------- the loops of DataRow ----------

  method ComputeSize(types: seq<ColType>, row: seq<Value>) returns (size: nat)
    requires FitsRow(types, row)
    ensures size == |EncodeRow(types, row)|
  {
    EncodedSize(types, row);
    size := 0;
    for i := 0 to |row|
      invariant size + RowSize(types[i..], row[i..]) == RowSize(types, row)
    {
      size := size + ValueSize(types[i], row[i]);
    }
  }

  /** Writes the row into the buffer at `at`, and nothing else. */
  method Copy(types: seq<ColType>, row: seq<Value>, data: array<Byte>, at: nat)
    requires FitsRow(types, row) && at + |EncodeRow(types, row)| <= data.Length
    modifies data
    ensures data[..] == Overwritten(old(data[..]), at, EncodeRow(types, row))
  {
    var pos := at;
    ghost var (was, done) := (data[..], []);
    assert types[0..] == types && row[0..] == row;
    assert Overwritten(was, at, []) == was;
    for i := 0 to |row|
      invariant pos == at + |done| && done + EncodeRow(types[i..], row[i..]) == EncodeRow(types, row)
      invariant data[..] == Overwritten(was, at, done)
    {
      done := CopyColumn(types, row, i, data, pos, at, was, done);
      pos := pos + ValueSize(types[i], row[i]);
    }
    assert done + [] == done;
  }

  /** One column behind the ones written before. */
  method CopyColumn(types: seq<ColType>, row: seq<Value>, i: nat, data: array<Byte>, pos: nat, ghost at: nat,
                    ghost was: seq<Byte>, ghost done: seq<Byte>) returns (ghost now: seq<Byte>)
    requires FitsRow(types, row) && i < |row| && at + |EncodeRow(types, row)| <= data.Length == |was|
    requires done + EncodeRow(types[i..], row[i..]) == EncodeRow(types, row)
    requires data[..] == Overwritten(was, at, done) && pos == at + |done|
    modifies data
    ensures |now| == |done| + ValueSize(types[i], row[i])
    ensures now + EncodeRow(types[i + 1..], row[i + 1..]) == EncodeRow(types, row)
    ensures data[..] == Overwritten(was, at, now)
  {
    hide EncodeValue, Fits;
    var bs := EncodeValue(types[i], row[i]);
    assert types[i..][1..] == types[i + 1..] && row[i..][1..] == row[i + 1..];
    ReadBack(types[i], row[i], []);
    ghost var rest := EncodeRow(types[i + 1..], row[i + 1..]);
    assert EncodeRow(types[i..], row[i..]) == bs + rest;
    assert done + (bs + rest) == (done + bs) + rest;
    OverwriteMore(was, at, done, bs);
    WriteBytes(bs, data, pos);
    now := done + bs;
  }

  function Overwritten(data: seq<Byte>, at: nat, bs: seq<Byte>): seq<Byte>
    requires at + |bs| <= |data|
  {
    data[..at] + bs + data[at + |bs|..]
  }

  lemma OverwriteMore(data: seq<Byte>, at: nat, bs: seq<Byte>, more: seq<Byte>)
    requires at + |bs| + |more| <= |data|
    ensures Overwritten(Overwritten(data, at, bs), at + |bs|, more) == Overwritten(data, at, bs + more)
  {
  }

  method WriteBytes(bs: seq<Byte>, data: array<Byte>, at: nat)
    requires at + |bs| <= data.Length
    modifies data
    ensures data[..] == Overwritten(old(data[..]), at, bs)
  {
    for k := 0 to |bs|
      invariant data[..] == Overwritten(old(data[..]), at, bs[..k])
    {
      OverwriteMore(old(data[..]), at, bs[..k], [bs[k]]);
      assert bs[..k] + [bs[k]] == bs[..k + 1];
      assert Overwritten(data[..], at + k, [bs[k]]) == data[..][at + k := bs[k]];
      data[at + k] := bs[k];
    }
  }

  method GetResult(types: seq<ColType>, bs: seq<Byte>, index: nat) returns (v: Option<Value>)
    requires index < |types|
    ensures v == ReadColumn(types, bs, index)
  {
    var pos: nat := 0;
    for i := 0 to index
      invariant pos <= |bs| && Skip(types, bs, index) == Skip(types[i..], bs[pos..], index - i)
    {
      var at := bs[pos..];
      assert types[i..][1..] == types[i + 1..];
      if !Readable(types[i], at) || ByteSize(types[i], at) > |at| {
        return None;
      }
      assert at[ByteSize(types[i], at)..] == bs[pos + ByteSize(types[i], at)..];
      pos := pos + ByteSize(types[i], at);
    }
    v := if Readable(types[index], bs[pos..]) then Some(ReadValue(types[index], bs[pos..])) else None;
  }

  method CompareEncoded(types: seq<ColType>, a: seq<Byte>, b: seq<Byte>) returns (n: Option<int>)
    ensures n == CompareRows(types, a, b)
  {
    hide ByteSize, ReadValue;
    var posA: nat, posB: nat := 0, 0;
    for i := 0 to |types|
      invariant posA <= |a| && posB <= |b|
      invariant CompareRows(types, a, b) == CompareRows(types[i..], a[posA..], b[posB..])
    {
      var (atA, atB, rest) := (a[posA..], b[posB..], types[i..]);
      assert rest[1..] == types[i + 1..];
      if !Readable(types[i], atA) || !Readable(types[i], atB) {
        return None;
      }
      var ret := Compare(ReadValue(types[i], atA), ReadValue(types[i], atB));
      if ret != 0 {
        return Some(ret);
      }
      if i + 1 == |types| {
        return Some(0);
      }
      if ByteSize(types[i], atA) > |atA| || ByteSize(types[i], atB) > |atB| {
        return None;
      }
      assert atA[ByteSize(types[i], atA)..] == a[posA + ByteSize(types[i], atA)..];
      assert atB[ByteSize(types[i], atB)..] == b[posB + ByteSize(types[i], atB)..];
      posA, posB := posA + ByteSize(types[i], atA), posB + ByteSize(types[i], atB);
    }
    return Some(0);
  }

  /** What the columns read so far and the rest of the row make together. */
  function Prepend(front: seq<Value>, rest: Option<seq<Value>>): Option<seq<Value>> {
    match rest
    case None => None
    case Some(vs) => Some(front + vs)
  }

  method GetResults(types: seq<ColType>, bs: seq<Byte>) returns (row: Option<seq<Value>>)
    ensures row == DecodeRow(types, bs)
  {
    hide ByteSize, ReadValue;
    var results := [];
    var pos: nat := 0;
    assert types[0..] == types && bs[0..] == bs;
    assert DecodeRow(types, bs).Some? ==> [] + DecodeRow(types, bs).value == DecodeRow(types, bs).value;
    for i := 0 to |types|
      invariant pos <= |bs| && |results| == i
      invariant DecodeRow(types, bs) == Prepend(results, DecodeRow(types[i..], bs[pos..]))
    {
      var at := bs[pos..];
      assert types[i..][1..] == types[i + 1..];
      if !Readable(types[i], at) {
        return None;
      }
      var v := ReadValue(types[i], at);
      if i + 1 == |types| {
        return Some(results + [v]);
      }
      if ByteSize(types[i], at) > |at| {
        return None;
      }
      assert at[ByteSize(types[i], at)..] == bs[pos + ByteSize(types[i], at)..];
      var tail := DecodeRow(types[i + 1..], bs[pos + ByteSize(types[i], at)..]);
      assert tail.Some? ==> results + ([v] + tail.value) == results + [v] + tail.value;
      results := results + [v];
      pos := pos + ByteSize(types[i], at);
    }
    assert results + [] == results;
    return Some(results);
  }
}
