/**
 * Messages to the client in a bounded buffer (server/PgDataWriter.cpp, server/PgDataWriter.h),
 * in the format of the PostgreSQL documentation, chapter "Frontend/Backend Protocol",
 * section "Message Formats".
 */
module PgWriter {
  import opened Seqs
  import opened Values
  import opened RowCodec

  /** The low `width` bytes of a number, highest first. */
  function BigEndian(n: int, width: nat): (bs: seq<Byte>)
    ensures |bs| == width
  {
    Reverse(ToBytes(n % Pow256(width), width))
  }

  function FromBigEndian(bs: seq<Byte>): int {
    DecodeInt(Reverse(bs))
  }

  lemma ModOfNegative(n: int, m: int)
    requires -m <= n < m
    ensures n % m == if n < 0 then n + m else n
  {
  }

  lemma BigEndianRoundTrip(n: int, width: nat)
    requires -Pow256(width) <= 2 * n < Pow256(width)
    ensures FromBigEndian(BigEndian(n, width)) == n
  {
    var bits := n % Pow256(width);
    ModOfNegative(n, Pow256(width));
    BytesRoundTrip(bits, width);
    assert Reverse(BigEndian(n, width)) == ToBytes(bits, width);
  }

  /** The bytes of a number from the right are its digits to the base of 256. */
  lemma BigEndianByte(n: int, width: nat, i: nat)
    requires i < width
    ensures BigEndian(n, width)[width - 1 - i] == n / Pow256(i) % 256
  {
    ByteOf(n % Pow256(width), width, i);
    PowerOfSum(i, 1 + (width - i - 1));
    DigitOfRemainder(n, Pow256(width), n / Pow256(width), n % Pow256(width), Pow256(i), Pow256(width - i - 1));
  }

  lemma DigitOfRemainder(n: int, d: int, q: int, r: int, p: int, m: int)
    requires p > 0 && d == p * (256 * m) && n == d * q + r
    ensures r / p % 256 == n / p % 256
  {
    Regroup(p, m, q);
    SameDigit(r, p, m * q);
  }

  lemma Regroup(p: int, m: int, q: int)
    ensures p * (256 * m) * q == p * (256 * (m * q))
  {
  }

  lemma FirstPowers()
    ensures Pow256(1) == 0x100 && Pow256(2) == 0x1_0000 && Pow256(3) == 0x100_0000 && Pow256(4) == 0x1_0000_0000
    ensures Pow256(8) == 0x1_0000_0000_0000_0000
  {
    assert Pow256(6) == 0x1_0000 * Pow256(4) && Pow256(8) == 0x1_0000 * Pow256(6);
  }

  lemma {:induction false} BytesInTwo(n: nat, low: nat, high: nat, a: nat, b: nat)
    requires 1 <= a <= 4 && low < Pow256(a) && n == Pow256(a) * high + low
    ensures ToBytes(n, a + b) == ToBytes(low, a) + ToBytes(high, b)
  {
    FirstPowers();
    assert ToBytes(n, a + b) == [n % 256] + ToBytes(n / 256, a - 1 + b);
    assert ToBytes(low, a) == [low % 256] + ToBytes(low / 256, a - 1);
    if a > 1 {
      assert n / 256 == Pow256(a - 1) * high + low / 256 && n % 256 == low % 256;
      BytesInTwo(n / 256, low / 256, high, a - 1, b);
    } else {
      assert n / 256 == high && n % 256 == low;
    }
  }

  /** Two numbers of four bytes, the upper half first, are one number of eight. */
  lemma TwoHalves(n: int)
    ensures BigEndian(n / Pow256(4), 4) + BigEndian(n, 4) == BigEndian(n, 8)
  {
    hide ToBytes;
    FirstPowers();
    var (low, high) := (n % Pow256(4), n / Pow256(4) % Pow256(4));
    assert n % Pow256(8) == Pow256(4) * high + low;
    BytesInTwo(n % Pow256(8), low, high, 4, 4);
    ReverseAppend(ToBytes(low, 4), ToBytes(high, 4));
  }

  /** A whole message: the type, then the number of bytes from the length field on, then the body. */
  function Frame(kind: Byte, body: seq<Byte>): seq<Byte> {
    [kind] + BigEndian(|body| + 4, 4) + body
  }

  datatype Message = Message(kind: Byte, body: seq<Byte>)

  /** The messages one after the other. */
  function Stream(messages: seq<Message>): seq<Byte> {
    if messages == [] then []
    else Stream(messages[..|messages| - 1]) + Frame(messages[|messages| - 1].kind, messages[|messages| - 1].body)
  }

  /** A client that takes messages from the front by their lengths; None when the bytes do not come out even. */
  function ReadMessages(bs: seq<Byte>): Option<seq<Message>> {
    if bs == [] then Some([])
    else if |bs| < 5 then None
    else
      var length := FromBigEndian(bs[1..5]);
      if length < 4 || |bs| < 1 + length then None
      else
        match ReadMessages(bs[1 + length..])
        case None => None
        case Some(rest) => Some([Message(bs[0], bs[5..1 + length])] + rest)
  }

  lemma {:induction false} StreamFromFront(messages: seq<Message>)
    requires messages != []
    ensures Stream(messages) == Frame(messages[0].kind, messages[0].body) + Stream(messages[1..])
  {
    hide Frame;
    var init := messages[..|messages| - 1];
    if init != [] {
      StreamFromFront(init);
      assert init[1..] == messages[1..][..|messages| - 2];
    } else {
      assert messages[1..] == [];
    }
  }

  /** What a client reads from a stream of messages is those messages: none lost, split or merged. */
  lemma {:induction false} StreamRoundTrip(messages: seq<Message>)
    requires forall i :: 0 <= i < |messages| ==> |messages[i].body| + 4 < 0x8000_0000
    ensures ReadMessages(Stream(messages)) == Some(messages)
  {
    if messages != [] {
      var (m, rest) := (messages[0], Stream(messages[1..]));
      StreamFromFront(messages);
      StreamRoundTrip(messages[1..]);
      FrontMessage(m, rest);
      assert messages == [m] + messages[1..];
    }
  }

  lemma FrontMessage(m: Message, rest: seq<Byte>)
    requires |m.body| + 4 < 0x8000_0000
    ensures var bs := Frame(m.kind, m.body) + rest;
            && |bs| >= 5 + |m.body| && bs[0] == m.kind && FromBigEndian(bs[1..5]) == |m.body| + 4
            && bs[5..5 + |m.body|] == m.body && bs[5 + |m.body|..] == rest
  {
    assert Pow256(2) == 0x1_0000 && Pow256(4) == 0x1_0000 * Pow256(2);
    BigEndianRoundTrip(|m.body| + 4, 4);
    var bs := Frame(m.kind, m.body) + rest;
    assert bs[1..5] == BigEndian(|m.body| + 4, 4);
  }

  const DIGITS: seq<Byte> := [48, 49, 50, 51, 52, 53, 54, 55, 56, 57, 65, 66, 67, 68, 69, 70]

  /** Two upper-case hexadecimal digits for each byte. */
  function HexDigits(s: seq<Byte>): (r: seq<Byte>)
    ensures |r| == 2 * |s|
  {
    if s == [] then [] else HexDigits(s[..|s| - 1]) + [DIGITS[s[|s| - 1] / 16], DIGITS[s[|s| - 1] % 16]]
  }

  /** The bytes of a text in ASCII, seven bits each. */
  function Ascii(text: string): (bs: seq<Byte>)
    ensures |bs| == |text|
  {
    seq(|text|, i requires 0 <= i < |text| => text[i] as int % 128)
  }

  /** Each byte is two of the digits 0 to 9 and A to F, the upper half first. */
  lemma {:induction false} HexDigitsMeaning(s: seq<Byte>, i: nat)
    requires i < |s|
    ensures HexDigits(s)[2 * i] == Ascii("0123456789ABCDEF")[s[i] / 16]
    ensures HexDigits(s)[2 * i + 1] == Ascii("0123456789ABCDEF")[s[i] % 16]
  {
    assert DIGITS == Ascii("0123456789ABCDEF");
    if i < |s| - 1 {
      HexDigitsMeaning(s[..|s| - 1], i);
    }
  }

  /** The decimal digits of a number, with its sign. */
  function Decimal(n: int): (s: seq<Byte>)
    ensures s != []
    decreases if n < 0 then 1 - n else n
  {
    if n < 0 then [45] + Decimal(-n)
    else if n < 10 then [48 + n]
    else Decimal(n / 10) + [48 + n % 10]
  }

  function Pow10(k: nat): (p: int)
    ensures p > 0
  {
    if k == 0 then 1 else 10 * Pow10(k - 1)
  }

  /** The digit at place `i` from the right is the one to the base of ten; no number but 0 begins with 0. */
  lemma {:induction false} DecimalDigit(n: nat, i: nat)
    requires i < |Decimal(n)|
    ensures Decimal(n)[|Decimal(n)| - 1 - i] == 48 + n / Pow10(i) % 10
    ensures n > 0 ==> Decimal(n)[0] != 48
    decreases n
  {
    if n >= 10 {
      var init := Decimal(n / 10);
      assert Decimal(n) == init + [48 + n % 10];
      if i > 0 {
        DecimalDigit(n / 10, i - 1);
        DivideTwice(n, 10, Pow10(i - 1));
      } else {
        DecimalDigit(n / 10, 0);
      }
    }
  }

  function FromDigits(s: seq<Byte>): int {
    if s == [] then 0 else 10 * FromDigits(s[..|s| - 1]) + s[|s| - 1] - 48
  }

  function FromDecimal(s: seq<Byte>): int {
    if s != [] && s[0] == 45 then -FromDigits(s[1..]) else FromDigits(s)
  }

  lemma {:induction false} DigitsRoundTrip(n: nat)
    ensures FromDigits(Decimal(n)) == n && Decimal(n)[0] != 45
    decreases n
  {
    if n < 10 {
      assert Decimal(n)[..0] == [];
    } else {
      var init := Decimal(n / 10);
      DigitsRoundTrip(n / 10);
      assert Decimal(n) == init + [48 + n % 10] && (init + [48 + n % 10])[..|init|] == init;
    }
  }

  /** The decimal text of a number can be read back. */
  lemma DecimalRoundTrip(n: int)
    ensures FromDecimal(Decimal(n)) == n
  {
    if n < 0 {
      DigitsRoundTrip(-n);
      assert Decimal(n) == [45] + Decimal(-n) && Decimal(n)[1..] == Decimal(-n);
    } else {
      DigitsRoundTrip(n);
    }
  }

  /**
   * What the writer is asked to append. Lengths are below 2^32, the range of the size check, and
   * a printed number has at least one character.
   */
  datatype Piece =
    | Num8(n: int) | Num16(n: int) | Num32(n: int) | Num64(n: int)
    | ZeroEnd(s: seq<Byte>)
    | Counted(s: seq<Byte>)
    | Hex(s: seq<Byte>)
    | Printed(s: seq<Byte>)
    | Stamp(s: seq<Byte>)
  {
    predicate Sized() {
      match this
      case ZeroEnd(s) => |s| + 1 < 0x1_0000_0000
      case Counted(s) => |s| < 0x1_0000_0000
      case Hex(s) => 2 * |s| + 2 < 0x1_0000_0000
      case Printed(s) => 0 < |s| < 0x1_0000_0000
      case Stamp(s) => |s| + 1 < 0x1_0000_0000
      case _ => true
    }

    function Image(): seq<Byte> {
      match this
      case Num8(n) => BigEndian(n, 1)
      case Num16(n) => BigEndian(n, 2)
      case Num32(n) => BigEndian(n, 4)
      case Num64(n) => BigEndian(n, 8)
      case ZeroEnd(s) => s + [0]
      case Counted(s) => BigEndian(|s|, 4) + s
      case Hex(s) => BigEndian(2 * |s| + 2, 4) + ([92, 120] + HexDigits(s))
      case Printed(s) => BigEndian(|s|, 4) + s
      case Stamp(s) => BigEndian(|s|, 4) + s
    }

    /** The room is checked for all the bytes at once. */
    predicate Whole() {
      Num8? || Num16? || Num32? || ZeroEnd?
    }

    /** The room that is asked for behind the bytes: printing puts a zero behind its text. */
    function Slack(): nat {
      if Printed? || Stamp? then 1 else 0
    }
  }

  function Body(pieces: seq<Piece>): seq<Byte> {
    if pieces == [] then [] else Body(pieces[..|pieces| - 1]) + pieces[|pieces| - 1].Image()
  }

  /** A message of these pieces has room in a buffer of `capacity` bytes from `at` on. */
  predicate HasRoom(pieces: seq<Piece>, at: nat, capacity: nat) {
    if pieces == [] then at + 5 <= capacity
    else
      var (init, last) := (pieces[..|pieces| - 1], pieces[|pieces| - 1]);
      HasRoom(init, at, capacity) && at + 5 + |Body(init)| + |last.Image()| + last.Slack() <= capacity
  }

  /** What a message that may overflow leaves written from `at` on, when each piece is written whole or not at all. */
  function Reached(pieces: seq<Piece>, at: nat, capacity: nat): nat {
    if pieces == [] then at + 5
    else
      var (init, last) := (pieces[..|pieces| - 1], pieces[|pieces| - 1]);
      if HasRoom(init, at, capacity) then at + 5 + |Body(if HasRoom(pieces, at, capacity) then pieces else init)|
      else Reached(init, at, capacity)
  }

  /**
   * Appending `bs` to what was written before: the bytes are there, or the buffer was or is full
   * now. When it was full nothing is written; when it has become full what was written before is
   * still there, with nothing behind it if the bytes are written as a whole.
   */
  ghost predicate Appended(before: seq<Byte>, wasFull: bool, bs: seq<Byte>, slack: nat, whole: bool,
                           capacity: nat, now: seq<Byte>, full: bool)
  {
    if wasFull then full && now == before
    else if |before| + |bs| + slack > capacity then full && before <= now && (whole ==> now == before)
    else !full && now == before + bs
  }

  /** Two appends in turn are one of both. */
  lemma AppendedInTurn(before: seq<Byte>, wasFull: bool, a: seq<Byte>, wholeA: bool, mid: seq<Byte>, midFull: bool,
                       b: seq<Byte>, slack: nat, wholeB: bool, capacity: nat, now: seq<Byte>, full: bool)
    requires Appended(before, wasFull, a, 0, wholeA, capacity, mid, midFull)
    requires Appended(mid, midFull, b, slack, wholeB, capacity, now, full)
    ensures Appended(before, wasFull, a + b, slack, false, capacity, now, full)
  {
  }

  // ---------- any sequence of calls ----------

  datatype Op = BeginOp(kind: Byte) | AppendOp(piece: Piece) | EndOp

  /** The messages completed so far, and the one that is being written. */
  datatype Progress = Progress(complete: seq<Message>, open: Option<Message>)
  {
    /** Messages are not nested. */
    predicate Allows(op: Op) {
      match op
      case BeginOp(_) => open == None
      case AppendOp(piece) => open.Some? && piece.Sized()
      case EndOp => open.Some?
    }

    function Step(op: Op): Progress
      requires Allows(op)
    {
      match op
      case BeginOp(kind) => Progress(complete, Some(Message(kind, [])))
      case AppendOp(piece) => Progress(complete, Some(Message(open.value.kind, open.value.body + piece.Image())))
      case EndOp => Progress(complete + [open.value], None)
    }

    /** The bytes of the message that is being written, without its length. */
    function Pending(): seq<Byte> {
      match open
      case None => []
      case Some(m) => Opening(m.kind) + m.body
    }
  }

  /** What a sequence of calls would do in an unbounded buffer; None when it nests messages. */
  function Progressed(ops: seq<Op>): Option<Progress> {
    if ops == [] then Some(Progress([], None))
    else
      match Progressed(ops[..|ops| - 1])
      case None => None
      case Some(p) => if p.Allows(ops[|ops| - 1]) then Some(p.Step(ops[|ops| - 1])) else None
  }

  lemma {:induction false} ProgressedPrefix(ops: seq<Op>, n: nat)
    requires n <= |ops| && Progressed(ops).Some?
    ensures Progressed(ops[..n]).Some?
    decreases |ops|
  {
    if n == |ops| {
      assert ops[..n] == ops;
    } else {
      assert ops[..|ops| - 1][..n] == ops[..n];
      ProgressedPrefix(ops[..|ops| - 1], n);
    }
  }

  class PgDataWriter {
    const data: array<Byte>
    var written: nat
    var lastPrepare: nat
    var bufferFull: bool

    constructor (data: array<Byte>)
      ensures Valid() && this.data == data && written == lastPrepare == 0 && !bufferFull
    {
      this.data, written, lastPrepare, bufferFull := data, 0, 0, false;
    }

    predicate Valid()
      reads `written, `lastPrepare
    {
      lastPrepare <= written <= data.Length
    }

    method Check(size: nat) returns (ok: bool)
      requires Valid() && size < 0x1_0000_0000
      modifies `bufferFull
      ensures ok == (!old(bufferFull) && written + size <= data.Length) && bufferFull == !ok
    {
      if bufferFull {
        return false;
      }
      if written + size <= data.Length {
        return true;
      }
      bufferFull := true;
      return false;
    }

    /** Stores the bytes behind what is written and moves on. */
    method Put(bs: seq<Byte>)
      requires Valid() && written + |bs| <= data.Length
      modifies `written, data
      ensures Valid() && data[..written] == old(data[..written]) + bs
    {
      WriteBytes(bs, data, written);
      assert data[..written] == old(data[..])[..written];
      written := written + |bs|;
    }

    method AddInt8(value: int)
      requires Valid()
      modifies `written, `bufferFull, data
      ensures Valid()
      ensures Appended(old(data[..written]), old(bufferFull), Num8(value).Image(), 0, true,
                       data.Length, data[..written], bufferFull)
    {
      var ok := Check(1);
      if ok {
        Put(BigEndian(value, 1));
      }
    }

    method AddInt16(value: int)
      requires Valid()
      modifies `written, `bufferFull, data
      ensures Valid()
      ensures Appended(old(data[..written]), old(bufferFull), Num16(value).Image(), 0, true,
                       data.Length, data[..written], bufferFull)
    {
      var ok := Check(2);
      if ok {
        Put(BigEndian(value, 2));
      }
    }

    method AddInt32(value: int) returns (ok: bool)
      requires Valid()
      modifies `written, `bufferFull, data
      ensures Valid()
      ensures Appended(old(data[..written]), old(bufferFull), Num32(value).Image(), 0, true,
                       data.Length, data[..written], bufferFull)
      ensures ok == !bufferFull
    {
      ok := Check(4);
      if ok {
        Put(BigEndian(value, 4));
      }
    }

    /** The upper half and then, if it was written, the lower half. */
    method AddInt64(value: int)
      requires Valid()
      modifies `written, `bufferFull, data
      ensures Valid()
      ensures Appended(old(data[..written]), old(bufferFull), Num64(value).Image(), 0, false,
                       data.Length, data[..written], bufferFull)
    {
      hide BigEndian, Pow256;
      TwoHalves(value);
      var ok := AddInt32(value / Pow256(4));
      ghost var (mid, midFull) := (data[..written], bufferFull);
      if ok {
        var _ := AddInt32(value);
      }
      AppendedInTurn(old(data[..written]), old(bufferFull), BigEndian(value / Pow256(4), 4), true, mid, midFull,
                     BigEndian(value, 4), 0, true, data.Length, data[..written], bufferFull);
    }

    method AddStringZeroEnd(s: seq<Byte>)
      requires Valid() && ZeroEnd(s).Sized()
      modifies `written, `bufferFull, data
      ensures Valid()
      ensures Appended(old(data[..written]), old(bufferFull), ZeroEnd(s).Image(), 0, true,
                       data.Length, data[..written], bufferFull)
    {
      var ok := Check(|s| + 1);
      if ok {
        Put(s);
        Put([0]);
      }
    }

    method AddString(s: seq<Byte>)
      requires Valid() && Counted(s).Sized()
      modifies `written, `bufferFull, data
      ensures Valid()
      ensures Appended(old(data[..written]), old(bufferFull), Counted(s).Image(), 0, false,
                       data.Length, data[..written], bufferFull)
    {
      var ok := AddInt32(|s|);
      ghost var (mid, midFull) := (data[..written], bufferFull);
      if ok {
        ok := Check(|s|);
        if ok {
          Put(s);
        }
      }
      AppendedInTurn(old(data[..written]), old(bufferFull), BigEndian(|s|, 4), true, mid, midFull,
                     s, 0, true, data.Length, data[..written], bufferFull);
    }

    method AddBytesString(s: seq<Byte>)
      requires Valid() && Hex(s).Sized()
      modifies `written, `bufferFull, data
      ensures Valid()
      ensures Appended(old(data[..written]), old(bufferFull), Hex(s).Image(), 0, false,
                       data.Length, data[..written], bufferFull)
    {
      hide BigEndian, HexDigits;
      var ok := AddInt32(2 * |s| + 2);
      ghost var (mid, midFull) := (data[..written], bufferFull);
      if ok {
        ok := Check(2 * |s| + 2);
        if ok {
          PutHex(s);
        }
      }
      AppendedInTurn(old(data[..written]), old(bufferFull), BigEndian(2 * |s| + 2, 4), true, mid, midFull,
                     [92, 120] + HexDigits(s), 0, true, data.Length, data[..written], bufferFull);
    }

    method PutHex(s: seq<Byte>)
      requires Valid() && written + 2 * |s| + 2 <= data.Length
      modifies `written, data
      ensures Valid() && data[..written] == old(data[..written]) + ([92, 120] + HexDigits(s))
    {
      hide HexDigits;
      ghost var before := data[..written];
      PutTwo(92, 120);
      NoDigits();
      for i := 0 to |s|
        invariant Valid() && written == old(written) + 2 + 2 * i
        invariant data[..written] == before + ([92, 120] + HexDigits(s[..i]))
      {
        PutTwo(DIGITS[s[i] / 16], DIGITS[s[i] % 16]);
        TwoMoreDigits(before, s, i);
      }
      assert s[..|s|] == s;
    }

    method PutTwo(a: Byte, b: Byte)
      requires Valid() && written + 2 <= data.Length
      modifies `written, data
      ensures Valid() && written == old(written) + 2 && data[..written] == old(data[..written]) + [a, b]
    {
      Put([a]);
      Put([b]);
    }

    /**
     * Prints the text behind a place for its length. `snprintf` writes what fits, with a zero
     * behind it; the length and the text count only when all of it, and the zero, has fitted.
     */
    method AddValueAsString(text: seq<Byte>)
      requires Valid() && Printed(text).Sized()
      modifies `written, `bufferFull, data
      ensures Valid()
      ensures Appended(old(data[..written]), old(bufferFull), Printed(text).Image(), 1, false,
                       data.Length, data[..written], bufferFull)
    {
      var ok := Check(4);
      if !ok {
        return;
      }
      var start := written + 4;
      var available := data.Length - start;
      ghost var front := data[..start];
      assert front[..written] == data[..written];
      if available > 0 {
        Print(text, start, available);
      }
      if |text| < available {
        TakePrinted(text, front);
      } else {
        bufferFull := true;
      }
    }

    /** `snprintf`: as much of the text as fits, and a zero. */
    method Print(text: seq<Byte>, start: nat, available: nat)
      requires 0 < available == data.Length - start
      modifies data
      ensures data[..start] == old(data[..start])
      ensures |text| < available ==> data[..start + |text|] == old(data[..start]) + text
    {
      var printed := if |text| < available then text else text[..available - 1];
      ghost var was := data[..];
      WriteBytes(printed + [0], data, start);
      PrintedFront(was, start, printed);
    }

    /** Puts the length in front of the printed text and counts both. */
    method TakePrinted(text: seq<Byte>, ghost front: seq<Byte>)
      requires Valid() && !bufferFull && |front| == written + 4 && written + 4 + |text| < data.Length
      requires data[..written + 4 + |text|] == front + text
      modifies `written, `bufferFull, data
      ensures Valid() && !bufferFull && data[..written] == front[..old(written)] + (BigEndian(|text|, 4) + text)
    {
      ghost var was := data[..];
      assert was[written + 4..written + 4 + |text|] == text;
      WriteBytes(BigEndian(|text|, 4), data, written);
      FrontAndText(was, written, BigEndian(|text|, 4), text);
      written := written + 4;
      written := written + |text|;
    }

    /** The text that `strftime` prints has the expected length. */
    method AddDateTimeAsString(text: seq<Byte>)
      requires Valid() && Stamp(text).Sized()
      modifies `written, `bufferFull, data
      ensures Valid()
      ensures Appended(old(data[..written]), old(bufferFull), Stamp(text).Image(), 1, false,
                       data.Length, data[..written], bufferFull)
    {
      var ok := AddInt32(|text|);
      ghost var (mid, midFull) := (data[..written], bufferFull);
      if ok {
        ok := Check(|text| + 1);
        if ok {
          Put(text);
        }
      }
      AppendedInTurn(old(data[..written]), old(bufferFull), BigEndian(|text|, 4), true, mid, midFull,
                     text, 1, true, data.Length, data[..written], bufferFull);
    }

    /** Starts a message: its type and a place for its length. */
    method Begin(kind: Byte)
      requires Valid()
      modifies `written, `bufferFull, data
      ensures Valid()
      ensures Appended(old(data[..written]), false, Opening(kind), 0, false, data.Length, data[..written], bufferFull)
    {
      hide BigEndian;
      bufferFull := false;
      AddInt8(kind);
      ghost var (mid, midFull) := (data[..written], bufferFull);
      var _ := AddInt32(0);
      OpeningIsTwoNumbers(kind);
      AppendedInTurn(old(data[..written]), false, BigEndian(kind, 1), true, mid, midFull,
                     BigEndian(0, 4), 0, true, data.Length, data[..written], bufferFull);
    }

    /** Completes the message, unless the buffer is full: everything written is prepared now. */
    method End()
      requires Valid() && (!bufferFull ==> lastPrepare + 5 <= written)
      modifies `lastPrepare, data
      ensures Valid()
      ensures if bufferFull then lastPrepare == old(lastPrepare) && data[..] == old(data[..])
              else lastPrepare == written && data[..written] == Patched(old(data[..written]), old(lastPrepare))
    {
      hide BigEndian;
      if bufferFull {
        return;
      }
      ghost var was := data[..];
      WriteBytes(BigEndian(written - lastPrepare - 1, 4), data, lastPrepare + 1);
      OverwrittenFront(was, lastPrepare + 1, BigEndian(written - lastPrepare - 1, 4), written);
      lastPrepare := written;
    }

    method Add(piece: Piece)
      requires Valid() && piece.Sized()
      modifies `written, `bufferFull, data
      ensures Valid()
      ensures Appended(old(data[..written]), old(bufferFull), piece.Image(), piece.Slack(), piece.Whole(),
                       data.Length, data[..written], bufferFull)
    {
      match piece
      case Num8(n) => AddInt8(n);
      case Num16(n) => AddInt16(n);
      case Num32(n) => var _ := AddInt32(n);
      case Num64(n) => AddInt64(n);
      case ZeroEnd(s) => AddStringZeroEnd(s);
      case Counted(s) => AddString(s);
      case Hex(s) => AddBytesString(s);
      case Printed(s) => AddValueAsString(s);
      case Stamp(s) => AddDateTimeAsString(s);
    }

    /**
     * Begin, append, end. With room behind what is written the message and all before it since
     * the last one are prepared; without, the buffer is full and the prepared bytes are as before.
     * What is prepared then is what was prepared before and this message exactly when there is
     * room and no rest of a message that overflowed, since `begin` clears the flag.
     */
    method WriteMessage(kind: Byte, pieces: seq<Piece>)
      requires Valid() && forall i :: 0 <= i < |pieces| ==> pieces[i].Sized()
      modifies `written, `lastPrepare, `bufferFull, data
      ensures Valid() && bufferFull == !HasRoom(pieces, old(written), data.Length)
      ensures bufferFull ==> lastPrepare == old(lastPrepare) && data[..lastPrepare] == old(data[..lastPrepare])
      ensures bufferFull && old(written) + 5 <= data.Length && (forall i :: 0 <= i < |pieces| ==> pieces[i].Whole()) ==>
                Landed(pieces, old(data[..written]) + Opening(kind), old(written), data.Length, data[..written])
      ensures !bufferFull ==>
                && lastPrepare == written
                && data[..written] == Patched(old(data[..written]) + Opening(kind) + Body(pieces), old(lastPrepare))
      ensures data[..lastPrepare] == old(data[..lastPrepare]) + Frame(kind, Body(pieces)) <==>
              HasRoom(pieces, old(written), data.Length) && old(written) == old(lastPrepare)
    {
      ghost var (prefix, was) := (data[..lastPrepare], data[..written]);
      ghost var rest := data[lastPrepare..written];
      assert was == prefix + rest;
      Begin(kind);
      AddAll(pieces, was + Opening(kind), |was|);
      assert data[..lastPrepare] == data[..|was|][..lastPrepare] == prefix;
      End();
      FramedExactly(prefix, rest, kind, Body(pieces));
    }

    method Perform(op: Op, ghost prefix: seq<Byte>, ghost p: Progress)
      requires Valid() && !bufferFull && p.Allows(op)
      requires data[..lastPrepare] == prefix + Stream(p.complete)
               && data[..written] == data[..lastPrepare] + p.Pending()
      modifies `written, `lastPrepare, `bufferFull, data
      ensures Valid()
      ensures if bufferFull then data[..lastPrepare] == prefix + Stream(p.complete)
              else data[..lastPrepare] == prefix + Stream(p.Step(op).complete)
                   && data[..written] == data[..lastPrepare] + p.Step(op).Pending()
    {
      hide Piece.Image, BigEndian, Stream, Frame;
      ghost var (prepared, before) := (data[..lastPrepare], data[..written]);
      assert before[..lastPrepare] == prepared;
      match op
      case BeginOp(kind) =>
        Begin(kind);
        assert data[..lastPrepare] == data[..written][..|before|][..lastPrepare];
      case AppendOp(piece) =>
        Add(piece);
        assert data[..lastPrepare] == data[..written][..|before|][..lastPrepare];
        assert before + piece.Image() == prepared + (Opening(p.open.value.kind) + (p.open.value.body + piece.Image()));
      case EndOp =>
        ghost var m := p.open.value;
        assert before == prepared + Opening(m.kind) + m.body;
        End();
        PatchedIsFrame(prepared, m.kind, m.body);
        OneMoreComplete(prefix, p.complete, m);
    }

    /**
     * Any sequence of calls, up to the first overflow: at every point the prepared bytes are the
     * complete messages so far, and an overflow leaves them as they are.
     */
    method PerformAll(ops: seq<Op>) returns (n: nat)
      requires Valid() && written == lastPrepare && !bufferFull && Progressed(ops).Some?
      modifies `written, `lastPrepare, `bufferFull, data
      ensures Valid() && n <= |ops| && bufferFull == (n < |ops|)
      ensures Progressed(ops[..n]).Some?
      ensures data[..lastPrepare] == old(data[..lastPrepare]) + Stream(Progressed(ops[..n]).value.complete)
      ensures !bufferFull ==> data[..written] == data[..lastPrepare] + Progressed(ops).value.Pending()
    {
      hide Stream, Progress.Step, Progress.Pending;
      n := 0;
      ghost var prefix := data[..lastPrepare];
      ProgressedPrefix(ops, n);
      NothingYet(prefix);
      while n < |ops|
        invariant Valid() && n <= |ops| && !bufferFull && Progressed(ops[..n]).Some?
        invariant data[..lastPrepare] == prefix + Stream(Progressed(ops[..n]).value.complete)
        invariant data[..written] == data[..lastPrepare] + Progressed(ops[..n]).value.Pending()
      {
        ProgressedPrefix(ops, n + 1);
        assert ops[..n + 1][..n] == ops[..n];
        Perform(ops[n], prefix, Progressed(ops[..n]).value);
        if bufferFull {
          return;
        }
        n := n + 1;
      }
      assert ops[..n] == ops;
    }

    /** All the pieces behind an opening at `at`, up to the first one without room. */
    method AddAll(pieces: seq<Piece>, ghost front: seq<Byte>, ghost at: nat)
      requires Valid() && |front| == at + 5 && lastPrepare <= at && forall i :: 0 <= i < |pieces| ==> pieces[i].Sized()
      requires bufferFull == (at + 5 > data.Length) && at <= written
      requires data[..at] == front[..at] && (!bufferFull ==> data[..written] == front)
      modifies `written, `bufferFull, data
      ensures Valid() && bufferFull == !HasRoom(pieces, at, data.Length)
      ensures at <= written && data[..at] == front[..at] && (!bufferFull ==> data[..written] == front + Body(pieces))
      ensures (forall i :: 0 <= i < |pieces| ==> pieces[i].Whole()) && at + 5 <= data.Length ==>
                Landed(pieces, front, at, data.Length, data[..written])
    {
      hide Piece.Image, Landed;
      assert front + [] == front && pieces[..0] == [];
      NothingLanded(front, at, data.Length);
      for i := 0 to |pieces|
        invariant Valid() && at <= written && data[..at] == front[..at]
        invariant bufferFull == !HasRoom(pieces[..i], at, data.Length)
        invariant !bufferFull ==> data[..written] == front + Body(pieces[..i])
        invariant (forall k :: 0 <= k < |pieces| ==> pieces[k].Whole()) && at + 5 <= data.Length ==>
                    Landed(pieces[..i], front, at, data.Length, data[..written])
      {
        RoomForOneMore(pieces, i, at, data.Length);
        BodyOfOneMore(front, pieces, i);
        ghost var before := data[..written];
        AddNext(pieces[i], front, at, Body(pieces[..i]));
        if (forall k :: 0 <= k < |pieces| ==> pieces[k].Whole()) && at + 5 <= data.Length {
          LandedOneMore(pieces, i, front, at, data.Length, before, data[..written]);
        }
      }
      assert pieces[..|pieces|] == pieces;
    }

    method AddNext(piece: Piece, ghost front: seq<Byte>, ghost at: nat, ghost body: seq<Byte>)
      requires Valid() && |front| == at + 5 && at <= written && piece.Sized()
      requires data[..at] == front[..at] && (!bufferFull ==> data[..written] == front + body)
      modifies `written, `bufferFull, data
      ensures Valid() && at <= written && data[..at] == front[..at]
      ensures bufferFull == (old(bufferFull) || at + 5 + |body| + |piece.Image()| + piece.Slack() > data.Length)
      ensures !bufferFull ==> data[..written] == front + body + piece.Image()
      ensures bufferFull && (old(bufferFull) || piece.Whole()) ==> data[..written] == old(data[..written])
    {
      hide Piece.Image;
      ghost var before := data[..written];
      assert before[..at] == front[..at];
      Add(piece);
      assert data[..at] == data[..written][..|before|][..at];
    }
  }

  lemma NoDigits()
    ensures [92, 120] + HexDigits([]) == [92, 120]
  {
  }

  lemma TwoMoreDigits(before: seq<Byte>, s: seq<Byte>, i: nat)
    requires i < |s|
    ensures before + ([92, 120] + HexDigits(s[..i])) + [DIGITS[s[i] / 16], DIGITS[s[i] % 16]] ==
            before + ([92, 120] + HexDigits(s[..i + 1]))
  {
    assert s[..i + 1][..i] == s[..i];
    assert HexDigits(s[..i + 1]) == HexDigits(s[..i]) + [DIGITS[s[i] / 16], DIGITS[s[i] % 16]];
  }

  lemma PrintedFront(was: seq<Byte>, at: nat, printed: seq<Byte>)
    requires at + |printed| + 1 <= |was|
    ensures var now := Overwritten(was, at, printed + [0]);
            now[..at] == was[..at] && now[..at + |printed|] == was[..at] + printed
  {
  }

  lemma FrontAndText(was: seq<Byte>, at: nat, length: seq<Byte>, text: seq<Byte>)
    requires |length| == 4 && at + 4 + |text| <= |was| && was[at + 4..at + 4 + |text|] == text
    ensures Overwritten(was, at, length)[..at + 4 + |text|] == was[..at] + (length + text)
  {
  }

  /** What is written of a message whose pieces are written whole or not at all. */
  ghost predicate Landed(pieces: seq<Piece>, front: seq<Byte>, at: nat, capacity: nat, now: seq<Byte>) {
    && at + 5 <= |now| == Reached(pieces, at, capacity) <= at + 5 + |Body(pieces)|
    && |front| == at + 5 && now == front + Body(pieces)[..|now| - at - 5]
  }

  lemma NothingLanded(front: seq<Byte>, at: nat, capacity: nat)
    requires |front| == at + 5
    ensures Landed([], front, at, capacity, front)
  {
    assert front + [] == front;
  }

  lemma LandedOneMore(pieces: seq<Piece>, i: nat, front: seq<Byte>, at: nat, capacity: nat, before: seq<Byte>,
                      now: seq<Byte>)
    requires i < |pieces| && pieces[i].Whole() && Landed(pieces[..i], front, at, capacity, before)
    requires now == if HasRoom(pieces[..i + 1], at, capacity) then front + Body(pieces[..i + 1]) else before
    requires HasRoom(pieces[..i], at, capacity) ==> before == front + Body(pieces[..i])
    ensures Landed(pieces[..i + 1], front, at, capacity, now)
  {
    hide Piece.Image;
    assert pieces[..i + 1][..i] == pieces[..i];
    assert Body(pieces[..i + 1])[..|Body(pieces[..i])|] == Body(pieces[..i]);
    assert Body(pieces[..i + 1])[..|Body(pieces[..i + 1])|] == Body(pieces[..i + 1]);
    assert Body(pieces[..i + 1])[..|before| - at - 5] == Body(pieces[..i])[..|before| - at - 5];
  }

  lemma NothingYet(prefix: seq<Byte>)
    ensures prefix + Stream([]) == prefix && prefix + Progress([], None).Pending() == prefix
  {
  }

  lemma OneMoreComplete(prefix: seq<Byte>, complete: seq<Message>, m: Message)
    ensures prefix + Stream(complete) + Frame(m.kind, m.body) == prefix + Stream(complete + [m])
  {
  }

  /** What `begin` writes. */
  function Opening(kind: Byte): (bs: seq<Byte>)
    ensures |bs| == 5
  {
    [kind, 0, 0, 0, 0]
  }

  lemma OpeningIsTwoNumbers(kind: Byte)
    ensures BigEndian(kind, 1) + BigEndian(0, 4) == Opening(kind)
  {
  }

  lemma BodyOfPiece(piece: Piece)
    ensures Body([]) == [] && Body([piece]) == piece.Image()
  {
  }

  /** The length written back at its place: all the bytes behind the type. */
  function Patched(bs: seq<Byte>, at: nat): (r: seq<Byte>)
    requires at + 5 <= |bs|
    ensures |r| == |bs|
  {
    Overwritten(bs, at + 1, BigEndian(|bs| - at - 1, 4))
  }

  lemma OverwrittenFront(data: seq<Byte>, at: nat, bs: seq<Byte>, n: nat)
    requires at + |bs| <= n <= |data|
    ensures Overwritten(data, at, bs)[..n] == Overwritten(data[..n], at, bs)
  {
  }

  lemma PatchedIsFrame(prefix: seq<Byte>, kind: Byte, body: seq<Byte>)
    ensures Patched(prefix + Opening(kind) + body, |prefix|) == prefix + Frame(kind, body)
  {
  }

  lemma RoomForOneMore(pieces: seq<Piece>, i: nat, at: nat, capacity: nat)
    requires i < |pieces|
    ensures HasRoom(pieces[..i + 1], at, capacity) <==>
            && HasRoom(pieces[..i], at, capacity)
            && at + 5 + |Body(pieces[..i])| + |pieces[i].Image()| + pieces[i].Slack() <= capacity
  {
    assert pieces[..i + 1][..i] == pieces[..i];
  }

  lemma BodyOfOneMore(front: seq<Byte>, pieces: seq<Piece>, i: nat)
    requires i < |pieces|
    ensures front + Body(pieces[..i]) + pieces[i].Image() == front + Body(pieces[..i + 1])
  {
    assert pieces[..i + 1][..i] == pieces[..i];
  }

  /**
   * When a message begins behind the rest of one that overflowed, the bytes that `end` prepares
   * are the message exactly when there is no such rest.
   */
  lemma FramedExactly(prefix: seq<Byte>, rest: seq<Byte>, kind: Byte, body: seq<Byte>)
    ensures Patched(prefix + rest + Opening(kind) + body, |prefix|) == prefix + Frame(kind, body) <==> rest == []
  {
    if rest == [] {
      assert prefix + rest == prefix;
      PatchedIsFrame(prefix, kind, body);
    }
  }
}
