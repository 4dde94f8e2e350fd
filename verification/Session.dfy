/**
 * Streaming the result of a statement: flush the buffer when a row does not fit and try the
 * row again (server/SessionInfo.cpp, `buildData` and `buildExecutionDone` in
 * server/PostgresProtocol.cpp).
 */
module Session {
  import opened Seqs
  import opened Values
  import opened RowCodec
  import opened PgWriter

  /** A column of a result row; dates come as the text that `strftime` prints. */
  datatype Field =
    | Null
    | BoolField(b: bool)
    | IntField(n: int)
    | TextField(s: seq<Byte>)
    | BytesField(s: seq<Byte>)
    | TimeField(s: seq<Byte>)
  {
    function Piece(): Piece {
      match this
      case Null => Num32(-1)
      case BoolField(b) => Counted(if b then [116, 114, 117, 101] else [102, 97, 108, 115, 101])
      case IntField(n) => Printed(Decimal(n))
      case TextField(s) => Counted(s)
      case BytesField(s) => Hex(s)
      case TimeField(s) => Stamp(s)
    }

    /** What the client is to see: None for NULL, otherwise a text. */
    function Text(): Option<seq<Byte>> {
      match this
      case Null => None
      case BoolField(b) => Some(if b then [116, 114, 117, 101] else [102, 97, 108, 115, 101])
      case IntField(n) => Some(Decimal(n))
      case TextField(s) => Some(s)
      case BytesField(s) => Some([92, 120] + HexDigits(s))
      case TimeField(s) => Some(s)
    }
  }

  /** The texts of the fields: t-r-u-e, the decimal digits, and hexadecimal digits behind a backslash and an x. */
  lemma FieldTexts(f: Field)
    ensures f.Text() == match f
                        case Null => None
                        case BoolField(b) => Some(if b then Ascii("true") else Ascii("false"))
                        case IntField(n) => Some(Decimal(n))
                        case TextField(s) => Some(s)
                        case BytesField(s) => Some(Ascii("\\x") + HexDigits(s))
                        case TimeField(s) => Some(s)
  {
    assert [116, 114, 117, 101] == Ascii("true") && [102, 97, 108, 115, 101] == Ascii("false");
    assert [92, 120] == Ascii("\\x");
  }

  /** The pieces of a data message: the number of columns, then the columns. */
  function RowPieces(row: seq<Field>): seq<Piece> {
    [Num16(|row|)] + seq(|row|, i requires 0 <= i < |row| => row[i].Piece())
  }

  predicate SizedRow(row: seq<Field>) {
    forall i :: 0 <= i < |row| ==> row[i].Piece().Sized()
  }

  function DataMessage(row: seq<Field>): Message {
    Message(68, Body(RowPieces(row)))
  }

  function DataMessages(rows: seq<seq<Field>>): seq<Message> {
    seq(|rows|, i requires 0 <= i < |rows| => DataMessage(rows[i]))
  }

  // ---------- what the client reads from a data message ----------

  function ReadFields(bs: seq<Byte>, count: nat): Option<seq<Option<seq<Byte>>>> {
    if count == 0 then (if bs == [] then Some([]) else None)
    else if |bs| < 4 then None
    else
      var length := FromBigEndian(bs[..4]);
      var size := if length == -1 then 0 else length;
      if size < 0 || |bs| < 4 + size then None
      else
        match ReadFields(bs[4 + size..], count - 1)
        case None => None
        case Some(rest) => Some([if length == -1 then None else Some(bs[4..4 + size])] + rest)
  }

  function ReadRow(body: seq<Byte>): Option<seq<Option<seq<Byte>>>> {
    if |body| < 2 || FromBigEndian(body[..2]) < 0 then None
    else ReadFields(body[2..], FromBigEndian(body[..2]))
  }

  function Texts(row: seq<Field>): seq<Option<seq<Byte>>> {
    seq(|row|, i requires 0 <= i < |row| => row[i].Text())
  }

  lemma {:induction false} BodyFromFront(pieces: seq<Piece>)
    requires pieces != []
    ensures Body(pieces) == pieces[0].Image() + Body(pieces[1..])
  {
    hide Piece.Image;
    var (init, last) := (pieces[..|pieces| - 1], pieces[|pieces| - 1]);
    if init != [] {
      BodyFromFront(init);
      var rest := pieces[1..];
      assert init[1..] == rest[..|rest| - 1] && rest[|rest| - 1] == last;
      assert pieces[0].Image() + Body(init[1..]) + last.Image() == pieces[0].Image() + (Body(init[1..]) + last.Image());
    } else {
      assert pieces[1..] == [] && Body(init) == [];
    }
  }

  function FieldPieces(row: seq<Field>): seq<Piece> {
    seq(|row|, i requires 0 <= i < |row| => row[i].Piece())
  }

  /** The columns of a data message: -1 for NULL, otherwise the length and the text. */
  function FieldBytes(row: seq<Field>): seq<Byte> {
    if row == [] then []
    else
      (match row[0].Text()
       case None => [255, 255, 255, 255]
       case Some(text) => BigEndian(|text|, 4) + text)
      + FieldBytes(row[1..])
  }

  lemma FieldImage(f: Field)
    ensures f.Piece().Image() == match f.Text()
                                 case None => [255, 255, 255, 255]
                                 case Some(text) => BigEndian(|text|, 4) + text
  {
    hide HexDigits, Decimal, BigEndian;
    MinusOne();
  }

  lemma MinusOne()
    ensures BigEndian(-1, 4) == [255, 255, 255, 255]
  {
    hide ToBytes;
    FirstPowers();
    AllOnes(4, 0xFFFF_FFFF);
    assert -1 % Pow256(4) == 0xFFFF_FFFF;
  }

  lemma {:induction false} AllOnes(width: nat, n: nat)
    requires n + 1 == Pow256(width)
    ensures ToBytes(n, width) == seq(width, _ => 255)
  {
    if width > 0 {
      AllOnes(width - 1, n / 256);
    }
  }

  lemma {:induction false} FieldsLayout(row: seq<Field>)
    ensures Body(FieldPieces(row)) == FieldBytes(row)
  {
    hide Field.Piece, Field.Text, Piece.Image;
    if row != [] {
      BodyFromFront(FieldPieces(row));
      assert FieldPieces(row)[1..] == FieldPieces(row[1..]);
      FieldImage(row[0]);
      FieldsLayout(row[1..]);
    }
  }

  /** A data message is of the kind `D` and holds the number of columns in two bytes, and the columns. */
  lemma DataMessageLayout(row: seq<Field>)
    ensures DataMessage(row) == Message('D' as int, BigEndian(|row|, 2) + FieldBytes(row))
  {
    BodyFromFront(RowPieces(row));
    assert RowPieces(row)[1..] == FieldPieces(row);
    FieldsLayout(row);
  }

  /** The text of the field is short enough for its 32-bit length. */
  predicate Short(f: Field) {
    f.Text().Some? ==> |f.Text().value| < 0x8000_0000
  }

  lemma FrontOfLength(length: int, text: seq<Byte>, rest: seq<Byte>)
    requires -1 <= length < 0x8000_0000
    ensures var bs := BigEndian(length, 4) + text + rest;
            && |bs| >= 4 + |text| && FromBigEndian(bs[..4]) == length
            && bs[4..4 + |text|] == text && bs[4 + |text|..] == rest
  {
    assert Pow256(2) == 0x1_0000 && Pow256(4) == 0x1_0000 * Pow256(2);
    BigEndianRoundTrip(length, 4);
    assert (BigEndian(length, 4) + text + rest)[..4] == BigEndian(length, 4);
  }

  lemma FrontField(f: Field, rest: seq<Byte>)
    requires Short(f)
    ensures var bs := f.Piece().Image() + rest;
            && |bs| >= 4
            && FromBigEndian(bs[..4]) == (if f == Null then -1 else |f.Text().value|)
            && (f != Null ==> |bs| >= 4 + |f.Text().value| && bs[4..4 + |f.Text().value|] == f.Text().value)
            && bs[|f.Piece().Image()|..] == rest
            && |f.Piece().Image()| == 4 + (if f == Null then 0 else |f.Text().value|)
  {
    hide HexDigits, Decimal, BigEndian, FromBigEndian;
    var length := if f == Null then -1 else |f.Text().value|;
    var text := if f == Null then [] else f.Text().value;
    assert f.Piece().Image() == BigEndian(length, 4) + text;
    FrontOfLength(length, text, rest);
  }

  lemma {:induction false} FieldsRoundTrip(row: seq<Field>)
    requires forall i :: 0 <= i < |row| ==> Short(row[i])
    ensures ReadFields(Body(FieldPieces(row)), |row|) == Some(Texts(row))
  {
    hide Field.Piece, Field.Text, Piece.Image, FromBigEndian;
    if row != [] {
      var rest := Body(FieldPieces(row[1..]));
      BodyFromFront(FieldPieces(row));
      assert FieldPieces(row)[1..] == FieldPieces(row[1..]);
      FrontField(row[0], rest);
      FieldsRoundTrip(row[1..]);
      TextOfNull(row[0]);
      assert Texts(row) == [row[0].Text()] + Texts(row[1..]);
    }
  }

  lemma TextOfNull(f: Field)
    ensures f.Text() == None <==> f == Null
  {
  }

  /** A client reads from a data message the texts of the row's columns, and NULL where it is NULL. */
  lemma RowRoundTrip(row: seq<Field>)
    requires |row| < 0x8000 && forall i :: 0 <= i < |row| ==> Short(row[i])
    ensures ReadRow(DataMessage(row).body) == Some(Texts(row))
  {
    BodyFromFront(RowPieces(row));
    assert RowPieces(row)[1..] == FieldPieces(row);
    FieldsRoundTrip(row);
    assert Pow256(2) == 0x1_0000;
    BigEndianRoundTrip(|row|, 2);
    var body := Body(RowPieces(row));
    assert body[..2] == BigEndian(|row|, 2) && body[2..] == Body(FieldPieces(row));
  }

  /** A client can read the data message of the row: all its lengths are positive numbers of their width. */
  predicate ReadableRow(row: seq<Field>) {
    |row| < 0x8000 && |DataMessage(row).body| + 4 < 0x8000_0000 && forall i :: 0 <= i < |row| ==> Short(row[i])
  }

  /** The digits of a byte string can be read back. */
  function FromDigit(d: Byte): Byte {
    if 48 <= d < 58 then d - 48 else if 65 <= d < 71 then d - 55 else 0
  }

  function FromHex(digits: seq<Byte>): seq<Byte> {
    if |digits| < 2 then []
    else
      FromHex(digits[..|digits| - 2])
      + [(16 * FromDigit(digits[|digits| - 2]) + FromDigit(digits[|digits| - 1])) % 256]
  }

  lemma DigitRoundTrip(d: nat)
    requires d < 16
    ensures FromDigit(DIGITS[d]) == d
  {
  }

  lemma TwoDigits(c: Byte)
    ensures (16 * (c / 16) + c % 16) % 256 == c
  {
  }

  lemma {:induction false} HexRoundTrip(s: seq<Byte>)
    ensures FromHex(HexDigits(s)) == s
  {
    hide FromDigit, DIGITS;
    if s != [] {
      var (init, c) := (s[..|s| - 1], s[|s| - 1]);
      HexRoundTrip(init);
      assert HexDigits(s)[..|HexDigits(s)| - 2] == HexDigits(init);
      DigitRoundTrip(c / 16);
      DigitRoundTrip(c % 16);
      TwoDigits(c);
      assert s == init + [c];
    }
  }

  // ---------- the session ----------

  /** The plan that is being executed, as far as the session sees it. */
  class Results {
    const rows: seq<seq<Field>>
    const columns: nat
    const info: seq<Byte>
    var pos: nat

    constructor (rows: seq<seq<Field>>, columns: nat, info: seq<Byte>)
      requires forall i :: 0 <= i < |rows| ==> |rows[i]| == columns
      ensures this.rows == rows && this.columns == columns && this.info == info && pos == 0
    {
      this.rows, this.columns, this.info, pos := rows, columns, info, 0;
    }

    method Begin()
      modifies `pos
      ensures pos == 0
    {
      pos := 0;
    }

    method Next() returns (ok: bool)
      requires pos <= |rows|
      modifies `pos
      ensures ok == (old(pos) < |rows|) && pos == if ok then old(pos) + 1 else old(pos)
    {
      ok := pos < |rows|;
      if ok {
        pos := pos + 1;
      }
    }
  }

  lemma EmptyStream()
    ensures Stream([]) == []
  {
  }

  lemma ClosingImages(info: seq<Byte>)
    ensures ZeroEnd(info).Image() == info + [0] && Num8(73).Image() == [73]
    ensures ZeroEnd(info).Slack() == 0 && Num8(73).Slack() == 0
  {
  }

  /** What follows the rows. */
  function DoneMessages(parsed: bool, binded: bool, query: bool, info: seq<Byte>): seq<Message> {
    (if parsed then [Message(49, [])] else []) + (if binded then [Message(50, [])] else [])
    + [Message(67, info + [0])] + (if query then [Message(90, [73])] else [])
  }

  lemma {:induction false} PiecesInBody(pieces: seq<Piece>, at: nat, capacity: nat)
    requires HasRoom(pieces, at, capacity)
    ensures at + 5 + |Body(pieces)| <= capacity
    ensures forall i :: 0 <= i < |pieces| ==> |pieces[i].Image()| <= |Body(pieces)|
  {
    hide Piece.Image, Piece.Slack;
    if pieces != [] {
      PiecesInBody(pieces[..|pieces| - 1], at, capacity);
    }
  }

  /** A row that fits a buffer of less than 2^31 bytes can be read. */
  lemma FittingIsReadable(row: seq<Field>, capacity: nat)
    requires HasRoom(RowPieces(row), 0, capacity) && |row| < 0x8000 && capacity < 0x8000_0000
    ensures ReadableRow(row)
  {
    hide Body, Piece.Image, Field.Text, Field.Piece, HasRoom;
    PiecesInBody(RowPieces(row), 0, capacity);
    forall i | 0 <= i < |row| ensures Short(row[i]) {
      assert RowPieces(row)[i + 1] == row[i].Piece();
      ImageOfField(row[i]);
    }
  }

  lemma ImageOfField(f: Field)
    ensures f.Text().Some? ==> |f.Piece().Image()| == 4 + |f.Text().value|
  {
  }

  lemma {:induction false} StreamInTurn(a: seq<Message>, b: seq<Message>)
    ensures Stream(a + b) == Stream(a) + Stream(b)
  {
    hide Frame;
    if b == [] {
      assert a + b == a;
    } else {
      var (init, last) := (b[..|b| - 1], b[|b| - 1]);
      assert (a + b)[..|a + b| - 1] == a + init;
      StreamInTurn(a, init);
      assert Stream(a) + Stream(init) + Frame(last.kind, last.body) ==
             Stream(a) + (Stream(init) + Frame(last.kind, last.body));
    }
  }

  /** What a client reads of a whole statement: a data message for each row, then the closing messages. */
  lemma ClientReadsRows(rows: seq<seq<Field>>, closing: seq<Message>)
    requires forall m :: m in DataMessages(rows) + closing ==> |m.body| + 4 < 0x8000_0000
    ensures ReadMessages(Stream(DataMessages(rows)) + Stream(closing)) == Some(DataMessages(rows) + closing)
  {
    StreamInTurn(DataMessages(rows), closing);
    StreamRoundTrip(DataMessages(rows) + closing);
  }

  /**
   * What a client makes of the bytes of a whole statement: a data message for each row, with the
   * texts of its columns, then that the statement is parsed and bound, as far as it has been,
   * exactly one message that it is complete, and for a simple query a last one that the server
   * is ready. There is nothing else.
   */
  ghost predicate ReadsStatement(bs: seq<Byte>, rows: seq<seq<Field>>, parsed: bool, binded: bool, query: bool,
                                 info: seq<Byte>) {
    match ReadMessages(bs)
    case None => false
    case Some(ms) =>
      var n := |rows|;
      var p := if parsed then n + 1 else n;
      var b := if binded then p + 1 else p;
      && |ms| == (if query then b + 2 else b + 1)
      && (forall i :: 0 <= i < n ==> ms[i].kind == 'D' as int && ReadRow(ms[i].body) == Some(Texts(rows[i])))
      && (parsed ==> ms[n] == Message('1' as int, []))
      && (binded ==> ms[p] == Message('2' as int, []))
      && ms[b] == Message('C' as int, info + [0])
      && (query ==> ms[b + 1] == Message('Z' as int, Ascii("I")))
  }

  /** The bytes of the rows and of the closing messages are read as such a statement. */
  lemma ClientReadsStatement(rows: seq<seq<Field>>, parsed: bool, binded: bool, query: bool, info: seq<Byte>)
    requires forall i :: 0 <= i < |rows| ==> ReadableRow(rows[i])
    requires |info| + 5 < 0x8000_0000
    ensures ReadsStatement(Stream(DataMessages(rows)) + Stream(DoneMessages(parsed, binded, query, info)),
                           rows, parsed, binded, query, info)
  {
    hide Stream, ReadMessages, ReadRow, Body, RowPieces, Texts;
    var closing := DoneMessages(parsed, binded, query, info);
    ClientReadsRows(rows, closing);
    forall i | 0 <= i < |rows| ensures ReadRow(DataMessage(rows[i]).body) == Some(Texts(rows[i])) {
      RowRoundTrip(rows[i]);
    }
    assert [73] == Ascii("I");
  }

  datatype Handler = ExecutionBegin | ExecutionResult | ExecutionDone | MessageType

  class SessionInfo {
    const plan: Results
    const buffer: array<Byte>
    const query: bool
    var parsed: bool
    var binded: bool
    /** All bytes handed to the socket, and the handler that runs when they are out. */
    var sent: seq<Byte>
    var next: Handler

    constructor (plan: Results, buffer: array<Byte>, query: bool, parsed: bool, binded: bool)
      ensures this.plan == plan && this.buffer == buffer && this.query == query
      ensures this.parsed == parsed && this.binded == binded && sent == [] && next == ExecutionBegin
    {
      this.plan, this.buffer, this.query, this.parsed, this.binded := plan, buffer, query, parsed, binded;
      sent, next := [], ExecutionBegin;
    }

    method DoWrite(len: nat, handler: Handler)
      requires len <= buffer.Length
      modifies `sent, `next
      ensures sent == old(sent) + buffer[..len] && next == handler
    {
      sent, next := sent + buffer[..len], handler;
    }

    /** The rows `from` to `to` as the client gets them; a statement without columns sends none. */
    function Sent(from: nat, to: nat): seq<Byte>
      requires from <= to <= |plan.rows|
    {
      if plan.columns == 0 then [] else Stream(DataMessages(plan.rows[from..to]))
    }

    /** The row goes into an empty buffer. */
    predicate Fits(row: seq<Field>) {
      plan.columns == 0 || HasRoom(RowPieces(row), 0, buffer.Length)
    }

    /**
     * Sends rows from the current one on until one does not fit behind the others. The row that
     * did not fit stays the current one; with none left over the statement is done. A row too
     * large for an empty buffer changes nothing, so it would be tried again for ever.
     */
    method HandleExecutionResult()
      requires 0 < plan.pos <= |plan.rows| && forall i :: 0 <= i < |plan.rows| ==> SizedRow(plan.rows[i])
      modifies `sent, `next, plan, buffer
      ensures next in {ExecutionResult, ExecutionDone} && old(plan.pos) <= plan.pos <= |plan.rows|
      ensures next == ExecutionDone ==> plan.pos == |plan.rows|
      ensures sent == old(sent) + Sent(old(plan.pos) - 1, if next == ExecutionDone then |plan.rows| else plan.pos - 1)
      ensures Fits(plan.rows[old(plan.pos) - 1]) <==> next == ExecutionDone || plan.pos > old(plan.pos)
      ensures next == ExecutionResult ==>
                plan.columns > 0 && !HasRoom(RowPieces(plan.rows[plan.pos - 1]), |sent| - |old(sent)|, buffer.Length)
      ensures !Fits(plan.rows[old(plan.pos) - 1]) ==>
              next == ExecutionResult && plan.pos == old(plan.pos) && sent == old(sent)
    {
      hide HasRoom, Sent, SessionInfo.Fits;
      var writer := new PgDataWriter(buffer);
      ghost var (from, to) := (plan.pos - 1, plan.pos - 1);
      NothingSent(from);
      var more := true;
      while more
        invariant writer.Valid() && !writer.bufferFull && writer.written == writer.lastPrepare && writer.data == buffer
        invariant fresh(writer) && unchanged(`sent, `next)
        invariant from <= to <= |plan.rows| && plan.pos == if more then to + 1 else to
        invariant if more then to < |plan.rows| else to == |plan.rows|
        invariant buffer[..writer.lastPrepare] == Sent(from, to)
        invariant if to == from then writer.lastPrepare == 0 else Fits(plan.rows[from])
        decreases more, |plan.rows| - plan.pos
      {
        AddRow(writer, from, to);
        if writer.bufferFull {
          DoWrite(writer.lastPrepare, ExecutionResult);
          return;
        }
        to := to + 1;
        more := plan.Next();
      }
      DoWrite(writer.lastPrepare, ExecutionDone);
    }

    /** The current row behind the others, if it has columns and room. */
    method AddRow(writer: PgDataWriter, ghost from: nat, ghost to: nat)
      requires writer.Valid() && !writer.bufferFull && writer.written == writer.lastPrepare && writer.data == buffer
      requires from <= to < |plan.rows| && plan.pos == to + 1 && SizedRow(plan.rows[to])
      requires buffer[..writer.lastPrepare] == Sent(from, to)
      modifies writer, buffer
      ensures writer.Valid() && old(writer.lastPrepare) <= writer.lastPrepare
      ensures if writer.bufferFull then buffer[..writer.lastPrepare] == Sent(from, to)
              else writer.written == writer.lastPrepare && buffer[..writer.lastPrepare] == Sent(from, to + 1)
      ensures old(writer.lastPrepare) == 0 ==> writer.bufferFull == !Fits(plan.rows[to])
      ensures writer.bufferFull ==> writer.lastPrepare == old(writer.lastPrepare)
      ensures writer.bufferFull ==>
                plan.columns > 0 && !HasRoom(RowPieces(plan.rows[to]), old(writer.lastPrepare), buffer.Length)
    {
      if plan.columns > 0 {
        BuildData(writer, plan.rows[plan.pos - 1]);
        OneMoreRow(from, to);
      }
    }

    lemma NothingSent(from: nat)
      requires from <= |plan.rows|
      ensures Sent(from, from) == []
    {
    }

    lemma OneMoreRow(from: nat, i: nat)
      requires from <= i < |plan.rows| && plan.columns > 0
      ensures Sent(from, i) + Frame(DataMessage(plan.rows[i]).kind, DataMessage(plan.rows[i]).body) == Sent(from, i + 1)
    {
      hide Frame, DataMessage;
      var messages := DataMessages(plan.rows[from..i + 1]);
      assert messages[..|messages| - 1] == DataMessages(plan.rows[from..i]);
    }

    method BuildData(writer: PgDataWriter, row: seq<Field>)
      requires writer.Valid() && writer.written == writer.lastPrepare && SizedRow(row) && writer.data == buffer
      modifies writer, buffer
      ensures writer.Valid() && writer.bufferFull == !HasRoom(RowPieces(row), old(writer.lastPrepare), buffer.Length)
      ensures if writer.bufferFull then
                && writer.lastPrepare == old(writer.lastPrepare)
                && buffer[..writer.lastPrepare] == old(buffer[..writer.lastPrepare])
              else
                && writer.written == writer.lastPrepare
                && buffer[..writer.lastPrepare] ==
                   old(buffer[..writer.lastPrepare]) + Frame(DataMessage(row).kind, DataMessage(row).body)
    {
      writer.WriteMessage(68, RowPieces(row));
    }

    lemma RowsInTurn(i: nat, j: nat)
      requires i <= j <= |plan.rows|
      ensures Sent(0, i) + Sent(i, j) == Sent(0, j)
    {
      hide DataMessage;
      assert plan.rows[0..j] == plan.rows[0..i] + plan.rows[i..j];
      assert DataMessages(plan.rows[0..j]) == DataMessages(plan.rows[0..i]) + DataMessages(plan.rows[i..j]);
      StreamInTurn(DataMessages(plan.rows[0..i]), DataMessages(plan.rows[i..j]));
    }

    /** The messages after the rows have room in the buffer. */
    predicate DoneFits() {
      |plan.info| + 22 <= buffer.Length && |plan.info| + 1 < 0x1_0000_0000
    }

    /** Lengths and the number of columns are positive numbers of 32 and 16 bits. */
    predicate SmallNumbers() {
      buffer.Length < 0x8000_0000 && forall i :: 0 <= i < |plan.rows| ==> |plan.rows[i]| < 0x8000
    }

    lemma StatementIsRead(parsed: bool, binded: bool)
      requires DoneFits() && SmallNumbers() && forall i :: 0 <= i < |plan.rows| ==> Fits(plan.rows[i])
      ensures ReadsStatement(Sent(0, |plan.rows|) + Stream(DoneMessages(parsed, binded, query, plan.info)),
                             if plan.columns == 0 then [] else plan.rows, parsed, binded, query, plan.info)
    {
      hide Stream, DoneMessages, ReadsStatement, HasRoom, ReadableRow;
      assert plan.rows[0..|plan.rows|] == plan.rows;
      EmptyStream();
      assert DataMessages([]) == [];
      var rows := if plan.columns == 0 then [] else plan.rows;
      forall i | 0 <= i < |rows| ensures ReadableRow(rows[i]) {
        FittingIsReadable(rows[i], buffer.Length);
      }
      ClientReadsStatement(rows, parsed, binded, query, plan.info);
    }

    method HandleExecutionDone()
      requires DoneFits()
      modifies `sent, `next, `parsed, `binded, buffer
      ensures sent == old(sent) + Stream(DoneMessages(old(parsed), old(binded), query, plan.info))
      ensures buffer.Length < 0x8000_0000 ==>
                ReadsStatement(sent[|old(sent)|..], [], old(parsed), old(binded), query, plan.info)
      ensures !parsed && !binded && next == MessageType
    {
      hide Stream, DoneMessages, ReadsStatement;
      ghost var closing := Stream(DoneMessages(parsed, binded, query, plan.info));
      if buffer.Length < 0x8000_0000 {
        EmptyStream();
        assert DataMessages([]) == [] && [] + closing == closing;
        ClientReadsStatement([], parsed, binded, query, plan.info);
      }
      var len := BuildExecutionDone();
      parsed, binded := false, false;
      DoWrite(len, MessageType);
      assert sent[|old(sent)|..] == closing;
    }

    method BuildExecutionDone() returns (len: nat)
      requires DoneFits()
      modifies buffer
      ensures len <= buffer.Length && buffer[..len] == Stream(DoneMessages(parsed, binded, query, plan.info))
    {
      hide Stream, Body, Piece.Image;
      BodyOfPiece(ZeroEnd(plan.info));
      BodyOfPiece(Num8(73));
      ClosingImages(plan.info);
      var writer := new PgDataWriter(buffer);
      ghost var messages := [];
      EmptyStream();
      if parsed {
        AddMessage(writer, 49, [], messages);
        messages := messages + [Message(49, [])];
      }
      if binded {
        AddMessage(writer, 50, [], messages);
        messages := messages + [Message(50, [])];
      }
      AddMessage(writer, 67, [ZeroEnd(plan.info)], messages);
      messages := messages + [Message(67, plan.info + [0])];
      if query {
        AddMessage(writer, 90, [Num8(73)], messages);
        messages := messages + [Message(90, [73])];
      }
      assert messages == DoneMessages(parsed, binded, query, plan.info);
      len := writer.lastPrepare;
    }

    /** One of the short messages at the end. */
    method AddMessage(writer: PgDataWriter, kind: Byte, pieces: seq<Piece>, ghost messages: seq<Message>)
      requires writer.Valid() && !writer.bufferFull && writer.written == writer.lastPrepare && writer.data == buffer
      requires buffer[..writer.lastPrepare] == Stream(messages) && |pieces| <= 1
      requires forall i :: 0 <= i < |pieces| ==> pieces[i].Sized() && pieces[i].Slack() == 0
      requires writer.lastPrepare + 5 + |Body(pieces)| <= buffer.Length
      modifies writer, buffer
      ensures writer.Valid() && !writer.bufferFull && writer.written == writer.lastPrepare
      ensures writer.lastPrepare == old(writer.lastPrepare) + 5 + |Body(pieces)|
      ensures buffer[..writer.lastPrepare] == Stream(messages + [Message(kind, Body(pieces))])
    {
      ghost var body := Body(pieces);
      assert HasRoom(pieces, writer.lastPrepare, buffer.Length) by {
        if |pieces| == 1 {
          assert pieces[..0] == [];
        }
      }
      writer.WriteMessage(kind, pieces);
      assert (messages + [Message(kind, body)])[..|messages|] == messages;
    }

    method HandleExecutionBegin()
      requires DoneFits() && forall i :: 0 <= i < |plan.rows| ==> SizedRow(plan.rows[i])
      modifies `sent, `next, `parsed, `binded, plan, buffer
      ensures next != ExecutionBegin && Progressing(old(sent), old(parsed), old(binded))
    {
      plan.Begin();
      var more := plan.Next();
      if more {
        HandleExecutionResult();
        assert sent == old(sent) + Sent(0, if next == ExecutionDone then |plan.rows| else plan.pos - 1);
      } else {
        NothingSent(0);
        HandleExecutionDone();
        assert sent == old(sent) + Sent(0, 0) + Stream(DoneMessages(old(parsed), old(binded), query, plan.info));
      }
    }

    /** How far a statement has come since the bytes `was` were out. */
    ghost predicate Progressing(was: seq<Byte>, parsed: bool, binded: bool)
      reads this, plan
    {
      match next
      case ExecutionBegin => true
      case ExecutionResult =>
        && 0 < plan.pos <= |plan.rows| && sent == was + Sent(0, plan.pos - 1)
        && this.parsed == parsed && this.binded == binded
      case ExecutionDone =>
        sent == was + Sent(0, |plan.rows|) && this.parsed == parsed && this.binded == binded
      case MessageType =>
        && sent == was + Sent(0, |plan.rows|) + Stream(DoneMessages(parsed, binded, query, plan.info))
        && !this.parsed && !this.binded
    }

    /**
     * The handlers of a statement one after the other. However often the buffer is flushed, the
     * client gets one data message for each row in their order and then the closing messages.
     */
    method Execute()
      requires DoneFits() && forall i :: 0 <= i < |plan.rows| ==> SizedRow(plan.rows[i]) && Fits(plan.rows[i])
      modifies `sent, `next, `parsed, `binded, plan, buffer
      ensures next == MessageType && !parsed && !binded
      ensures sent ==
              old(sent) + Sent(0, |plan.rows|) + Stream(DoneMessages(old(parsed), old(binded), query, plan.info))
      ensures SmallNumbers() ==>
                ReadsStatement(sent[|old(sent)|..], if plan.columns == 0 then [] else plan.rows,
                               old(parsed), old(binded), query, plan.info)
    {
      hide ReadsStatement, SmallNumbers, SessionInfo.Fits, SizedRow, DoneMessages, Stream, Sent;
      if SmallNumbers() {
        StatementIsRead(parsed, binded);
      }
      HandleExecutionBegin();
      while next != MessageType
        invariant next != ExecutionBegin && Progressing(old(sent), old(parsed), old(binded))
        decreases Rank(), |plan.rows| - plan.pos
      {
        HandleNext(old(sent), old(parsed), old(binded));
      }
      ghost var closing := Stream(DoneMessages(old(parsed), old(binded), query, plan.info));
      assert sent[|old(sent)|..] == Sent(0, |plan.rows|) + closing;
    }

    function Rank(): nat
      reads `next
    {
      if next == ExecutionResult then 2 else if next == ExecutionDone then 1 else 0
    }

    method HandleNext(ghost was: seq<Byte>, ghost parsed: bool, ghost binded: bool)
      requires DoneFits() && forall i :: 0 <= i < |plan.rows| ==> SizedRow(plan.rows[i]) && Fits(plan.rows[i])
      requires next in {ExecutionResult, ExecutionDone} && Progressing(was, parsed, binded)
      modifies `sent, `next, `parsed, `binded, plan, buffer
      ensures next != ExecutionBegin && Progressing(was, parsed, binded)
      ensures Rank() < old(Rank()) || (Rank() == old(Rank()) && old(plan.pos) < plan.pos <= |plan.rows|)
    {
      hide Sent, Stream, SessionInfo.Fits, SizedRow;
      if next == ExecutionResult {
        ghost var done := plan.pos - 1;
        HandleExecutionResult();
        ghost var now := if next == ExecutionDone then |plan.rows| else plan.pos - 1;
        RowsInTurn(done, now);
        assert was + Sent(0, done) + Sent(done, now) == was + (Sent(0, done) + Sent(done, now));
      } else {
        HandleExecutionDone();
      }
    }
  }
}
