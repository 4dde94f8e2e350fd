/** Error messages to the client (`buildException` in server/PostgresProtocol.cpp). */
module Protocol {
  import opened Seqs
  import opened Values
  import opened RowCodec
  import opened PgWriter

  const SEVERITY: seq<Byte> := [69, 82, 82, 79, 82]
  const SQLSTATE: seq<Byte> := [48, 48, 48, 48, 48]

  /** Severity, code and text of an error, with its position in the statement when there is one. */
  function ErrorPieces(text: seq<Byte>, startPos: int): seq<Piece> {
    [Num8(83)] + [ZeroEnd(SEVERITY)] + [Num8(67)] + [ZeroEnd(SQLSTATE)] + [Num8(77)] + [ZeroEnd(text)]
    + (if startPos >= 0 then [Num8(80)] + [ZeroEnd(Decimal(startPos))] else []) + [Num8(0)]
  }

  /** Ready for the next query. */
  const READY: seq<Piece> := [Num8(73)]

  function ExceptionMessages(text: seq<Byte>, startPos: int, sync: bool): seq<Message> {
    [Message(69, Body(ErrorPieces(text, startPos)))] + if sync then [Message(90, Body(READY))] else []
  }

  /** Both messages have room one behind the other. */
  predicate BothFit(capacity: nat, text: seq<Byte>, startPos: int, sync: bool) {
    var pieces := ErrorPieces(text, startPos);
    HasRoom(pieces, 0, capacity) && (sync ==> HasRoom(READY, 5 + |Body(pieces)|, capacity))
  }

  /** The error message overflows, and behind what it leaves there is room for the one that follows. */
  predicate Forgets(capacity: nat, text: seq<Byte>, startPos: int, sync: bool) {
    var pieces := ErrorPieces(text, startPos);
    sync && !HasRoom(pieces, 0, capacity) && HasRoom(READY, Reached(pieces, 0, capacity), capacity)
  }

  /** The text that the client gets: cut short when it is too long for the buffer. */
  function Delivered(capacity: nat, text: seq<Byte>, startPos: int, sync: bool): seq<Byte>
    requires capacity >= 100
  {
    if BothFit(capacity, text, startPos, sync) || |text| < capacity - 100 then text else text[..capacity - 100]
  }

  // ---------- sizes ----------

  lemma {:induction false} RoomIsSize(pieces: seq<Piece>, at: nat, capacity: nat)
    requires forall i :: 0 <= i < |pieces| ==> pieces[i].Slack() == 0
    ensures HasRoom(pieces, at, capacity) <==> at + 5 + |Body(pieces)| <= capacity
  {
    if pieces != [] {
      RoomIsSize(pieces[..|pieces| - 1], at, capacity);
    }
  }

  lemma BodyAppend(pieces: seq<Piece>, piece: Piece)
    ensures Body(pieces + [piece]) == Body(pieces) + piece.Image()
  {
    hide Piece.Image;
    assert (pieces + [piece])[..|pieces|] == pieces;
  }

  lemma {:induction false} DecimalLength(n: nat, k: nat)
    requires k > 0 && n < Pow10(k)
    ensures |Decimal(n)| <= k
  {
    if n >= 10 {
      DecimalLength(n / 10, k - 1);
    }
  }

  lemma PositionIsShort(startPos: nat)
    requires startPos < 0x8000_0000
    ensures |Decimal(startPos)| <= 10
  {
    assert Pow10(3) == 1000 && Pow10(6) == 1000 * Pow10(3) && Pow10(9) == 1000 * Pow10(6) && Pow10(10) == 10 * Pow10(9);
    DecimalLength(startPos, 10);
  }

  /** The pieces before the text. */
  function BeforeText(): seq<Piece> {
    [Num8(83)] + [ZeroEnd(SEVERITY)] + [Num8(67)] + [ZeroEnd(SQLSTATE)] + [Num8(77)]
  }

  lemma OneByte(n: Byte)
    ensures Num8(n).Image() == [n]
  {
    assert Pow256(1) == 256 && ToBytes(n, 1) == [n] + ToBytes(0, 0);
  }

  lemma BeforeTextBody()
    ensures Body(BeforeText()) == [83] + SEVERITY + [0] + [67] + SQLSTATE + [0] + [77]
  {
    hide Body, Piece.Image;
    OneByte(83);
    OneByte(67);
    OneByte(77);
    TextAndZero(SEVERITY);
    TextAndZero(SQLSTATE);
    BodyAppend([], Num8(83));
    NothingInBody();
    BodyAppend([Num8(83)], ZeroEnd(SEVERITY));
    BodyAppend([Num8(83)] + [ZeroEnd(SEVERITY)], Num8(67));
    BodyAppend([Num8(83)] + [ZeroEnd(SEVERITY)] + [Num8(67)], ZeroEnd(SQLSTATE));
    BodyAppend([Num8(83)] + [ZeroEnd(SEVERITY)] + [Num8(67)] + [ZeroEnd(SQLSTATE)], Num8(77));
    assert [] + [Num8(83)] == [Num8(83)];
  }

  lemma TextAndZero(s: seq<Byte>)
    ensures ZeroEnd(s).Image() == s + [0]
  {
  }

  lemma NothingInBody()
    ensures Body([]) == []
  {
  }

  lemma BeforeTextSize()
    ensures |Body(BeforeText())| == 15
  {
    BeforeTextBody();
  }

  lemma ErrorSize(text: seq<Byte>, startPos: int)
    requires startPos < 0x8000_0000
    ensures |text| + 17 <= |Body(ErrorPieces(text, startPos))| <= |text| + 29
  {
    hide Decimal, Body, Piece.Image;
    var front := BeforeText();
    var named := front + [ZeroEnd(text)];
    BeforeTextSize();
    BodyAppend(front, ZeroEnd(text));
    ImageSizes(text);
    if startPos >= 0 {
      var placed := named + [Num8(80)] + [ZeroEnd(Decimal(startPos))];
      PositionIsShort(startPos);
      ImageSizes(Decimal(startPos));
      BodyAppend(named, Num8(80));
      BodyAppend(named + [Num8(80)], ZeroEnd(Decimal(startPos)));
      BodyAppend(placed, Num8(0));
      assert ErrorPieces(text, startPos) == placed + [Num8(0)];
    } else {
      BodyAppend(named, Num8(0));
      assert ErrorPieces(text, startPos) == named + [Num8(0)];
    }
  }

  lemma ImageSizes(s: seq<Byte>)
    ensures |ZeroEnd(s).Image()| == |s| + 1 && forall n :: |Num8(n).Image()| == 1
  {
  }

  lemma ErrorPiecesAreWhole(text: seq<Byte>, startPos: int)
    requires |text| + 1 < 0x1_0000_0000 && startPos < 0x8000_0000
    ensures forall p :: p in ErrorPieces(text, startPos) ==> p.Sized() && p.Whole() && p.Slack() == 0
  {
    if startPos >= 0 {
      PositionIsShort(startPos);
    }
  }

  lemma ReadySize()
    ensures Body(READY) == [73] && READY[0].Sized()
    ensures forall at, capacity :: HasRoom(READY, at, capacity) <==> at + 6 <= capacity
  {
    BodyAppend([], Num8(73));
    assert [] + READY == READY && Num8(73).Image() == [73];
    forall at, capacity ensures HasRoom(READY, at, capacity) <==> at + 6 <= capacity {
      RoomIsSize(READY, at, capacity);
    }
  }

  /** A text that is a hundred bytes shorter than the buffer fits, with everything around it. */
  lemma ShortTextFits(capacity: nat, text: seq<Byte>, startPos: int, sync: bool)
    requires capacity >= 100 && |text| + 1 < 0x1_0000_0000 && startPos < 0x8000_0000 && |text| <= capacity - 100
    ensures BothFit(capacity, text, startPos, sync)
  {
    ErrorSize(text, startPos);
    ErrorPiecesAreWhole(text, startPos);
    RoomIsSize(ErrorPieces(text, startPos), 0, capacity);
    ReadySize();
  }

  // ---------- what the client makes of the bytes ----------

  lemma StreamOfTwo(text: seq<Byte>, startPos: int, sync: bool)
    ensures Stream(ExceptionMessages(text, startPos, sync)) ==
            Frame(69, Body(ErrorPieces(text, startPos))) + if sync then Frame(90, Body(READY)) else []
  {
    hide ErrorPieces, Frame, Body;
    var (e, z) := (Message(69, Body(ErrorPieces(text, startPos))), Message(90, Body(READY)));
    assert [e][..0] == [] && ([e] + [z])[..1] == [e] && [e] + [] == [e];
    assert Stream([e]) == Stream([]) + Frame(e.kind, e.body);
  }

  /** The body of an error message: fields named by a letter, each text with a zero behind it, and a last zero. */
  function ErrorBody(text: seq<Byte>, startPos: int): seq<Byte> {
    Ascii("SERROR") + [0] + Ascii("C00000") + [0] + Ascii("M") + text + [0]
    + (if startPos >= 0 then Ascii("P") + Decimal(startPos) + [0] else []) + [0]
  }

  lemma FieldNames()
    ensures [83] + SEVERITY == Ascii("SERROR") && [67] + SQLSTATE == Ascii("C00000")
    ensures [77] == Ascii("M") && [80] == Ascii("P") && [73] == Ascii("I")
  {
  }

  lemma ErrorBodyIs(text: seq<Byte>, startPos: int)
    ensures Body(ErrorPieces(text, startPos)) == ErrorBody(text, startPos)
  {
    hide Decimal, Body, Ascii, Piece.Image;
    TextAndZero(text);
    var named := BeforeText() + [ZeroEnd(text)];
    BeforeTextBody();
    FieldNames();
    BodyAppend(BeforeText(), ZeroEnd(text));
    OneByte(0);
    if startPos >= 0 {
      OneByte(80);
      TextAndZero(Decimal(startPos));
      BodyAppend(named, Num8(80));
      BodyAppend(named + [Num8(80)], ZeroEnd(Decimal(startPos)));
      BodyAppend(named + [Num8(80)] + [ZeroEnd(Decimal(startPos))], Num8(0));
      assert ErrorPieces(text, startPos) == named + [Num8(80)] + [ZeroEnd(Decimal(startPos))] + [Num8(0)];
    } else {
      BodyAppend(named, Num8(0));
      assert ErrorPieces(text, startPos) == named + [Num8(0)];
    }
  }

  /** A client reads the error with its text and position, and then that the server is ready for the next query. */
  lemma ClientReadsError(text: seq<Byte>, startPos: int, sync: bool)
    requires startPos < 0x8000_0000 && |text| + 33 < 0x8000_0000
    ensures ReadMessages(Stream(ExceptionMessages(text, startPos, sync))) ==
            Some([Message('E' as int, ErrorBody(text, startPos))]
                 + if sync then [Message('Z' as int, Ascii("I"))] else [])
  {
    hide Stream, Body, ErrorPieces, ErrorBody;
    ErrorBodyIs(text, startPos);
    ErrorSize(text, startPos);
    ReadySize();
    FieldNames();
    StreamRoundTrip(ExceptionMessages(text, startPos, sync));
  }

  /**
   * Bytes with one length over all of them are not an error message with another message behind
   * it: a client takes them for a single message.
   */
  lemma OneLengthOverAll(bs: seq<Byte>, text: seq<Byte>, startPos: int)
    requires 5 <= |bs| < 0x8000_0000
    ensures Patched(bs, 0) != Stream(ExceptionMessages(text, startPos, true))
  {
    hide ErrorPieces;
    StreamOfTwo(text, startPos, true);
    ReadySize();
    var (body, all) := (Body(ErrorPieces(text, startPos)), Patched(bs, 0));
    if all == Stream(ExceptionMessages(text, startPos, true)) {
      FrontMessage(Message(69, body), Frame(90, Body(READY)));
      assert all[1..5] == BigEndian(|bs| - 1, 4);
      assert Pow256(2) == 0x1_0000 && Pow256(4) == 0x1_0000 * Pow256(2);
      BigEndianRoundTrip(|bs| - 1, 4);
    }
  }

  /** After the first piece without room nothing more is written. */
  lemma {:induction false} ReachedStays(pieces: seq<Piece>, k: nat, at: nat, capacity: nat)
    requires k < |pieces| && HasRoom(pieces[..k], at, capacity) && !HasRoom(pieces[..k + 1], at, capacity)
    ensures !HasRoom(pieces, at, capacity) && Reached(pieces, at, capacity) == at + 5 + |Body(pieces[..k])|
  {
    var init := pieces[..|pieces| - 1];
    if k + 1 == |pieces| {
      assert pieces[..k + 1] == pieces;
    } else {
      assert init[..k] == pieces[..k] && init[..k + 1] == pieces[..k + 1];
      ReachedStays(init, k, at, capacity);
    }
  }

  /** A text that does not go into the buffer is forgotten whenever the ready message follows. */
  lemma LongTextIsForgotten(capacity: nat, text: seq<Byte>, startPos: int)
    requires capacity >= 100 && |text| >= capacity - 20 && startPos < 0x8000_0000 && |text| + 1 < 0x1_0000_0000
    ensures Forgets(capacity, text, startPos, true) && Reached(ErrorPieces(text, startPos), 0, capacity) == 20
  {
    var (pieces, front) := (ErrorPieces(text, startPos), BeforeText());
    ErrorPiecesAreWhole(text, startPos);
    BeforeTextSize();
    BodyAppend(front, ZeroEnd(text));
    assert pieces[..5] == front && pieces[..6] == front + [ZeroEnd(text)];
    RoomIsSize(front, 0, capacity);
    RoomIsSize(front + [ZeroEnd(text)], 0, capacity);
    ReachedStays(pieces, 5, 0, capacity);
    ReadySize();
  }

  /** What is prepared when both messages have room, one behind the other. */
  lemma BothPrepared(error: seq<Byte>, both: seq<Byte>, text: seq<Byte>, startPos: int, sync: bool)
    requires error == [] + Frame(69, Body(ErrorPieces(text, startPos)))
    requires both == if sync then error + Frame(90, Body(READY)) else error
    ensures both == Stream(ExceptionMessages(text, startPos, sync))
  {
    hide ErrorPieces, Frame, Body;
    StreamOfTwo(text, startPos, sync);
  }

  /** A message that begins behind the rest of the first one gets a length over all of it. */
  lemma OneLengthOverRest(rest: seq<Byte>, both: seq<Byte>, startPos: int)
    requires both == Patched(rest + Opening(90) + Body(READY), 0) && |both| < 0x8000_0000
    ensures IsNoException(both, startPos)
  {
    ReadySize();
    forall t ensures both != Stream(ExceptionMessages(t, startPos, true)) {
      OneLengthOverAll(rest + Opening(90) + Body(READY), t, startPos);
    }
  }

  /** Not an error message followed by the one that says ready, whatever the text. */
  ghost predicate IsNoException(bs: seq<Byte>, startPos: int) {
    forall t :: bs != Stream(ExceptionMessages(t, startPos, true))
  }

  lemma RoomForBoth(capacity: nat, text: seq<Byte>, startPos: int, sync: bool, rest: nat)
    requires |text| + 1 < 0x1_0000_0000 && startPos < 0x8000_0000 && 5 <= capacity
    requires var pieces := ErrorPieces(text, startPos);
             if HasRoom(pieces, 0, capacity) then rest == 5 + |Body(pieces)| else rest == Reached(pieces, 0, capacity)
    ensures BothFit(capacity, text, startPos, sync) <==>
            HasRoom(ErrorPieces(text, startPos), 0, capacity) && (sync ==> HasRoom(READY, rest, capacity))
    ensures Forgets(capacity, text, startPos, sync) <==>
            !HasRoom(ErrorPieces(text, startPos), 0, capacity) && sync && HasRoom(READY, rest, capacity)
  {
    hide ErrorPieces, HasRoom, Reached, Body;
  }

  /** Both messages through one writer; false when its flag is set at the end. */
  method WriteBoth(buffer: array<Byte>, text: seq<Byte>, startPos: int, sync: bool) returns (ok: bool, len: nat)
    requires 100 <= buffer.Length < 0x8000_0000 && |text| + 1 < 0x1_0000_0000 && startPos < 0x8000_0000
    modifies buffer
    ensures len <= buffer.Length
    ensures ok == (BothFit(buffer.Length, text, startPos, sync) || Forgets(buffer.Length, text, startPos, sync))
    ensures BothFit(buffer.Length, text, startPos, sync) ==>
              buffer[..len] == Stream(ExceptionMessages(text, startPos, sync))
    ensures Forgets(buffer.Length, text, startPos, sync) ==> sync && IsNoException(buffer[..len], startPos)
  {
    hide ErrorPieces, Frame, Body, Patched, BothFit, Forgets, Stream, IsNoException, ExceptionMessages;
    var pieces := ErrorPieces(text, startPos);
    var writer := new PgDataWriter(buffer);
    ErrorPiecesAreWhole(text, startPos);
    ReadySize();
    assert buffer[..0] == [];
    writer.WriteMessage(69, pieces);
    ghost var (error, rest) := (buffer[..writer.lastPrepare], buffer[..writer.written]);
    RoomForBoth(buffer.Length, text, startPos, sync, writer.written);
    if sync {
      writer.WriteMessage(90, READY);
    }
    ok, len := !writer.bufferFull, writer.lastPrepare;
    if BothFit(buffer.Length, text, startPos, sync) {
      BothPrepared(error, buffer[..len], text, startPos, sync);
    } else if ok {
      OneLengthOverRest(rest, buffer[..len], startPos);
    }
  }

  /**
   * Builds the error message and, with `sync`, the one that says ready; when the buffer is full,
   * again with a shorter text. The client gets both messages as they should be exactly when the
   * first one has not overflowed and been forgotten over the second, which clears the flag.
   */
  method BuildException(buffer: array<Byte>, text: seq<Byte>, startPos: int, sync: bool) returns (len: nat)
    requires 100 <= buffer.Length < 0x8000_0000 && |text| + 1 < 0x1_0000_0000 && startPos < 0x8000_0000
    modifies buffer
    ensures len <= buffer.Length
    ensures buffer[..len] == Stream(ExceptionMessages(Delivered(buffer.Length, text, startPos, sync), startPos, sync))
            <==> !Forgets(buffer.Length, text, startPos, sync)
    ensures Forgets(buffer.Length, text, startPos, sync) ==> IsNoException(buffer[..len], startPos)
    decreases |text|
  {
    hide ErrorPieces, BothFit, Forgets, Stream, ExceptionMessages;
    var ok;
    ok, len := WriteBoth(buffer, text, startPos, sync);
    NotBoth(buffer.Length, text, startPos, sync);
    if !ok {
      if |text| <= buffer.Length - 100 {
        ShortTextFits(buffer.Length, text, startPos, sync);
        assert false;
      }
      var short := text[..buffer.Length - 100];
      ShortTextFits(buffer.Length, short, startPos, sync);
      NotBoth(buffer.Length, short, startPos, sync);
      len := BuildException(buffer, short, startPos, sync);
    }
  }

  lemma NotBoth(capacity: nat, text: seq<Byte>, startPos: int, sync: bool)
    ensures !(BothFit(capacity, text, startPos, sync) && Forgets(capacity, text, startPos, sync))
  {
  }
}
