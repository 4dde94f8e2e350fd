/**
 * Reading the lines of a separated file: a tokenizer that compacts the line in place while the
 * tokens already taken point into it (execution/ReadFilePlan.cpp, execution/ReadFilePlan.h).
 */
module ReadFile {
  import opened Seqs
  import opened Values

  const QUOTE: Byte := 34

  datatype ParseState = OutOfQuote | BeginQuote | InQuote

  // ---------- the tokenizer with a buffer of its own for the token ----------

  /** The state after a character, and whether the character goes into the token; no separator. */
  function Step(state: ParseState, c: Byte): (ParseState, bool) {
    match state
    case OutOfQuote => if c == QUOTE then (BeginQuote, false) else (OutOfQuote, true)
    case BeginQuote => if c == QUOTE then (OutOfQuote, true) else (InQuote, true)
    case InQuote => if c == QUOTE then (OutOfQuote, false) else (InQuote, true)
  }

  predicate Ends(state: ParseState, c: Byte, separator: Byte) {
    state == OutOfQuote && c != QUOTE && c == separator
  }

  /** The next `left` tokens at most; `token` is what the current one has so far. */
  function Tokens(text: seq<Byte>, separator: Byte, state: ParseState, token: seq<Byte>, left: nat)
    : (ts: seq<seq<Byte>>)
    ensures |ts| <= left
  {
    if left == 0 then []
    else if text == [] then [token]
    else if Ends(state, text[0], separator) then [token] + Tokens(text[1..], separator, OutOfQuote, [], left - 1)
    else
      var (now, kept) := Step(state, text[0]);
      Tokens(text[1..], separator, now, if kept then token + [text[0]] else token, left)
  }

  /** One field for each column: missing ones are empty, extra ones ignored. */
  function Fields(line: seq<Byte>, separator: Byte, columns: nat): (fs: seq<seq<Byte>>)
    ensures |fs| == columns
  {
    var ts := Tokens(line, separator, OutOfQuote, [], columns);
    ts + seq(columns - |ts|, _ => [])
  }

  // ---------- what lines mean ----------

  function Split(text: seq<Byte>, separator: Byte): (parts: seq<seq<Byte>>)
    ensures parts != []
  {
    if text == [] then [[]]
    else
      var rest := Split(text[1..], separator);
      if text[0] == separator then [[]] + rest else [[text[0]] + rest[0]] + rest[1..]
  }

  function Take<T>(s: seq<T>, n: nat): seq<T> {
    if n <= |s| then s[..n] else s
  }

  /** Without a quote a line is split at its separators. */
  lemma {:induction false} PlainTokens(text: seq<Byte>, separator: Byte, token: seq<Byte>, left: nat)
    requires QUOTE !in text && left > 0
    ensures var parts := Split(text, separator);
            Tokens(text, separator, OutOfQuote, token, left) == Take([token + parts[0]] + parts[1..], left)
  {
    if text == [] {
      assert token + [] == token;
    } else {
      var rest := Split(text[1..], separator);
      if text[0] == separator {
        assert token + [] == token && [[]] + rest[1..] == [[]] + rest[1..];
        assert ([token] + rest)[1..] == rest;
        if left > 1 {
          PlainTokens(text[1..], separator, [], left - 1);
          assert [] + rest[0] == rest[0] && [rest[0]] + rest[1..] == rest;
          assert [token] + Take(rest, left - 1) == Take([token] + rest, left);
        }
      } else {
        PlainTokens(text[1..], separator, token + [text[0]], left);
        assert token + [text[0]] + rest[0] == token + ([text[0]] + rest[0]);
      }
    }
  }

  /** The fields of a line without quotes: the parts between its separators, as many as there are columns. */
  lemma PlainLine(line: seq<Byte>, separator: Byte, columns: nat)
    requires QUOTE !in line
    ensures forall i :: 0 <= i < columns ==>
              Fields(line, separator, columns)[i] ==
                if i < |Split(line, separator)| then Split(line, separator)[i] else []
  {
    var parts := Split(line, separator);
    if columns > 0 {
      PlainTokens(line, separator, [], columns);
      assert [] + parts[0] == parts[0] && [parts[0]] + parts[1..] == parts;
    }
  }

  function EscapeChar(c: Byte, separator: Byte): seq<Byte> {
    if c == QUOTE then [QUOTE, QUOTE] else if c == separator then [QUOTE, separator, QUOTE] else [c]
  }

  /** A text that stands for the field: quotes doubled, separators between quotes. */
  function Escape(field: seq<Byte>, separator: Byte): seq<Byte> {
    if field == [] then [] else EscapeChar(field[0], separator) + Escape(field[1..], separator)
  }

  function Line(fields: seq<seq<Byte>>, separator: Byte): seq<Byte> {
    if fields == [] then []
    else if |fields| == 1 then Escape(fields[0], separator)
    else Escape(fields[0], separator) + [separator] + Line(fields[1..], separator)
  }

  lemma EscapedChar(c: Byte, separator: Byte, more: seq<Byte>, token: seq<Byte>, left: nat)
    requires separator != QUOTE && left > 0
    ensures Tokens(EscapeChar(c, separator) + more, separator, OutOfQuote, token, left) ==
            Tokens(more, separator, OutOfQuote, token + [c], left)
  {
    var text := EscapeChar(c, separator) + more;
    if c == QUOTE {
      TokensStep(text, separator, OutOfQuote, token, left);
      assert text[1..] == [QUOTE] + more;
      TokensStep(text[1..], separator, BeginQuote, token, left);
      assert text[1..][1..] == more;
    } else if c == separator {
      TokensStep(text, separator, OutOfQuote, token, left);
      assert text[1..] == [separator, QUOTE] + more;
      TokensStep(text[1..], separator, BeginQuote, token, left);
      assert text[1..][1..] == [QUOTE] + more;
      TokensStep(text[1..][1..], separator, InQuote, token + [c], left);
      assert text[1..][1..][1..] == more;
    } else {
      TokensStep(text, separator, OutOfQuote, token, left);
      assert text[1..] == more;
    }
  }

  /** One character that does not end the token. */
  lemma TokensStep(text: seq<Byte>, separator: Byte, state: ParseState, token: seq<Byte>, left: nat)
    requires text != [] && left > 0 && !Ends(state, text[0], separator)
    ensures var (now, kept) := Step(state, text[0]);
            Tokens(text, separator, state, token, left) ==
            Tokens(text[1..], separator, now, if kept then token + [text[0]] else token, left)
  {
  }

  lemma {:induction false} EscapedToken(field: seq<Byte>, separator: Byte, rest: seq<Byte>, token: seq<Byte>, left: nat)
    requires separator != QUOTE && left > 0
    ensures Tokens(Escape(field, separator) + rest, separator, OutOfQuote, token, left) ==
            Tokens(rest, separator, OutOfQuote, token + field, left)
  {
    hide Tokens, EscapeChar;
    if field == [] {
      assert Escape(field, separator) + rest == rest && token + [] == token;
    } else {
      var (c, more) := (field[0], Escape(field[1..], separator) + rest);
      assert Escape(field, separator) + rest == EscapeChar(c, separator) + more;
      EscapedChar(c, separator, more, token, left);
      EscapedToken(field[1..], separator, rest, token + [c], left);
      assert token + [c] + field[1..] == token + field;
    }
  }

  /** Every row of fields has a line: escaped and joined, the fields are read back. */
  lemma {:induction false} LineRoundTrip(fields: seq<seq<Byte>>, separator: Byte)
    requires separator != QUOTE && fields != []
    ensures Fields(Line(fields, separator), separator, |fields|) == fields
  {
    LineTokens(fields, separator);
  }

  lemma {:induction false} LineTokens(fields: seq<seq<Byte>>, separator: Byte)
    requires separator != QUOTE && fields != []
    ensures Tokens(Line(fields, separator), separator, OutOfQuote, [], |fields|) == fields
  {
    hide Tokens, Escape;
    var (head, n) := (Escape(fields[0], separator), |fields|);
    assert [] + fields[0] == fields[0];
    if n == 1 {
      assert head + [] == head && [fields[0]] == fields;
      EscapedToken(fields[0], separator, [], [], n);
      TokensAtEnd(separator, OutOfQuote, fields[0], n);
    } else {
      var rest := [separator] + Line(fields[1..], separator);
      assert Line(fields, separator) == head + rest && rest[1..] == Line(fields[1..], separator);
      EscapedToken(fields[0], separator, rest, [], n);
      TokensEnd(rest, separator, fields[0], n);
      LineTokens(fields[1..], separator);
      assert [fields[0]] + fields[1..] == fields;
    }
  }

  // ---------- fields between quotes ----------

  function Doubled(field: seq<Byte>): seq<Byte> {
    if field == [] then []
    else (if field[0] == QUOTE then [QUOTE, QUOTE] else [field[0]]) + Doubled(field[1..])
  }

  /** A field put between quotes, its own quotes doubled. */
  function Quoted(field: seq<Byte>): seq<Byte> {
    [QUOTE] + (Doubled(field) + [QUOTE])
  }

  /** What is read of the rest of a quoted field, behind its first quote or behind a doubled one. */
  function AfterQuote(field: seq<Byte>): seq<Byte> {
    if field == [] then [QUOTE]
    else if field[0] == QUOTE then [QUOTE] + AfterQuote(field[1..])
    else [field[0]] + Inside(field[1..])
  }

  /** And behind another character: the next pair of quotes is dropped. */
  function Inside(field: seq<Byte>): seq<Byte> {
    if field == [] then []
    else if field[0] == QUOTE then AfterQuote(field[1..])
    else [field[0]] + Inside(field[1..])
  }

  lemma {:induction false} QuotedTokens(field: seq<Byte>, separator: Byte, state: ParseState, token: seq<Byte>)
    requires separator != QUOTE && state != OutOfQuote
    ensures Tokens(Doubled(field) + [QUOTE], separator, state, token, 1) ==
            [token + if state == BeginQuote then AfterQuote(field) else Inside(field)]
    decreases |field|
  {
    var text := Doubled(field) + [QUOTE];
    if field == [] {
      assert text == [QUOTE] && text[1..] == [] && token + [] == token;
      TokensStep(text, separator, state, token, 1);
    } else if field[0] == QUOTE {
      var rest := Doubled(field[1..]) + [QUOTE];
      assert text == [QUOTE] + ([QUOTE] + rest);
      var kept := if state == BeginQuote then token + [QUOTE] else token;
      TokensStep(text, separator, state, token, 1);
      assert text[1..] == [QUOTE] + rest && text[1..][1..] == rest;
      TokensStep(text[1..], separator, OutOfQuote, kept, 1);
      QuotedTokens(field[1..], separator, BeginQuote, kept);
      assert token + [QUOTE] + AfterQuote(field[1..]) == token + ([QUOTE] + AfterQuote(field[1..]));
    } else {
      var rest := Doubled(field[1..]) + [QUOTE];
      assert text == [field[0]] + rest && text[1..] == rest;
      TokensStep(text, separator, state, token, 1);
      QuotedTokens(field[1..], separator, InQuote, token + [field[0]]);
      assert token + [field[0]] + Inside(field[1..]) == token + ([field[0]] + Inside(field[1..]));
    }
  }

  predicate OnlyQuotes(field: seq<Byte>) {
    forall i :: 0 <= i < |field| ==> field[i] == QUOTE
  }

  predicate QuotesLast(field: seq<Byte>) {
    forall i, j :: 0 <= i < j < |field| && field[i] == QUOTE ==> field[j] == QUOTE
  }

  /** A quote stands between two characters that are no quotes. */
  predicate QuoteBetween(field: seq<Byte>) {
    exists i, j, k :: 0 <= i < j < k < |field| && field[i] != QUOTE && field[j] == QUOTE && field[k] != QUOTE
  }

  lemma {:induction false} AfterQuotesOnly(field: seq<Byte>)
    ensures OnlyQuotes(field) ==> AfterQuote(field) == field + [QUOTE]
    ensures !OnlyQuotes(field) ==> |AfterQuote(field)| <= |field|
    ensures |Inside(field)| <= |field|
  {
    if field != [] {
      AfterQuotesOnly(field[1..]);
      assert OnlyQuotes(field) <==> field[0] == QUOTE && OnlyQuotes(field[1..]) by {
        assert forall i :: 0 < i < |field| ==> field[i] == field[1..][i - 1];
      }
      assert field == [field[0]] + field[1..];
    }
  }

  lemma {:induction false} InsideExactly(field: seq<Byte>)
    ensures Inside(field) == field <==> QuotesLast(field)
  {
    if field != [] {
      var rest := field[1..];
      assert field == [field[0]] + rest;
      assert forall i :: 0 < i < |field| ==> field[i] == rest[i - 1];
      assert forall i :: 0 <= i < |rest| ==> rest[i] == field[i + 1];
      if field[0] == QUOTE {
        AfterQuotesOnly(rest);
        assert QuotesLast(field) <==> OnlyQuotes(rest);
        assert OnlyQuotes(rest) ==> rest + [QUOTE] == [QUOTE] + rest;
      } else {
        InsideExactly(rest);
        assert QuotesLast(field) <==> QuotesLast(rest);
      }
    }
  }

  lemma {:induction false} AfterQuoteExactly(field: seq<Byte>)
    ensures AfterQuote(field) == field <==> !OnlyQuotes(field) && !QuoteBetween(field)
  {
    if field != [] {
      var rest := field[1..];
      assert field == [field[0]] + rest;
      assert forall i :: 0 < i < |field| ==> field[i] == rest[i - 1];
      assert forall i :: 0 <= i < |rest| ==> rest[i] == field[i + 1];
      if field[0] == QUOTE {
        AfterQuoteExactly(rest);
        BetweenLater(field);
      } else {
        InsideExactly(rest);
        BetweenAfter(field);
      }
    }
  }

  lemma BetweenLater(field: seq<Byte>)
    requires field != [] && field[0] == QUOTE
    ensures QuoteBetween(field) <==> QuoteBetween(field[1..])
  {
    var rest := field[1..];
    if QuoteBetween(rest) {
      var i, j, k :| 0 <= i < j < k < |rest| && rest[i] != QUOTE && rest[j] == QUOTE && rest[k] != QUOTE;
      assert field[i + 1] != QUOTE && field[j + 1] == QUOTE && field[k + 1] != QUOTE;
    }
    if QuoteBetween(field) {
      var i, j, k :| 0 <= i < j < k < |field| && field[i] != QUOTE && field[j] == QUOTE && field[k] != QUOTE;
      assert rest[i - 1] != QUOTE && rest[j - 1] == QUOTE && rest[k - 1] != QUOTE;
    }
  }

  lemma BetweenAfter(field: seq<Byte>)
    requires field != [] && field[0] != QUOTE
    ensures QuoteBetween(field) <==> !QuotesLast(field[1..])
  {
    var rest := field[1..];
    if !QuotesLast(rest) {
      var j, k :| 0 <= j < k < |rest| && rest[j] == QUOTE && rest[k] != QUOTE;
      assert field[0] != QUOTE && field[j + 1] == QUOTE && field[k + 1] != QUOTE;
    }
    if QuoteBetween(field) {
      var i, j, k :| 0 <= i < j < k < |field| && field[i] != QUOTE && field[j] == QUOTE && field[k] != QUOTE;
      assert rest[j - 1] == QUOTE && rest[k - 1] != QUOTE;
    }
  }

  /** `"a""b"` is read as `ab`. */
  lemma QuoteInsideIsLost(separator: Byte)
    requires separator != QUOTE
    ensures Fields(Quoted([97, QUOTE, 98]), separator, 1) == [[97, 98]]
  {
    var field: seq<Byte> := [97, QUOTE, 98];
    QuotedRead(field, separator);
    assert field[1..] == [QUOTE, 98] && field[1..][1..] == [98] && field[1..][1..][1..] == [];
    assert AfterQuote(field) == [97] + Inside(field[1..]) && Inside(field[1..]) == AfterQuote([98]);
    assert AfterQuote([98]) == [98] + Inside([]) && [97] + [98] == [97, 98] && [98] + [] == [98];
  }

  lemma QuotedRead(field: seq<Byte>, separator: Byte)
    requires separator != QUOTE
    ensures Fields(Quoted(field), separator, 1) == [AfterQuote(field)]
  {
    var text := Quoted(field);
    TokensStep(text, separator, OutOfQuote, [], 1);
    assert text[1..] == Doubled(field) + [QUOTE] && [] + AfterQuote(field) == AfterQuote(field);
    QuotedTokens(field, separator, BeginQuote, []);
  }

  /**
   * A field between quotes, with its quotes doubled, is read back exactly when some character of
   * it is no quote and no quote stands between two such characters.
   */
  lemma QuotedExactly(field: seq<Byte>, separator: Byte)
    requires separator != QUOTE
    ensures Fields(Quoted(field), separator, 1) == [field] <==> !OnlyQuotes(field) && !QuoteBetween(field)
  {
    QuotedRead(field, separator);
    AfterQuoteExactly(field);
  }

  // ---------- the plan ----------

  /** A view of the line's characters. */
  datatype View = View(from: nat, to: nat)

  class ReadFilePlan {
    const lines: seq<seq<Byte>>
    const separator: Byte
    const columns: nat
    const ignoreFirstLine: bool
    var position: nat
    var line: array<Byte>
    var result: seq<View>
    var rowCount: nat
    /** The columns set since the line was read, in order. */
    ghost var columnsSet: seq<nat>

    constructor (lines: seq<seq<Byte>>, separator: Byte, columns: nat, ignoreFirstLine: bool)
      requires separator != QUOTE
      ensures this.lines == lines && this.separator == separator && this.columns == columns
      ensures this.ignoreFirstLine == ignoreFirstLine && position == rowCount == 0 && fresh(line)
    {
      this.lines, this.separator, this.columns, this.ignoreFirstLine := lines, separator, columns, ignoreFirstLine;
      position, rowCount, result, columnsSet := 0, 0, [], [];
      line := new Byte[0];
    }

    method Begin()
      modifies this
      ensures position == if ignoreFirstLine && |lines| > 0 then 1 else 0
      ensures |result| == columns && rowCount == old(rowCount)
    {
      position := 0;
      result := seq(columns, _ => View(0, 0));
      if ignoreFirstLine && position < |lines| {
        position := position + 1;
      }
    }

    /** The characters that a column's view shows. */
    function Value(i: nat): seq<Byte>
      requires i < |result| && result[i].from <= result[i].to <= line.Length
      reads this, line
    {
      line[result[i].from..result[i].to]
    }

    method SetToken(index: nat, token: View)
      requires |result| == columns
      modifies `result, `columnsSet
      ensures result == if index < columns then old(result)[index := token] else old(result)
      ensures columnsSet == if index < columns then old(columnsSet) + [index] else old(columnsSet)
    {
      if index >= columns {
        return;
      }
      result := result[index := token];
      columnsSet := columnsSet + [index];
    }

    /** The tokens taken so far stand in front of the one that is being built, untouched. */
    ghost predicate Taken(tokens: seq<seq<Byte>>, begin: nat)
      reads this, line
    {
      && |tokens| <= |result| && begin <= line.Length
      && forall k :: 0 <= k < |tokens| ==>
           result[k].from <= result[k].to <= begin && line[result[k].from..result[k].to] == tokens[k]
    }

    lemma NothingTaken()
      ensures Taken([], 0)
    {
    }

    /** Each column shows its field of the line, and has been set exactly once. */
    method Next() returns (ok: bool)
      requires position <= |lines| && |result| == columns && separator != QUOTE
      modifies this
      ensures ok == (old(position) < |lines|) && |result| == columns
      ensures ok ==> position == old(position) + 1 && rowCount == old(rowCount) + 1 && fresh(line)
      ensures ok ==> columnsSet == FirstIndices(columns)
      ensures ok ==> forall i :: 0 <= i < columns ==>
                && result[i].from <= result[i].to <= line.Length
                && Value(i) == Fields(lines[old(position)], separator, columns)[i]
    {
      if position == |lines| {
        return false;
      }
      var text := lines[position];
      line := new Byte[|text|](k requires 0 <= k < |text| => text[k]);
      position := position + 1;
      columnsSet := [];
      assert line[..] == text;
      Tokenize(text);
      rowCount := rowCount + 1;
      return true;
    }

    /** The loop over the characters of the line, and the columns that it leaves. */
    method Tokenize(ghost text: seq<Byte>)
      requires |result| == columns && line[..] == text && columnsSet == [] && separator != QUOTE
      modifies `result, `columnsSet, line
      ensures |result| == columns && columnsSet == FirstIndices(columns)
      ensures forall i :: 0 <= i < columns ==>
                result[i].from <= result[i].to <= line.Length && Value(i) == Fields(text, separator, columns)[i]
    {
      hide Tokens;
      var index, begin, target := TakeTokens(text);
      ghost var tokens := Tokens(text, separator, OutOfQuote, [], columns);
      SetToken(index, View(begin, target));
      assert index < columns ==>
             && tokens == tokens[..index] + [line[begin..target]]
             && FirstIndices(index + 1) == FirstIndices(index) + [index];
      assert Taken(tokens, line.Length);
      FillMissing(index + 1, tokens);
    }

    /** The columns from `first` on get empty values. */
    method FillMissing(first: nat, ghost tokens: seq<seq<Byte>>)
      requires |result| == columns && Taken(tokens, line.Length)
      requires if first <= columns then |tokens| == first && columnsSet == FirstIndices(first)
               else |tokens| == columns && columnsSet == FirstIndices(columns)
      modifies `result, `columnsSet
      ensures |result| == columns && columnsSet == FirstIndices(columns) && Taken(tokens, line.Length)
      ensures forall k :: |tokens| <= k < columns ==> result[k] == View(0, 0)
    {
      var index := first;
      while index < columns
        invariant |result| == columns && first <= index && (index > columns ==> index == first)
        invariant columnsSet == FirstIndices(if index <= columns then index else columns)
        invariant Taken(tokens, line.Length)
        invariant forall k :: |tokens| <= k < index && k < columns ==> result[k] == View(0, 0)
        decreases columns - index
      {
        SetToken(index, View(0, 0));
        assert FirstIndices(index + 1) == FirstIndices(index) + [index];
        index := index + 1;
      }
    }

    /** A column's token: the view becomes the column's value, the others keep theirs. */
    method TakeToken(index: nat, token: View, ghost tokens: seq<seq<Byte>>)
      requires index < columns == |result| && |tokens| == index && columnsSet == FirstIndices(index)
      requires token.from <= token.to <= line.Length && Taken(tokens, token.from)
      modifies `result, `columnsSet
      ensures |result| == columns && columnsSet == FirstIndices(index + 1)
      ensures Taken(tokens + [line[token.from..token.to]], token.to)
    {
      SetToken(index, token);
      assert FirstIndices(index + 1) == FirstIndices(index) + [index];
    }

    /** Writes a character behind the token: into a place already read, and behind all tokens taken. */
    method KeepChar(c: Byte, ghost begin: nat, target: nat, ghost tokens: seq<seq<Byte>>)
      requires begin <= target < line.Length && Taken(tokens, begin)
      modifies line
      ensures Taken(tokens, begin) && line[begin..target + 1] == old(line[begin..target]) + [c]
      ensures line[target + 1..] == old(line[target + 1..])
    {
      line[target] := c;
      forall k | 0 <= k < |tokens| ensures line[result[k].from..result[k].to] == tokens[k] {
        assert old(line[result[k].from..result[k].to]) == tokens[k];
      }
    }

    method TakeTokens(ghost text: seq<Byte>) returns (index: nat, begin: nat, target: nat)
      requires |result| == columns && line[..] == text && columnsSet == [] && separator != QUOTE
      modifies `result, `columnsSet, line
      ensures |result| == columns && columnsSet == FirstIndices(index)
      ensures index <= columns && begin <= target <= line.Length
      ensures var tokens := Tokens(text, separator, OutOfQuote, [], columns);
              if index == columns then |tokens| == index && Taken(tokens, begin)
              else |tokens| == index + 1 && Taken(tokens[..index], begin) && line[begin..target] == tokens[index]
    {
      hide Tokens, Step, ReadFilePlan.Taken;
      var state := OutOfQuote;
      var i: nat := 0;
      index, begin, target := 0, 0, 0;
      ghost var tokens: seq<seq<Byte>> := [];
      assert Taken(tokens, begin) by {
        NothingTaken();
      }
      assert text[0..] == text;
      assert [] + Tokens(text, separator, OutOfQuote, [], columns) == Tokens(text, separator, OutOfQuote, [], columns);
      while i < line.Length && index < columns
        invariant i <= line.Length && begin <= target <= i && |tokens| == index <= columns == |result|
        invariant |text| == line.Length && line[i..] == text[i..]
        invariant Taken(tokens, begin) && columnsSet == FirstIndices(index)
        invariant Tokens(text, separator, OutOfQuote, [], columns) ==
                    tokens + Tokens(text[i..], separator, state, line[begin..target], columns - index)
        decreases line.Length - i
      {
        var c := line[i];
        ghost var (rest, token) := (text[i..], line[begin..target]);
        assert c == rest[0] && rest[1..] == text[i + 1..];
        if Ends(state, c, separator) {
          TokensEnd(rest, separator, token, columns - index);
          TokensAssociate(tokens, token, Tokens(rest[1..], separator, OutOfQuote, [], columns - index - 1));
          TakeToken(index, View(begin, target), tokens);
          assert line[begin..target] == token && line[target..target] == [];
          tokens := tokens + [token];
          index, begin := index + 1, target;
        } else {
          TokensStep(rest, separator, state, token, columns - index);
          var (now, kept) := Step(state, c);
          state := now;
          if kept {
            KeepChar(c, begin, target, tokens);
            target := target + 1;
          }
        }
        i := i + 1;
      }
      TokensAtEnd(separator, state, line[begin..target], columns - index);
      assert i == |text| ==> text[i..] == [];
      ghost var all := Tokens(text, separator, OutOfQuote, [], columns);
      assert if index == columns then all == tokens else all[..index] == tokens && all[index] == line[begin..target];
    }
  }

  lemma TokensAssociate(a: seq<seq<Byte>>, token: seq<Byte>, b: seq<seq<Byte>>)
    ensures a + ([token] + b) == a + [token] + b
  {
  }

  lemma TokensEnd(text: seq<Byte>, separator: Byte, token: seq<Byte>, left: nat)
    requires text != [] && left > 0 && Ends(OutOfQuote, text[0], separator)
    ensures Tokens(text, separator, OutOfQuote, token, left) ==
            [token] + Tokens(text[1..], separator, OutOfQuote, [], left - 1)
  {
  }

  lemma TokensAtEnd(separator: Byte, state: ParseState, token: seq<Byte>, left: nat)
    ensures left > 0 ==> Tokens([], separator, state, token, left) == [token]
    ensures forall text :: Tokens(text, separator, state, token, 0) == []
  {
  }
}
