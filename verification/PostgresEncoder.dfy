/**
 * Building backend messages: src/replay/postgresEncoder.ts, and the frontend messages a client builds
 * (PostgreSQL 16 documentation, section 55.7).
 *
 * Each writer is paired with the reader that undoes it. A `requires` is the range the source's `writeInt` accepts.
 */
module PostgresEncoder {
  import opened Wire
  import opened Streams
  import opened PostgresMessages

  const TEXT_TYPE_OID := 25
  const VARIABLE_LENGTH := -1

  /** A payload whose framed length still fits its Int32 field. */
  predicate Writable(f: Frame) {
    FitsInt32(|f.payload| + 4)
  }

  function Message(f: Frame): (b: Bytes)
    requires Writable(f)
    ensures |b| == |f.payload| + 5
  {
    [f.kind] + Int32BE(|f.payload| + 4) + f.payload
  }

  /** Framing is undone by reading, with the exact size, whatever follows. */
  lemma {:induction false} MessageInverts(f: Frame)
    requires Writable(f)
    ensures Inverts(ReadFrame, f, Message(f))
  {
    forall rest ensures Undoes(ReadFrame, f, Message(f), rest) {
      var b := Message(f) + rest;
      assert b == [f.kind] + Int32BE(|f.payload| + 4) + (f.payload + rest);
      Int32BERoundTrip([f.kind], |f.payload| + 4, f.payload + rest);
      assert b[5..5 + |f.payload|] == f.payload;
    }
  }

  function Messages(frames: seq<Frame>): (b: Bytes)
    requires forall i | 0 <= i < |frames| :: Writable(frames[i])
  {
    if frames == [] then [] else Message(frames[0]) + Messages(frames[1..])
  }

  lemma {:induction false} MessagesAppend(xs: seq<Frame>, ys: seq<Frame>)
    requires forall i | 0 <= i < |xs| :: Writable(xs[i])
    requires forall i | 0 <= i < |ys| :: Writable(ys[i])
    ensures Messages(xs + ys) == Messages(xs) + Messages(ys)
  {
    hide Message;
    if xs == [] {
      assert xs + ys == ys;
    } else {
      assert (xs + ys)[1..] == xs[1..] + ys;
      MessagesAppend(xs[1..], ys);
    }
  }

  /** A stream of messages reads back as exactly its frames, with nothing left over. */
  lemma {:induction false} ParseMessages(frames: seq<Frame>)
    requires forall i | 0 <= i < |frames| :: Writable(frames[i])
    ensures Parse(ReadFrame, Messages(frames)) == Parsed(frames, [])
  {
    hide Message, ReadFrame;
    if frames == [] {
      EmptyStream();
    } else {
      var first, rest := Message(frames[0]), Messages(frames[1..]);
      MessageInverts(frames[0]);
      assert Undoes(ReadFrame, frames[0], first, rest);
      assert (first + rest)[|first|..] == rest;
      ParseMessages(frames[1..]);
      assert [frames[0]] + frames[1..] == frames;
    }
  }

  lemma {:induction false} EmptyStream()
    ensures Parse(ReadFrame, []) == Parsed([], [])
  {
  }

  // ----- texts -----

  function CStringOf(t: Text): (b: Bytes)
    ensures |b| == |t| + 1
  {
    t + [0]
  }

  lemma {:induction false} ReadCStringOf(pre: Bytes, t: Text, rest: Bytes)
    requires NoZero(t)
    ensures ReadCString(pre + CStringOf(t) + rest, |pre|) == CString(t, |pre| + |t| + 1)
  {
    var b := pre + CStringOf(t) + rest;
    forall i | |pre| <= i < |pre| + |t| ensures b[i] != 0 {
      assert b[i] == t[i - |pre|];
    }
    ZeroAtIs(b, |pre|, |pre| + |t|);
    assert b[|pre|..|pre| + |t|] == t;
  }

  // ----- rows -----

  /** A value whose length fits its field. */
  predicate FitsValue(v: Option<Text>) {
    v.Some? ==> FitsInt32(|v.value|)
  }

  function ValueBytes(v: Option<Text>): Bytes
    requires FitsValue(v)
  {
    match v
    case None => Int32BE(VARIABLE_LENGTH)
    case Some(text) => Int32BE(|text|) + text
  }

  function ValuesBytes(row: Row): Bytes
    requires forall i | 0 <= i < |row| :: FitsValue(row[i])
  {
    if row == [] then [] else ValueBytes(row[0]) + ValuesBytes(row[1..])
  }

  predicate FitsRow(row: Row) {
    FitsInt16(|row|) && forall i | 0 <= i < |row| :: FitsValue(row[i])
  }

  function DataRow(row: Row): Frame
    requires FitsRow(row)
  {
    Frame(DATA_ROW, Int16BE(|row|) + ValuesBytes(row))
  }

  lemma {:induction false} ValueRoundTrip(pre: Bytes, v: Option<Text>, rest: Bytes)
    requires FitsValue(v)
    ensures var b := pre + ValueBytes(v) + rest;
            var length := ReadInt32BE(b, |pre|);
            && |ValueBytes(v)| == 4 + Max0(length)
            && v == if length < 0 then None else Some(Slice(b, |pre| + 4, |pre| + 4 + length))
  {
    var b := pre + ValueBytes(v) + rest;
    match v
    case None =>
      Int32BERoundTrip(pre, VARIABLE_LENGTH, rest);
    case Some(text) =>
      assert b == pre + Int32BE(|text|) + (text + rest);
      Int32BERoundTrip(pre, |text|, text + rest);
      assert b[|pre| + 4..|pre| + 4 + |text|] == text;
  }

  lemma {:induction false} ValuesRoundTrip(pre: Bytes, row: Row, rest: Bytes)
    requires forall i | 0 <= i < |row| :: FitsValue(row[i])
    ensures ValuesFrom(pre + ValuesBytes(row) + rest, |pre|, |row|) == Some(row)
    decreases |row|
  {
    hide ValueBytes, Slice, ReadInt32BE;
    if row != [] {
      var first, others := ValueBytes(row[0]), ValuesBytes(row[1..]);
      var b := pre + ValuesBytes(row) + rest;
      assert b == pre + first + (others + rest);
      ValueRoundTrip(pre, row[0], others + rest);
      assert b == (pre + first) + others + rest;
      ValuesRoundTrip(pre + first, row[1..], rest);
      assert [row[0]] + row[1..] == row;
    }
  }

  /** A row survives the wire: every text, every NULL, and a NULL is never an empty text. */
  lemma {:induction false} DataRowRoundTrip(row: Row)
    requires FitsRow(row)
    ensures ReadDataRow(DataRow(row).payload) == Some(row)
  {
    var payload := DataRow(row).payload;
    assert payload == [] + Int16BE(|row|) + ValuesBytes(row);
    Int16BERoundTrip([], |row|, ValuesBytes(row));
    assert payload == Int16BE(|row|) + ValuesBytes(row) + [];
    ValuesRoundTrip(Int16BE(|row|), row, []);
  }

  // ----- columns -----

  predicate FitsColumn(c: Column) {
    c.typeOid.Some? ==> FitsInt32(c.typeOid.value)
  }

  function OidOf(c: Column): int {
    if c.typeOid.Some? then c.typeOid.value else TEXT_TYPE_OID
  }

  function ColumnBytes(c: Column): (b: Bytes)
    requires FitsColumn(c)
  {
    CStringOf(c.name) + (Int32BE(0) + Int16BE(0)) + Int32BE(OidOf(c))
    + (Int16BE(VARIABLE_LENGTH) + Int32BE(VARIABLE_LENGTH) + Int16BE(0))
  }

  function ColumnsBytes(columns: seq<Column>): Bytes
    requires forall i | 0 <= i < |columns| :: FitsColumn(columns[i])
  {
    if columns == [] then [] else ColumnBytes(columns[0]) + ColumnsBytes(columns[1..])
  }

  predicate FitsColumns(columns: seq<Column>) {
    FitsInt16(|columns|) && forall i | 0 <= i < |columns| :: FitsColumn(columns[i])
  }

  function RowDescription(columns: seq<Column>): Frame
    requires FitsColumns(columns)
  {
    Frame(ROW_DESCRIPTION, Int16BE(|columns|) + ColumnsBytes(columns))
  }

  /** The columns as the driver is told them: one recorded without a type OID is text. */
  function Typed(columns: seq<Column>): (typed: seq<Column>)
    ensures |typed| == |columns|
  {
    seq(|columns|, i requires 0 <= i < |columns| => Column(columns[i].name, Some(OidOf(columns[i]))))
  }

  lemma {:induction false} ColumnRoundTrip(pre: Bytes, c: Column, rest: Bytes)
    requires FitsColumn(c) && NoZero(c.name)
    ensures var b := pre + ColumnBytes(c) + rest;
            var name := ReadCString(b, |pre|);
            && name == CString(c.name, |pre| + |c.name| + 1)
            && |b| >= name.next + 18 == |pre| + |ColumnBytes(c)|
            && ReadInt32BE(b, name.next + 6) == OidOf(c)
  {
    var b := pre + ColumnBytes(c) + rest;
    var meta := Int16BE(VARIABLE_LENGTH) + Int32BE(VARIABLE_LENGTH) + Int16BE(0);
    var zeros := Int32BE(0) + Int16BE(0);
    assert b == pre + CStringOf(c.name) + (zeros + Int32BE(OidOf(c)) + meta + rest);
    ReadCStringOf(pre, c.name, zeros + Int32BE(OidOf(c)) + meta + rest);
    var head := pre + CStringOf(c.name) + zeros;
    assert b == head + Int32BE(OidOf(c)) + (meta + rest);
    Int32BERoundTrip(head, OidOf(c), meta + rest);
  }

  lemma {:induction false} ColumnsRoundTrip(pre: Bytes, columns: seq<Column>, rest: Bytes)
    requires forall i | 0 <= i < |columns| :: FitsColumn(columns[i]) && NoZero(columns[i].name)
    ensures ColumnsFrom(pre + ColumnsBytes(columns) + rest, |pre|, |columns|) == Some(Typed(columns))
    decreases |columns|
  {
    hide ColumnBytes, ReadCString, ReadInt32BE, NoZero;
    if columns != [] {
      var first, others := ColumnBytes(columns[0]), ColumnsBytes(columns[1..]);
      var b := pre + ColumnsBytes(columns) + rest;
      assert b == pre + first + (others + rest);
      ColumnRoundTrip(pre, columns[0], others + rest);
      assert b == (pre + first) + others + rest;
      ColumnsRoundTrip(pre + first, columns[1..], rest);
      assert Typed(columns) == [Typed(columns)[0]] + Typed(columns[1..]);
    }
  }

  /** Column headers survive the wire: names, order and type OIDs. */
  lemma {:induction false} RowDescriptionRoundTrip(columns: seq<Column>)
    requires FitsColumns(columns) && forall i | 0 <= i < |columns| :: NoZero(columns[i].name)
    ensures ReadRowDescription(RowDescription(columns).payload) == Some(Typed(columns))
  {
    var payload := RowDescription(columns).payload;
    assert payload == [] + Int16BE(|columns|) + ColumnsBytes(columns);
    Int16BERoundTrip([], |columns|, ColumnsBytes(columns));
    assert payload == Int16BE(|columns|) + ColumnsBytes(columns) + [];
    ColumnsRoundTrip(Int16BE(|columns|), columns, []);
  }

  // ----- the fixed messages -----

  function AuthenticationOk(): Frame { Frame(AUTHENTICATION, Int32BE(0)) }

  function ParameterStatus(name: Text, value: Text): Frame {
    Frame(PARAMETER_STATUS, CStringOf(name) + CStringOf(value))
  }

  function BackendKeyData(): Frame { Frame(BACKEND_KEY_DATA, Int32BE(1) + Int32BE(1)) }

  function ReadyForQuery(): Frame { Frame(READY_FOR_QUERY, [73]) }

  function ParseComplete(): Frame { Frame(PARSE_COMPLETE, []) }

  function BindComplete(): Frame { Frame(BIND_COMPLETE, []) }

  function NoData(): Frame { Frame(NO_DATA, []) }

  function CommandComplete(tag: Text): Frame { Frame(COMMAND_COMPLETE, CStringOf(tag)) }

  /** Severity, SQLSTATE and message, each behind its field byte, and a final zero. */
  function ErrorResponse(text: Text): Frame {
    Frame(ERROR_RESPONSE,
          [83] + CStringOf(Ascii("ERROR")) + [67] + CStringOf(Ascii("P0001")) + [77] + CStringOf(text) + [0])
  }

  lemma {:induction false} CommandCompleteRoundTrip(tag: Text)
    requires NoZero(tag)
    ensures ReadCString(CommandComplete(tag).payload, 0).text == tag
  {
    ReadCStringOf([], tag, []);
    assert [] + CStringOf(tag) + [] == CStringOf(tag);
  }

  /** What a recorder keeps of an error is its first field, the severity: the text it carried is gone. */
  lemma {:induction false} ErrorTextIsNotRead(text: Text)
    ensures ReadCString(ErrorResponse(text).payload, 1).text == Ascii("ERROR")
  {
    var rest := [67] + CStringOf(Ascii("P0001")) + [77] + CStringOf(text) + [0];
    var severity := Ascii("ERROR");
    assert NoZero(severity) by {
      assert severity == [69, 82, 82, 79, 82];
    }
    assert ErrorResponse(text).payload == [83] + CStringOf(severity) + rest;
    ReadCStringOf([83], severity, rest);
  }

  // ----- what a client sends -----

  function Query(sql: Text): Frame { Frame(QUERY, CStringOf(sql)) }

  function ParseMessage(name: Text, sql: Text, types: Bytes): Frame {
    Frame(PARSE, CStringOf(name) + CStringOf(sql) + types)
  }

  function Int16s(codes: seq<int>): (b: Bytes)
    requires forall i | 0 <= i < |codes| :: FitsInt16(codes[i])
    ensures |b| == 2 * |codes|
  {
    if codes == [] then [] else Int16BE(codes[0]) + Int16s(codes[1..])
  }

  predicate FitsBind(portal: Text, statement: Text, formats: seq<int>, params: Row) {
    && NoZero(portal) && NoZero(statement)
    && FitsInt16(|formats|) && (forall i | 0 <= i < |formats| :: FitsInt16(formats[i]))
    && FitsRow(params)
  }

  /** A Bind: portal, statement, format codes, parameter values, and the result formats in `results`. */
  function Bind(portal: Text, statement: Text, formats: seq<int>, params: Row, results: Bytes): Frame
    requires FitsBind(portal, statement, formats, params)
  {
    Frame(BIND, CStringOf(portal) + CStringOf(statement) + (Int16BE(|formats|) + Int16s(formats))
              + (Int16BE(|params|) + ValuesBytes(params)) + results)
  }

  lemma {:induction false} QueryRoundTrip(sql: Text)
    requires NoZero(sql)
    ensures ReadCString(Query(sql).payload, 0).text == sql
  {
    CommandCompleteRoundTrip(sql);
  }

  lemma {:induction false} ParseRoundTrip(name: Text, sql: Text, types: Bytes)
    requires NoZero(name) && NoZero(sql)
    ensures ReadParse(ParseMessage(name, sql, types).payload) == Statement(name, sql)
  {
    var payload := ParseMessage(name, sql, types).payload;
    assert payload == [] + CStringOf(name) + (CStringOf(sql) + types);
    ReadCStringOf([], name, CStringOf(sql) + types);
    ReadCStringOf(CStringOf(name), sql, types);
  }

  /** Bound values and the statement name are read past any number of format codes. */
  lemma {:induction false} BindRoundTrip(portal: Text, statement: Text, formats: seq<int>, params: Row, results: Bytes)
    requires FitsBind(portal, statement, formats, params)
    ensures ReadBindStatement(Bind(portal, statement, formats, params, results).payload) == statement
    ensures ReadBindParameters(Bind(portal, statement, formats, params, results).payload) == Some(params)
  {
    hide ReadCString, CStringOf, ValuesBytes, ValuesFrom, Int16s, ReadInt16BE, Int16BE;
    var payload := Bind(portal, statement, formats, params, results).payload;
    var codes, values := Int16s(formats), ValuesBytes(params);
    var names := CStringOf(portal) + CStringOf(statement);
    var tail := Int16BE(|params|) + values + results;
    assert payload == [] + CStringOf(portal) + (CStringOf(statement) + (Int16BE(|formats|) + codes + tail));
    ReadCStringOf([], portal, CStringOf(statement) + (Int16BE(|formats|) + codes + tail));
    assert payload == CStringOf(portal) + CStringOf(statement) + (Int16BE(|formats|) + codes + tail);
    ReadCStringOf(CStringOf(portal), statement, Int16BE(|formats|) + codes + tail);
    assert payload == names + Int16BE(|formats|) + (codes + tail);
    Int16BERoundTrip(names, |formats|, codes + tail);
    var head := names + Int16BE(|formats|) + codes;
    assert payload == head + Int16BE(|params|) + (values + results);
    Int16BERoundTrip(head, |params|, values + results);
    assert payload == (head + Int16BE(|params|)) + values + results;
    ValuesRoundTrip(head + Int16BE(|params|), params, results);
  }
}
