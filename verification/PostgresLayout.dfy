/**
 * The PostgreSQL protocol in bytes (section 55.7 of the PostgreSQL 16 documentation), and how
 * src/record/protocols/postgresMessages.ts reads and src/replay/postgresEncoder.ts writes it. Nothing here is stated
 * through the program's own message types, field writers or integer fields.
 */
module PostgresLayout {
  import opened Wire
  import opened Streams
  import opened PostgresMessages
  import opened PostgresEncoder
  import Server = PostgresServers

  // ----- integers, most significant byte first -----

  function Place16(b: Bytes): int
    requires |b| == 2
  {
    b[0] as int * 256 + b[1] - (if b[0] >= 128 then 65536 else 0)
  }

  function Place32(b: Bytes): int
    requires |b| == 4
  {
    b[0] as int * 16777216 + b[1] as int * 65536 + b[2] as int * 256 + b[3] - (if b[0] >= 128 then 4294967296 else 0)
  }

  lemma {:induction false} Reads16(pre: Bytes, field: Bytes, rest: Bytes)
    requires |field| == 2
    ensures ReadInt16BE(pre + field + rest, |pre|) == Place16(field)
  {
    var b := pre + field + rest;
    assert b[|pre|] == field[0] && b[|pre| + 1] == field[1];
  }

  lemma {:induction false} Reads32(pre: Bytes, field: Bytes, rest: Bytes)
    requires |field| == 4
    ensures ReadInt32BE(pre + field + rest, |pre|) == Place32(field)
  {
    var b := pre + field + rest;
    assert b[|pre|] == field[0] && b[|pre| + 1] == field[1] && b[|pre| + 2] == field[2] && b[|pre| + 3] == field[3];
  }

  lemma {:induction false} Writes16(n: int)
    requires FitsInt16(n)
    ensures Place16(Int16BE(n)) == n
  {
    Int16BERoundTrip([], n, []);
    Reads16([], Int16BE(n), []);
  }

  lemma {:induction false} Writes32(n: int)
    requires FitsInt32(n)
    ensures Place32(Int32BE(n)) == n
  {
    hide Int32BE, ReadInt32BE;
    Int32BERoundTrip([], n, []);
    Reads32([], Int32BE(n), []);
  }

  // ----- frames -----

  /** A type byte, four bytes for the payload and themselves, the payload. */
  lemma {:induction false} FrameIs(kind: byte, size: Bytes, payload: Bytes, rest: Bytes)
    requires |size| == 4 && Place32(size) == |payload| + 4
    ensures ReadFrame([kind] + size + payload + rest) == Done(Frame(kind, payload), |payload| + 5)
  {
    hide Place32, ReadInt32BE;
    var b := [kind] + size + payload + rest;
    assert b == [kind] + size + (payload + rest);
    Reads32([kind], size, payload + rest);
    assert b[5..5 + |payload|] == payload;
  }

  /** With any byte of it missing, it is waited for. */
  lemma {:induction false} FrameWaits(kind: byte, size: Bytes, part: Bytes)
    requires |size| == 4 && |part| + 4 < Place32(size)
    ensures ReadFrame([kind] + size + part) == Partial
    ensures ReadFrame([]) == Partial && forall n | 0 <= n < 4 :: ReadFrame([kind] + size[..n]) == Partial
  {
    hide Place32, ReadInt32BE;
    Reads32([kind], size, part);
  }

  lemma {:induction false} FrameWritten(f: Frame) returns (size: Bytes)
    requires Writable(f)
    ensures |size| == 4 && Place32(size) == |f.payload| + 4 && Message(f) == [f.kind] + size + f.payload
  {
    size := Int32BE(|f.payload| + 4);
    Writes32(|f.payload| + 4);
  }

  /** An untyped first packet: its length, then 1234 and 5679 ask for TLS, and anything else does not. */
  lemma {:induction false} StartupIs(size: Bytes, code: Bytes, rest: Bytes)
    requires |size| == 4 && |code| == 4
    ensures var b := size + code + rest;
            ReadStartup(b) == if |b| < Place32(size) then Incomplete
                              else if code == [4, 210, 22, 47] then SslRequest(Place32(size))
                              else Plain(Place32(size))
    ensures forall n | 0 <= n < 8 :: ReadStartup((size + code)[..n]) == Incomplete
  {
    var b := size + code + rest;
    Reads32([], size, code + rest);
    assert [] + size + (code + rest) == b;
    Reads32(size, code, rest);
    CodeIs(code);
    hide Place32, ReadInt32BE;
  }

  lemma {:induction false} CodeIs(code: Bytes)
    requires |code| == 4
    ensures Place32(code) == 80877103 <==> code == [4, 210, 22, 47]
  {
    if Place32(code) == 80877103 {
      assert code[0] == 4;
      assert code[1] == 210;
      assert code[2] == 22;
    }
  }

  // ----- values -----

  /** Values, each behind its length; a negative length is NULL. */
  predicate AreValues(b: Bytes, row: Row)
    decreases |row|
  {
    if row == [] then b == []
    else
      && |b| >= 4
      && var n := Place32(b[..4]);
         match row[0]
         case None => n < 0 && AreValues(b[4..], row[1..])
         case Some(text) =>
           n == |text| && |b| >= 4 + n && b[4..4 + n] == text && AreValues(b[4 + n..], row[1..])
  }

  lemma {:induction false} ValuesAre(pre: Bytes, b: Bytes, row: Row, rest: Bytes)
    requires AreValues(b, row)
    ensures ValuesFrom(pre + b + rest, |pre|, |row|) == Some(row)
    decreases |row|
  {
    hide Place32, ReadInt32BE;
    if row != [] {
      var w := pre + b + rest;
      assert w == pre + b[..4] + (b[4..] + rest);
      Reads32(pre, b[..4], b[4..] + rest);
      var n := if row[0].Some? then 4 + |row[0].value| else 4;
      var head := pre + b[..n];
      assert w == head + b[n..] + rest;
      ValuesAre(head, b[n..], row[1..], rest);
      assert row[0].Some? ==> w[|pre| + 4..|pre| + n] == row[0].value;
      assert row == [row[0]] + row[1..];
    }
  }

  lemma {:induction false} ValuesWritten(row: Row)
    requires forall i | 0 <= i < |row| :: FitsValue(row[i])
    ensures AreValues(ValuesBytes(row), row)
    decreases |row|
  {
    hide Place32, Int32BE;
    if row != [] {
      ValuesWritten(row[1..]);
      var first, others := ValueBytes(row[0]), ValuesBytes(row[1..]);
      var b := first + others;
      match row[0]
      case None =>
        Writes32(-1);
        assert b[..4] == Int32BE(-1) && b[4..] == others;
      case Some(text) =>
        Writes32(|text|);
        assert b[..4] == Int32BE(|text|) && b[4..4 + |text|] == text && b[4 + |text|..] == others;
    }
  }

  /** A row is read from its count and its values. */
  lemma {:induction false} RowIs(count: Bytes, b: Bytes, row: Row, rest: Bytes)
    requires |count| == 2 && Place16(count) == |row| && AreValues(b, row)
    ensures ReadDataRow(count + b + rest) == Some(row)
  {
    hide Place16, ReadInt16BE, AreValues, ValuesFrom;
    Reads16([], count, b + rest);
    assert [] + count + (b + rest) == count + b + rest;
    ValuesAre(count, b, row, rest);
  }

  /** A row is written as its count and its values, in a message of type `D`; NULL as four bytes of ones. */
  lemma {:induction false} RowWritten(row: Row) returns (count: Bytes, b: Bytes)
    requires FitsRow(row)
    ensures |count| == 2 && Place16(count) == |row| && AreValues(b, row)
    ensures DataRow(row) == Frame(68, count + b)
    ensures row == [None] ==> b == [255, 255, 255, 255]
  {
    count, b := Int16BE(|row|), ValuesBytes(row);
    Writes16(|row|);
    ValuesWritten(row);
    if row == [None] {
      assert row[1..] == [] && ValuesBytes([]) == [];
    }
  }

  // ----- columns -----

  /** A name and its zero, six bytes about the table, the type OID, and eight bytes more. */
  predicate IsColumn(b: Bytes, c: Column) {
    var n := |c.name|;
    && NoZero(c.name) && |b| == n + 19 && b[..n] == c.name && b[n] == 0
    && c.typeOid == Some(Place32(b[n + 7..n + 11]))
  }

  predicate AreColumns(parts: seq<Bytes>, columns: seq<Column>) {
    |parts| == |columns| && forall i | 0 <= i < |columns| :: IsColumn(parts[i], columns[i])
  }

  lemma {:induction false} ColumnIs(pre: Bytes, b: Bytes, c: Column, rest: Bytes)
    requires IsColumn(b, c)
    ensures var w, name := pre + b + rest, ReadCString(pre + b + rest, |pre|);
            && name == CString(c.name, |pre| + |c.name| + 1)
            && |w| >= name.next + 18 == |pre| + |b|
            && ReadInt32BE(w, name.next + 6) == c.typeOid.value
  {
    hide Place32, ReadInt32BE;
    var n, w := |c.name|, pre + b + rest;
    assert w == pre + CStringOf(c.name) + (b[n + 1..] + rest);
    ReadCStringOf(pre, c.name, b[n + 1..] + rest);
    assert w == (pre + b[..n + 7]) + b[n + 7..n + 11] + (b[n + 11..] + rest);
    Reads32(pre + b[..n + 7], b[n + 7..n + 11], b[n + 11..] + rest);
  }

  lemma {:induction false} ColumnsAre(pre: Bytes, parts: seq<Bytes>, columns: seq<Column>, rest: Bytes)
    requires AreColumns(parts, columns)
    ensures ColumnsFrom(pre + Concat(parts) + rest, |pre|, |columns|) == Some(columns)
    decreases |columns|
  {
    hide IsColumn, ReadCString, ReadInt32BE;
    if columns != [] {
      var w, first, others := pre + Concat(parts) + rest, parts[0], Concat(parts[1..]);
      assert w == pre + first + (others + rest) && w == (pre + first) + others + rest;
      TypedColumn(first, columns[0]);
      ColumnIs(pre, first, columns[0], others + rest);
      ColumnsAre(pre + first, parts[1..], columns[1..], rest);
      assert columns == [columns[0]] + columns[1..];
    }
  }

  lemma {:induction false} TypedColumn(b: Bytes, c: Column)
    requires IsColumn(b, c)
    ensures c.typeOid.Some? && |b| == |c.name| + 19
  {
  }

  /** The columns of a result are read from their count and their descriptions. */
  lemma {:induction false} DescriptionIs(count: Bytes, parts: seq<Bytes>, columns: seq<Column>, rest: Bytes)
    requires |count| == 2 && Place16(count) == |columns| && AreColumns(parts, columns)
    ensures ReadRowDescription(count + Concat(parts) + rest) == Some(columns)
  {
    hide Place16, ReadInt16BE, AreColumns, ColumnsFrom;
    Reads16([], count, Concat(parts) + rest);
    assert [] + count + (Concat(parts) + rest) == count + Concat(parts) + rest;
    ColumnsAre(count, parts, columns, rest);
  }

  /**
   * A column is written as one of no table, with its type OID, or that of text where none was recorded, of variable
   * length, without modifier, in text format.
   */
  lemma {:induction false} ColumnWritten(c: Column) returns (oid: Bytes)
    requires FitsColumn(c)
    ensures |oid| == 4 && Place32(oid) == if c.typeOid.Some? then c.typeOid.value else 25
    ensures ColumnBytes(c)
            == c.name + [0] + [0, 0, 0, 0, 0, 0] + oid + [255, 255] + [255, 255, 255, 255] + [0, 0]
  {
    oid := Int32BE(OidOf(c));
    Writes32(OidOf(c));
  }

  /** The columns are written one after the other behind their count, in a message of type `T`. */
  lemma {:induction false} DescriptionWritten(columns: seq<Column>) returns (count: Bytes)
    requires FitsColumns(columns)
    ensures |count| == 2 && Place16(count) == |columns|
    ensures RowDescription(columns) == Frame(84, count + Concat(ColumnParts(columns)))
  {
    count := Int16BE(|columns|);
    Writes16(|columns|);
    ColumnsJoined(columns);
  }

  function ColumnParts(columns: seq<Column>): (parts: seq<Bytes>)
    requires forall i | 0 <= i < |columns| :: FitsColumn(columns[i])
    ensures |parts| == |columns|
  {
    seq(|columns|, i requires 0 <= i < |columns| => ColumnBytes(columns[i]))
  }

  lemma {:induction false} ColumnsJoined(columns: seq<Column>)
    requires forall i | 0 <= i < |columns| :: FitsColumn(columns[i])
    ensures ColumnsBytes(columns) == Concat(ColumnParts(columns))
    decreases |columns|
  {
    hide ColumnBytes;
    if columns != [] {
      ColumnsJoined(columns[1..]);
      assert ColumnParts(columns)[1..] == ColumnParts(columns[1..]);
    }
  }

  // ----- texts a client sends -----

  /** A Query holds its SQL; a Parse its statement's name and SQL. */
  lemma {:induction false} TextsAre(name: Text, sql: Text, rest: Bytes)
    requires NoZero(name) && NoZero(sql)
    ensures ReadCString(sql + [0] + rest, 0).text == sql
    ensures ReadParse(name + [0] + sql + [0] + rest) == Statement(name, sql)
  {
    var b := name + [0] + sql + [0] + rest;
    ReadCStringOf([], sql, rest);
    assert [] + CStringOf(sql) + rest == sql + [0] + rest;
    ReadCStringOf([], name, sql + [0] + rest);
    assert [] + CStringOf(name) + (sql + [0] + rest) == b;
    ReadCStringOf(name + [0], sql, rest);
    assert (name + [0]) + CStringOf(sql) + rest == b;
  }

  /** A Bind holds portal and statement, format codes, its parameters, and more. */
  lemma {:induction false} BindIs(portal: Text, statement: Text, formats: Bytes, codes: Bytes, count: Bytes, b: Bytes,
          params: Row, rest: Bytes)
    requires NoZero(portal) && NoZero(statement) && |formats| == 2 && |codes| == 2 * Place16(formats)
    requires |count| == 2 && Place16(count) == |params| && AreValues(b, params)
    ensures var payload := portal + [0] + statement + [0] + formats + codes + count + b + rest;
            ReadBindStatement(payload) == statement && ReadBindParameters(payload) == Some(params)
  {
    hide Place16, ReadInt16BE, AreValues, ValuesFrom, ReadCString;
    var payload := portal + [0] + statement + [0] + formats + codes + count + b + rest;
    var more := formats + codes + count + b + rest;
    ReadCStringOf([], portal, statement + [0] + more);
    assert [] + CStringOf(portal) + (statement + [0] + more) == payload;
    ReadCStringOf(portal + [0], statement, more);
    assert (portal + [0]) + CStringOf(statement) + more == payload;
    var names := portal + [0] + statement + [0];
    Reads16(names, formats, codes + count + b + rest);
    assert names + formats + (codes + count + b + rest) == payload;
    var head := names + formats + codes;
    Reads16(head, count, b + rest);
    assert head + count + (b + rest) == payload;
    ValuesAre(head + count, b, params, rest);
    assert (head + count) + b + rest == payload;
  }

  // ----- fixed messages -----

  lemma {:induction false} Small(n: nat)
    requires n < 256
    ensures Int32BE(n) == [0, 0, 0, n]
  {
  }

  lemma {:induction false} SettingIs(name: Text, value: Text, n: nat)
    requires n == |name| + |value| + 6 < 256
    ensures Message(ParameterStatus(name, value)) == [83, 0, 0, 0, n] + (name + [0] + (value + [0]))
  {
    Small(n);
  }

  lemma {:induction false} OpeningAre()
    ensures Message(AuthenticationOk()) == [82, 0, 0, 0, 8, 0, 0, 0, 0]
    ensures Message(BackendKeyData()) == [75, 0, 0, 0, 12, 0, 0, 0, 1, 0, 0, 0, 1]
    ensures Message(ReadyForQuery()) == [90, 0, 0, 0, 5, 73]
  {
    Small(0);
    Small(1);
    Small(5);
    Small(8);
    Small(12);
    hide Int32BE;
  }

  lemma {:induction false} FiveMessages(a: Frame, b: Frame, c: Frame, d: Frame, e: Frame)
    requires Writable(a) && Writable(b) && Writable(c) && Writable(d) && Writable(e)
    ensures Messages([a, b, c, d, e]) == Message(a) + Message(b) + Message(c) + Message(d) + Message(e)
  {
    hide Message;
    assert [a, b, c, d, e][1..] == [b, c, d, e] && [b, c, d, e][1..] == [c, d, e] && [c, d, e][1..] == [d, e];
    assert [d, e][1..] == [e] && [e][1..] == [];
    assert Messages([e]) == Message(e) + [] == Message(e);
    assert Messages([d, e]) == Message(d) + Message(e);
    assert Messages([c, d, e]) == Message(c) + (Message(d) + Message(e));
    assert Messages([b, c, d, e]) == Message(b) + (Message(c) + (Message(d) + Message(e)));
  }

  /** The greeting: no further challenge, two settings, a key, and readiness. */
  lemma {:induction false} GreetingIs()
    ensures Messages(Server.Handshake())
            == [82, 0, 0, 0, 8, 0, 0, 0, 0]
               + ([83, 0, 0, 0, 24] + (Ascii("server_version") + [0] + (Ascii("16.0") + [0])))
               + ([83, 0, 0, 0, 25] + (Ascii("client_encoding") + [0] + (Ascii("UTF8") + [0])))
               + [75, 0, 0, 0, 12, 0, 0, 0, 1, 0, 0, 0, 1]
               + [90, 0, 0, 0, 5, 73]
  {
    hide Message, Ascii, AuthenticationOk, ParameterStatus, BackendKeyData, ReadyForQuery;
    OpeningAre();
    SettingIs(Ascii("server_version"), Ascii("16.0"), 24);
    SettingIs(Ascii("client_encoding"), Ascii("UTF8"), 25);
    var h := Server.Handshake();
    FiveMessages(h[0], h[1], h[2], h[3], h[4]);
  }

  /** The acknowledgements, readiness, the tag of a result, and the refusal of TLS. */
  lemma {:induction false} FixedAre(tag: Text)
    ensures Message(ParseComplete()) == [49, 0, 0, 0, 4] && Message(BindComplete()) == [50, 0, 0, 0, 4]
    ensures Message(NoData()) == [110, 0, 0, 0, 4] && Message(ReadyForQuery()) == [90, 0, 0, 0, 5, 73]
    ensures CommandComplete(tag) == Frame(67, tag + [0])
    ensures Server.REFUSED == [78]
  {
    Small(4);
    Small(5);
  }

  // ----- errors -----

  /** A field of an error or notice: the text behind its code, the fields standing one after the other up to a zero. */
  function FieldIn(payload: Bytes, code: byte, at: nat): Option<Text>
    decreases |payload| - at
  {
    if at >= |payload| || payload[at] == 0 then None
    else
      match ZeroAt(payload, at + 1)
      case None => None
      case Some(end) => if payload[at] == code then Some(payload[at + 1..end]) else FieldIn(payload, code, end + 1)
  }

  lemma {:induction false} FieldStep(pre: Bytes, field: byte, text: Text, rest: Bytes, code: byte)
    requires field != 0 && NoZero(text)
    ensures var b := pre + ([field] + text + [0]) + rest;
            FieldIn(b, code, |pre|) == if field == code then Some(text) else FieldIn(b, code, |pre| + |text| + 2)
  {
    var b := pre + ([field] + text + [0]) + rest;
    var start := |pre| + 1;
    assert b[|pre|] == field && b[start..start + |text|] == text && b[start + |text|] == 0;
    forall i | start <= i < start + |text| ensures b[i] != 0 {
      assert b[i] == text[i - start];
    }
    ZeroAtIs(b, start, start + |text|);
  }

  lemma {:induction false} ThreeFields(severity: Text, state: Text, text: Text, code: byte)
    requires NoZero(severity) && NoZero(state) && NoZero(text)
    ensures FieldIn(([83] + severity + [0]) + ([67] + state + [0]) + ([77] + text + [0]) + [0], code, 0)
            == if code == 83 then Some(severity) else if code == 67 then Some(state)
               else if code == 77 then Some(text) else None
  {
    hide NoZero, FieldIn;
    var a, b, c := [83] + severity + [0], [67] + state + [0], [77] + text + [0];
    var payload := a + b + c + [0];
    assert payload == [] + a + (b + c + [0]);
    assert payload == a + b + (c + [0]);
    assert payload == (a + b) + c + [0];
    FieldStep([], 83, severity, b + c + [0], code);
    FieldStep(a, 67, state, c + [0], code);
    FieldStep(a + b, 77, text, [0], code);
    FieldEnd(payload, code, |a + b + c|);
  }

  lemma {:induction false} ErrorBytes(text: Text)
    ensures ErrorResponse(text)
            == Frame(69, ([83] + [69, 82, 82, 79, 82] + [0]) + ([67] + [80, 48, 48, 48, 49] + [0])
                         + ([77] + text + [0]) + [0])
  {
    assert Ascii("ERROR") == [69, 82, 82, 79, 82] && Ascii("P0001") == [80, 48, 48, 48, 49];
    hide Ascii;
  }

  /**
   * An error carries the severity ERROR, the code P0001 and its message, each under its own field, and no other field.
   */
  lemma {:induction false} ErrorIs(text: Text, code: byte)
    requires NoZero(text)
    ensures ErrorResponse(text).kind == 69
    ensures FieldIn(ErrorResponse(text).payload, code, 0)
            == if code == 83 then Some([69, 82, 82, 79, 82])
               else if code == 67 then Some([80, 48, 48, 48, 49])
               else if code == 77 then Some(text)
               else None
  {
    hide FieldIn, ErrorResponse;
    ErrorBytes(text);
    ThreeFields([69, 82, 82, 79, 82], [80, 48, 48, 48, 49], text, code);
  }

  lemma {:induction false} FieldEnd(payload: Bytes, code: byte, at: nat)
    requires at < |payload| && payload[at] == 0
    ensures FieldIn(payload, code, at) == None
  {
  }
}
