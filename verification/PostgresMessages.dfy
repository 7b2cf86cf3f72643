/**
 * Framing and field readers of the PostgreSQL v3 protocol: src/record/protocols/postgresMessages.ts.
 *
 * None as the result of a field reader means that the source throws a RangeError on the payload.
 */
module PostgresMessages {
  import opened Wire
  import opened Streams

  /** A typed message: one type byte, an Int32 length that counts itself, and the payload. */
  datatype Frame = Frame(kind: byte, payload: Bytes)

  // The types of frontend messages.
  const QUERY: byte := 81
  const PARSE: byte := 80
  const BIND: byte := 66
  const DESCRIBE: byte := 68
  const EXECUTE: byte := 69
  const SYNC: byte := 83

  // The types of backend messages.
  const AUTHENTICATION: byte := 82
  const PARAMETER_STATUS: byte := 83
  const BACKEND_KEY_DATA: byte := 75
  const READY_FOR_QUERY: byte := 90
  const PARSE_COMPLETE: byte := 49
  const BIND_COMPLETE: byte := 50
  const NO_DATA: byte := 110
  const ROW_DESCRIPTION: byte := 84
  const DATA_ROW: byte := 68
  const COMMAND_COMPLETE: byte := 67
  const ERROR_RESPONSE: byte := 69

  const SSL_REQUEST_CODE := 80877103
  const LENGTH_BYTES := 4
  const TYPE_BYTES := 1

  /** Read one frame at `offset`; a length below 4 is waited on for ever. */
  function ReadFrameAt(buffer: Bytes, offset: nat): (r: Outcome<Frame>)
    ensures r.Done? ==> 5 <= r.bytes <= |buffer| - offset
  {
    if |buffer| < offset + TYPE_BYTES + LENGTH_BYTES then Partial
    else
      var length := ReadInt32BE(buffer, offset + TYPE_BYTES);
      var total := TYPE_BYTES + length;
      if length < LENGTH_BYTES || |buffer| < offset + total then Partial
      else Done(Frame(buffer[offset], buffer[offset + TYPE_BYTES + LENGTH_BYTES..offset + total]), total)
  }

  function ReadFrame(b: Bytes): Outcome<Frame> {
    ReadFrameAt(b, 0)
  }

  lemma {:induction false} ReadFrameIsStable()
    ensures Stable(ReadFrame)
  {
    forall b, more ensures Settled(ReadFrame, b, more) {
      if ReadFrame(b).Done? {
        var total := ReadFrame(b).bytes;
        assert (b + more)[5..total] == b[5..total];
      }
    }
  }

  lemma {:induction false} FrameAtOffset(buffer: Bytes, offset: nat)
    requires offset <= |buffer|
    ensures ReadFrameAt(buffer, offset) == ReadFrame(buffer[offset..])
  {
    var b := buffer[offset..];
    if |buffer| >= offset + 5 {
      var total := TYPE_BYTES + ReadInt32BE(buffer, offset + TYPE_BYTES);
      if 5 <= total <= |b| {
        assert b[5..total] == buffer[offset + 5..offset + total];
      }
    }
  }

  // ----- the untyped first message -----

  datatype Startup = Incomplete | SslRequest(bytes: int) | Plain(bytes: int)

  function ReadStartup(buffer: Bytes): (s: Startup)
    ensures !s.Incomplete? ==> 8 <= |buffer| && s.bytes <= |buffer| && s.bytes == ReadInt32BE(buffer, 0)
  {
    if |buffer| < LENGTH_BYTES * 2 then Incomplete
    else
      var length := ReadInt32BE(buffer, 0);
      if |buffer| < length then Incomplete
      else if ReadInt32BE(buffer, LENGTH_BYTES) == SSL_REQUEST_CODE then SslRequest(length)
      else Plain(length)
  }

  /** `subarray(start)`: a negative start counts from the end. */
  function From(b: Bytes, start: int): Bytes {
    if start < 0 then (if -start <= |b| then b[|b| + start..] else b)
    else b[Min(start, |b|)..]
  }

  /** A startup packet whose length field is not negative, once it can be read. */
  predicate SaneStartup(buffer: Bytes) {
    |buffer| >= 8 ==> ReadInt32BE(buffer, 0) >= 0
  }

  /**
   * More bytes behind a startup packet stay behind what is left of it, unless its length field is negative, so that it
   * counts from the end of the buffer, and more bytes have arrived than it counts.
   */
  predicate KeepsRest(a: Bytes, b: Bytes) {
    !ReadStartup(a).Incomplete? ==>
      var n := ReadStartup(a).bytes;
      0 <= n || b == [] || |a + b| <= -n
  }

  /** A classified startup packet is classified alike when more bytes arrive, and those stay behind its rest or not. */
  lemma {:induction false} StartupGrows(a: Bytes, b: Bytes)
    requires !ReadStartup(a).Incomplete?
    ensures ReadStartup(a + b) == ReadStartup(a)
    ensures From(a + b, ReadStartup(a).bytes) == From(a, ReadStartup(a).bytes) + b <==> KeepsRest(a, b)
  {
    assert ReadInt32BE(a + b, 0) == ReadInt32BE(a, 0);
    assert ReadInt32BE(a + b, 4) == ReadInt32BE(a, 4);
    var n := ReadStartup(a).bytes;
    hide ReadInt32BE, ReadStartup;
    if n < 0 {
      FromTheEnd(a, b, n);
    }
  }

  lemma {:induction false} FromTheEnd(a: Bytes, b: Bytes, start: int)
    requires start < 0
    ensures From(a + b, start) == From(a, start) + b <==> b == [] || |a + b| <= -start
  {
    if b == [] {
      assert a + b == a && From(a, start) + [] == From(a, start);
    } else if -start < |a + b| {
      assert |From(a + b, start)| == -start < |From(a, start) + b|;
    }
  }

  lemma {:induction false} SaneKeepsRest(a: Bytes, b: Bytes)
    requires SaneStartup(a + b)
    ensures KeepsRest(a, b)
  {
    assert |a| >= 8 ==> ReadInt32BE(a + b, 0) == ReadInt32BE(a, 0);
  }

  // ----- fields -----

  datatype CString = CString(text: Text, next: nat)

  /** A null-terminated text and the offset after it; without a terminator, the rest of the payload. */
  function ReadCString(payload: Bytes, offset: nat): (c: CString)
    ensures c.next <= |payload|
  {
    match ZeroAt(payload, offset)
    case None => CString(Slice(payload, offset, |payload|), |payload|)
    case Some(end) => CString(payload[offset..end], end + 1)
  }

  datatype Column = Column(name: Text, typeOid: Option<int>)

  type Row = seq<Option<Text>>

  /** The columns of a RowDescription from `offset` on: a name, then 18 bytes of which the type OID is kept. */
  function ColumnsFrom(payload: Bytes, offset: nat, count: nat): (r: Option<seq<Column>>)
    ensures r.Some? ==> |r.value| == count
    decreases count
  {
    if count == 0 then Some([])
    else
      var c := ReadCString(payload, offset);
      if |payload| < c.next + 10 then None
      else
        match ColumnsFrom(payload, c.next + 18, count - 1)
        case None => None
        case Some(columns) => Some([Column(c.text, Some(ReadInt32BE(payload, c.next + 6)))] + columns)
  }

  function ReadRowDescription(payload: Bytes): Option<seq<Column>> {
    if |payload| < 2 then None
    else ColumnsFrom(payload, 2, Max0(ReadInt16BE(payload, 0)))
  }

  /** A loop from 0 up to a count that is negative does nothing. */
  function Max0(n: int): nat {
    if n < 0 then 0 else n
  }

  /** `count` values, each an Int32 length and its bytes; a negative length is NULL. */
  function ValuesFrom(payload: Bytes, offset: nat, count: nat): (r: Option<Row>)
    ensures r.Some? ==> |r.value| == count
    decreases count
  {
    if count == 0 then Some([])
    else if |payload| < offset + 4 then None
    else
      var length := ReadInt32BE(payload, offset);
      var value := if length < 0 then None else Some(Slice(payload, offset + 4, offset + 4 + length));
      match ValuesFrom(payload, offset + 4 + Max0(length), count - 1)
      case None => None
      case Some(values) => Some([value] + values)
  }

  function ReadDataRow(payload: Bytes): Option<Row> {
    if |payload| < 2 then None
    else ValuesFrom(payload, 2, Max0(ReadInt16BE(payload, 0)))
  }

  /** The parameters of a Bind, past the portal and statement names and any number of format codes. */
  function ReadBindParameters(payload: Bytes): Option<Row> {
    var offset := ReadCString(payload, ReadCString(payload, 0).next).next;
    if |payload| < offset + 2 then None
    else
      var at := offset + 2 + 2 * ReadInt16BE(payload, offset);
      if at < 0 || |payload| < at + 2 then None
      else ValuesFrom(payload, at + 2, Max0(ReadInt16BE(payload, at)))
  }

  datatype Statement = Statement(name: Text, sql: Text)

  function ReadParse(payload: Bytes): Statement {
    var name := ReadCString(payload, 0);
    Statement(name.text, ReadCString(payload, name.next).text)
  }

  function ReadBindStatement(payload: Bytes): Text {
    ReadCString(payload, ReadCString(payload, 0).next).text
  }

  // ----- the reading loops -----

  lemma {:induction false} ColumnsStep(payload: Bytes, offset: nat, count: nat, before: seq<Column>)
    requires 0 < count
    ensures var c := ReadCString(payload, offset);
            var whole := ColumnsFrom(payload, offset, count);
            if |payload| < c.next + 10 then whole.None?
            else
              var column := Column(c.text, Some(ReadInt32BE(payload, c.next + 6)));
              var rest := ColumnsFrom(payload, c.next + 18, count - 1);
              whole.Some? == rest.Some? && (rest.Some? ==> before + whole.value == (before + [column]) + rest.value)
  {
  }

  method ReadRowDescriptionLoop(payload: Bytes) returns (r: Option<seq<Column>>)
    ensures r == ReadRowDescription(payload)
  {
    hide ColumnsFrom;
    if |payload| < 2 {
      return None;
    }
    var count := ReadInt16BE(payload, 0);
    var columns: seq<Column> := [];
    var offset := 2;
    var index := 0;
    ghost var whole := ColumnsFrom(payload, 2, Max0(count));
    assert whole.Some? ==> [] + whole.value == whole.value;
    while index < count
      invariant 0 <= index <= Max0(count) && 0 <= offset
      invariant var left := ColumnsFrom(payload, offset, Max0(count) - index);
                whole.Some? == left.Some? && (left.Some? ==> whole.value == columns + left.value)
    {
      ColumnsStep(payload, offset, Max0(count) - index, columns);
      var c := ReadCString(payload, offset);
      if |payload| < c.next + 10 {
        return None;
      }
      columns := columns + [Column(c.text, Some(ReadInt32BE(payload, c.next + 6)))];
      offset := c.next + 18;
      index := index + 1;
    }
    ColumnsEnd(payload, offset);
    assert columns + [] == columns;
    return Some(columns);
  }

  lemma {:induction false} ColumnsEnd(payload: Bytes, offset: nat)
    ensures ColumnsFrom(payload, offset, 0) == Some([])
    ensures ValuesFrom(payload, offset, 0) == Some([])
  {
  }

  lemma {:induction false} ValuesStep(payload: Bytes, offset: nat, count: nat, before: Row)
    requires 0 < count
    ensures var whole := ValuesFrom(payload, offset, count);
            if |payload| < offset + 4 then whole.None?
            else
              var length := ReadInt32BE(payload, offset);
              var value := if length < 0 then None else Some(Slice(payload, offset + 4, offset + 4 + length));
              var rest := ValuesFrom(payload, offset + 4 + Max0(length), count - 1);
              whole.Some? == rest.Some? && (rest.Some? ==> before + whole.value == (before + [value]) + rest.value)
  {
  }

  /** The value loop shared by DataRow and Bind. */
  method ReadValuesLoop(payload: Bytes, start: nat, count: int) returns (r: Option<Row>)
    ensures r == ValuesFrom(payload, start, Max0(count))
  {
    hide ValuesFrom;
    var values: Row := [];
    var offset := start;
    var index := 0;
    ghost var whole := ValuesFrom(payload, start, Max0(count));
    assert whole.Some? ==> [] + whole.value == whole.value;
    while index < count
      invariant 0 <= index <= Max0(count) && 0 <= offset
      invariant var left := ValuesFrom(payload, offset, Max0(count) - index);
                whole.Some? == left.Some? && (left.Some? ==> whole.value == values + left.value)
    {
      ValuesStep(payload, offset, Max0(count) - index, values);
      if |payload| < offset + 4 {
        return None;
      }
      var length := ReadInt32BE(payload, offset);
      offset := offset + 4;
      index := index + 1;
      if length < 0 {
        values := values + [None];
        continue;
      }
      values := values + [Some(Slice(payload, offset, offset + length))];
      offset := offset + length;
    }
    ColumnsEnd(payload, offset);
    assert values + [] == values;
    return Some(values);
  }
}
