/**
 * The Redis wire protocol: src/record/protocols/resp.ts.
 *
 * A value is read at an offset of a buffer that may hold only part of it. The laws at the end say that encoding and
 * decoding undo each other at every nesting depth, that no part of an encoding is taken for a whole value, and that
 * a finished decode depends on nothing but the bytes it consumed.
 */
module Resp {
  import opened Wire
  import opened Streams
  import opened Words
  import Decimal

  datatype Value =
    | Simple(text: Text)
    | Error(text: Text)
    | Integer(n: Decimal.JsInteger)
    | Bulk(text: Text)
    | NullBulk
    | Array(items: seq<Value>)
    | NullArray
    | Unsupported(text: Text)

  const CR: byte := 13
  const LF: byte := 10
  const CRLF: Bytes := [CR, LF]

  const SIMPLE: byte := 43
  const ERROR: byte := 45
  const INTEGER: byte := 58
  const BULK: byte := 36
  const ARRAY: byte := 42

  // ----- decoding -----

  predicate EndsLine(buffer: Bytes, at: nat) {
    at + 1 < |buffer| && buffer[at] == CR && buffer[at + 1] == LF
  }

  /** Index of the first line end at or after `from`. */
  function LineEnd(buffer: Bytes, from: nat): (end: Option<nat>)
    ensures end.Some? ==> from <= end.value < |buffer| - 1
    decreases |buffer| - from
  {
    if from + 1 >= |buffer| then None
    else if EndsLine(buffer, from) then Some(from)
    else LineEnd(buffer, from + 1)
  }

  function Remaining(buffer: Bytes, offset: nat): nat {
    if offset <= |buffer| then |buffer| - offset else 0
  }

  /** The line every value opens with: its marker byte, the text after it, and the size of the line with its end. */
  datatype Header = Header(marker: byte, text: Text, bytes: nat)

  function ReadHeader(buffer: Bytes, offset: nat): (h: Option<Header>)
    ensures h.Some? ==> 2 <= h.value.bytes <= Remaining(buffer, offset)
  {
    if offset >= |buffer| then None
    else
      match LineEnd(buffer, offset)
      case None => None
      case Some(end) => Some(Header(buffer[offset], Slice(buffer, offset + 1, end), end + |CRLF| - offset))
  }

  /** Decode one value of `buffer` at `offset`; Partial when only part of it is there. */
  function Decode(buffer: Bytes, offset: nat): (r: Outcome<Value>)
    ensures r.Done? ==> 2 <= r.bytes <= Remaining(buffer, offset)
    decreases Remaining(buffer, offset), 0
  {
    match ReadHeader(buffer, offset)
    case None => Partial
    case Some(h) =>
      if h.marker == SIMPLE then Done(Simple(h.text), h.bytes)
      else if h.marker == ERROR then Done(Error(h.text), h.bytes)
      else if h.marker == INTEGER || h.marker == BULK || h.marker == ARRAY then
        match Decimal.Number(h.text)
        case None => Foreign
        case Some(n) =>
          if h.marker == INTEGER then Done(Integer(n), h.bytes)
          else if h.marker == BULK then DecodeBulk(buffer, offset, n, h.bytes)
          else if n < 0 then Done(NullArray, h.bytes)
          else AsArray(DecodeItems(buffer, offset + h.bytes, n), h.bytes)
      else Done(Unsupported([h.marker] + h.text), h.bytes)
  }

  function AsArray(items: Outcome<seq<Value>>, headerBytes: nat): Outcome<Value> {
    match items
    case Done(values, bytes) => Done(Array(values), headerBytes + bytes)
    case Partial => Partial
    case Foreign => Foreign
  }

  /** A bulk whose header line is read: the payload and its line end must both have arrived. */
  function DecodeBulk(buffer: Bytes, offset: nat, length: int, headerBytes: nat): (r: Outcome<Value>)
    requires offset + headerBytes <= |buffer|
    ensures r.Done? ==> headerBytes <= r.bytes <= |buffer| - offset
  {
    if length < 0 then Done(NullBulk, headerBytes)
    else
      var start := offset + headerBytes;
      var finish := start + length;
      if |buffer| < finish + |CRLF| then Partial
      else Done(Bulk(buffer[start..finish]), headerBytes + length + |CRLF|)
  }

  /**
   * What the item loop of an array collects: `count` values one after the other, or the first one that is not there.
   */
  function DecodeItems(buffer: Bytes, at: nat, count: nat): (r: Outcome<seq<Value>>)
    ensures r.Done? ==> |r.value| == count && 2 * count <= r.bytes <= Remaining(buffer, at)
    decreases Remaining(buffer, at), 1
  {
    if count == 0 then Done([], 0)
    else
      match Decode(buffer, at)
      case Partial => Partial
      case Foreign => Foreign
      case Done(item, bytes) =>
        match DecodeItems(buffer, at + bytes, count - 1)
        case Partial => Partial
        case Foreign => Foreign
        case Done(items, more) => Done([item] + items, bytes + more)
  }

  /** The items collected before the rest of an array is read. */
  function After(items: seq<Value>, bytes: nat, left: Outcome<seq<Value>>): Outcome<seq<Value>> {
    match left
    case Done(values, more) => Done(items + values, bytes + more)
    case Partial => Partial
    case Foreign => Foreign
  }

  lemma {:induction false} AfterItem(items: seq<Value>, bytes: nat, buffer: Bytes, at: nat, count: nat)
    requires 0 < count
    ensures After(items, bytes, DecodeItems(buffer, at, count)) ==
            match Decode(buffer, at)
            case Partial => Partial
            case Foreign => Foreign
            case Done(item, n) => After(items + [item], bytes + n, DecodeItems(buffer, at + n, count - 1))
  {
    hide Decode;
    if Decode(buffer, at).Done? {
      var item, n := Decode(buffer, at).value, Decode(buffer, at).bytes;
      var left := DecodeItems(buffer, at + n, count - 1);
      if left.Done? {
        assert items + ([item] + left.value) == (items + [item]) + left.value;
      }
    }
  }

  lemma {:induction false} AfterEnds(items: seq<Value>, bytes: nat, buffer: Bytes, at: nat, left: Outcome<seq<Value>>)
    ensures After(items, bytes, DecodeItems(buffer, at, 0)) == Done(items, bytes)
    ensures After([], 0, left) == left
  {
    assert items + [] == items;
    assert left.Done? ==> [] + left.value == left.value;
  }

  /** The item loop itself. */
  method DecodeArray(buffer: Bytes, offset: nat, headerBytes: nat, count: nat) returns (r: Outcome<Value>)
    requires offset + headerBytes <= |buffer|
    ensures r == AsArray(DecodeItems(buffer, offset + headerBytes, count), headerBytes)
  {
    hide Decode, DecodeItems, After;
    var items: seq<Value> := [];
    var consumed := headerBytes;
    var index := 0;
    ghost var whole := DecodeItems(buffer, offset + headerBytes, count);
    AfterEnds([], 0, buffer, offset, whole);
    while index < count
      invariant index <= count && headerBytes <= consumed && offset + consumed <= |buffer|
      invariant whole == After(items, consumed - headerBytes, DecodeItems(buffer, offset + consumed, count - index))
    {
      AfterItem(items, consumed - headerBytes, buffer, offset + consumed, count - index);
      var item := Decode(buffer, offset + consumed);
      if item.Partial? {
        return Partial;
      } else if item.Foreign? {
        return Foreign;
      }
      items := items + [item.value];
      consumed := consumed + item.bytes;
      index := index + 1;
    }
    AfterEnds(items, consumed - headerBytes, buffer, offset + consumed, whole);
    return Done(Array(items), consumed);
  }

  // ----- encoding -----

  function Line(marker: byte, text: Text): Bytes {
    [marker] + text + CRLF
  }

  function Encode(value: Value): (b: Bytes)
    decreases value
  {
    match value
    case Simple(text) => Line(SIMPLE, text)
    case Error(text) => Line(ERROR, text)
    case Integer(n) => Line(INTEGER, Decimal.Print(n))
    case Bulk(text) => Line(BULK, Decimal.Literal(|text|)) + text + CRLF
    case NullBulk => Line(BULK, Decimal.Literal(-1))
    case Array(items) => Line(ARRAY, Decimal.Literal(|items|)) + EncodeAll(items)
    case NullArray => Line(ARRAY, Decimal.Literal(-1))
    case Unsupported(_) => Line(ERROR, Ascii("ERR cognivox recorded an unsupported reply"))
  }

  function EncodeAll(items: seq<Value>): Bytes
    decreases items
  {
    if items == [] then [] else Encode(items[0]) + EncodeAll(items[1..])
  }

  predicate IsLine(text: Text) {
    forall i | 0 <= i < |text| :: !EndsLine(text, i)
  }

  /** The values a Redis peer puts on the wire, at every depth. */
  predicate WellFormed(value: Value)
    decreases value
  {
    match value
    case Simple(text) => IsLine(text)
    case Error(text) => IsLine(text)
    case Integer(_) => true
    case Bulk(text) => Decimal.IsSafe(|text|)
    case Array(items) => Decimal.IsSafe(|items|) && forall i | 0 <= i < |items| :: WellFormed(items[i])
    case Unsupported(_) => false
    case NullBulk => true
    case NullArray => true
  }

  // ----- a decode depends only on the bytes it reads -----

  /** The line end found is the first one: exactly one answer fits. */
  lemma {:induction false} LineEndIs(buffer: Bytes, from: nat, end: nat)
    requires from <= end && EndsLine(buffer, end) && forall i | from <= i < end :: !EndsLine(buffer, i)
    ensures LineEnd(buffer, from) == Some(end)
    decreases end - from
  {
    if from < end {
      LineEndIs(buffer, from + 1, end);
    }
  }

  lemma {:induction false} LineEndFirst(buffer: Bytes, from: nat)
    ensures match LineEnd(buffer, from)
            case Some(end) => EndsLine(buffer, end) && forall i | from <= i < end :: !EndsLine(buffer, i)
            case None => forall i | from <= i :: !EndsLine(buffer, i)
    decreases |buffer| - from
  {
    if from + 1 < |buffer| && !EndsLine(buffer, from) {
      LineEndFirst(buffer, from + 1);
    }
  }

  lemma {:induction false} ReadHeaderGrows(b: Bytes, more: Bytes, offset: nat)
    requires ReadHeader(b, offset).Some?
    ensures ReadHeader(b + more, offset) == ReadHeader(b, offset)
  {
    var end, all := LineEnd(b, offset).value, b + more;
    LineEndFirst(b, offset);
    forall i | offset <= i < end ensures !EndsLine(all, i) {
      assert !EndsLine(b, i);
    }
    LineEndIs(all, offset, end);
    if offset + 1 <= end {
      assert all[offset + 1..end] == b[offset + 1..end];
    }
  }

  lemma {:induction false} DecodeBulkGrows(b: Bytes, more: Bytes, offset: nat, length: int, headerBytes: nat)
    requires offset + headerBytes <= |b| && !DecodeBulk(b, offset, length, headerBytes).Partial?
    ensures DecodeBulk(b + more, offset, length, headerBytes) == DecodeBulk(b, offset, length, headerBytes)
  {
    if length >= 0 {
      var start, finish := offset + headerBytes, offset + headerBytes + length;
      assert (b + more)[start..finish] == b[start..finish];
    }
  }

  /** A finished decode is unchanged by bytes appended to the buffer. */
  lemma {:induction false} DecodeGrows(b: Bytes, more: Bytes, offset: nat)
    requires !Decode(b, offset).Partial?
    ensures Decode(b + more, offset) == Decode(b, offset)
    decreases Remaining(b, offset), 0
  {
    hide DecodeItems, ReadHeader, DecodeBulk, Decimal.Number;
    ReadHeaderGrows(b, more, offset);
    var h := ReadHeader(b, offset).value;
    var number := Decimal.Number(h.text);
    if number.Some? {
      if h.marker == BULK {
        DecodeBulkGrows(b, more, offset, number.value, h.bytes);
      } else if h.marker == ARRAY && number.value >= 0 {
        DecodeItemsGrow(b, more, offset + h.bytes, number.value);
      }
    }
  }

  lemma {:induction false} DecodeItemsGrow(b: Bytes, more: Bytes, at: nat, count: nat)
    requires !DecodeItems(b, at, count).Partial?
    ensures DecodeItems(b + more, at, count) == DecodeItems(b, at, count)
    decreases Remaining(b, at), 1
  {
    hide Decode;
    if count > 0 {
      DecodeGrows(b, more, at);
      if Decode(b, at).Done? {
        DecodeItemsGrow(b, more, at + Decode(b, at).bytes, count - 1);
      }
    }
  }

  lemma {:induction false} ReadHeaderShifts(pre: Bytes, b: Bytes, offset: nat)
    ensures ReadHeader(pre + b, |pre| + offset) == ReadHeader(b, offset)
  {
    var all, at := pre + b, |pre| + offset;
    LineEndFirst(b, offset);
    LineEndFirst(all, at);
    forall i | offset <= i ensures EndsLine(all, |pre| + i) == EndsLine(b, i) {
    }
    if LineEnd(b, offset).Some? {
      var end := LineEnd(b, offset).value;
      forall i | at <= i < |pre| + end ensures !EndsLine(all, i) {
        assert EndsLine(all, |pre| + (i - |pre|)) == EndsLine(b, i - |pre|);
      }
      assert EndsLine(all, |pre| + end);
      LineEndIs(all, at, |pre| + end);
      if offset + 1 <= end {
        assert all[at + 1..|pre| + end] == b[offset + 1..end];
      }
    } else {
      forall i | at <= i ensures !EndsLine(all, i) {
        assert EndsLine(all, |pre| + (i - |pre|)) == EndsLine(b, i - |pre|);
      }
    }
  }

  lemma {:induction false} DecodeBulkShifts(pre: Bytes, b: Bytes, offset: nat, length: int, headerBytes: nat)
    requires offset + headerBytes <= |b|
    ensures DecodeBulk(pre + b, |pre| + offset, length, headerBytes) == DecodeBulk(b, offset, length, headerBytes)
  {
    var start, finish := offset + headerBytes, offset + headerBytes + length;
    if start <= finish <= |b| {
      assert (pre + b)[|pre| + start..|pre| + finish] == b[start..finish];
    }
  }

  /** A decode does not depend on the bytes before its offset. */
  lemma {:induction false} DecodeShifts(pre: Bytes, b: Bytes, offset: nat)
    ensures Decode(pre + b, |pre| + offset) == Decode(b, offset)
    decreases Remaining(b, offset), 0
  {
    hide DecodeItems, DecodeBulk, ReadHeader;
    ReadHeaderShifts(pre, b, offset);
    if ReadHeader(b, offset).Some? {
      var h := ReadHeader(b, offset).value;
      var number := Decimal.Number(h.text);
      if number.Some? {
        if h.marker == BULK {
          DecodeBulkShifts(pre, b, offset, number.value, h.bytes);
        } else if h.marker == ARRAY && number.value >= 0 {
          DecodeItemsShift(pre, b, offset + h.bytes, number.value);
        }
      }
    }
  }

  lemma {:induction false} DecodeItemsShift(pre: Bytes, b: Bytes, at: nat, count: nat)
    ensures DecodeItems(pre + b, |pre| + at, count) == DecodeItems(b, at, count)
    decreases Remaining(b, at), 1
  {
    hide Decode, ReadHeader;
    if count > 0 {
      DecodeShifts(pre, b, at);
      if Decode(b, at).Done? {
        DecodeItemsShift(pre, b, at + Decode(b, at).bytes, count - 1);
      }
    }
  }

  /** The stream reader the recorders and servers loop over. */
  function Read(b: Bytes): Outcome<Value> {
    Decode(b, 0)
  }

  lemma {:induction false} ReadIsStable()
    ensures Stable(Read)
  {
    forall b, more ensures Settled(Read, b, more) {
      if Read(b).Done? {
        DecodeGrows(b, more, 0);
      }
    }
  }

  /** Reading at an offset is reading the rest of the buffer. */
  lemma {:induction false} DecodeAtOffset(buffer: Bytes, offset: nat)
    requires offset <= |buffer|
    ensures Decode(buffer, offset) == Read(buffer[offset..])
  {
    DecodeShifts(buffer[..offset], buffer[offset..], 0);
    assert buffer[..offset] + buffer[offset..] == buffer;
  }

  // ----- encoding and decoding undo each other -----

  /** A header line reads back as its text, whatever follows. */
  lemma {:induction false} ReadHeaderOfLine(marker: byte, text: Text, rest: Bytes)
    requires marker != CR && IsLine(text)
    ensures ReadHeader(Line(marker, text) + rest, 0) == Some(Header(marker, text, |text| + 3))
  {
    var b := Line(marker, text) + rest;
    forall i | 0 <= i < 1 + |text| ensures !EndsLine(b, i) {
      if 0 < i {
        assert b[i] == text[i - 1];
        assert !EndsLine(text, i - 1);
        assert b[i + 1] == if i < |text| then text[i] else CR;
      }
    }
    assert b[1 + |text|] == CR && b[2 + |text|] == LF;
    LineEndIs(b, 0, 1 + |text|);
    assert b[1..1 + |text|] == text;
  }

  lemma {:induction false} LiteralIsLine(n: int)
    ensures IsLine(Decimal.Literal(n))
  {
  }

  /** The size line of a bulk or an array. */
  lemma {:induction false} ReadHeaderOfSize(marker: byte, n: int, rest: Bytes)
    requires marker != CR && Decimal.IsSafe(n)
    ensures ReadHeader(Line(marker, Decimal.Literal(n)) + rest, 0)
            == Some(Header(marker, Decimal.Literal(n), |Line(marker, Decimal.Literal(n))|))
    ensures Decimal.Number(Decimal.Literal(n)) == Some(n)
  {
    LiteralIsLine(n);
    Decimal.SafeIsExact(n);
    ReadHeaderOfLine(marker, Decimal.Literal(n), rest);
  }

  lemma {:induction false} DecodeOfInteger(n: Decimal.JsInteger, rest: Bytes)
    ensures Decode(Encode(Integer(n)) + rest, 0) == Done(Integer(n), |Encode(Integer(n))|)
  {
    hide Decimal.Literal, Decimal.Number, Decimal.Shown, ReadHeader;
    LiteralIsLine(Decimal.Shown(n));
    Decimal.NumberOfPrint(n);
    ReadHeaderOfLine(INTEGER, Decimal.Print(n), rest);
  }

  lemma {:induction false} DecodeOfBulk(text: Text, rest: Bytes)
    requires Decimal.IsSafe(|text|)
    ensures Decode(Encode(Bulk(text)) + rest, 0) == Done(Bulk(text), |Encode(Bulk(text))|)
  {
    hide ReadHeader, Decimal.Number, Decimal.Literal;
    var head := Line(BULK, Decimal.Literal(|text|));
    var b := head + (text + CRLF + rest);
    ReadHeaderOfSize(BULK, |text|, text + CRLF + rest);
    assert Encode(Bulk(text)) + rest == b;
    assert b[|head|..|head| + |text|] == text;
  }

  lemma {:induction false} DecodeOfArray(items: seq<Value>, rest: Bytes)
    requires Decimal.IsSafe(|items|)
    requires DecodeItems(EncodeAll(items) + rest, 0, |items|) == Done(items, |EncodeAll(items)|)
    ensures Decode(Encode(Array(items)) + rest, 0) == Done(Array(items), |Encode(Array(items))|)
  {
    hide DecodeItems, EncodeAll, ReadHeader, Decimal.Number, Decimal.Literal;
    var head, body := Line(ARRAY, Decimal.Literal(|items|)), EncodeAll(items) + rest;
    ReadHeaderOfSize(ARRAY, |items|, body);
    assert Encode(Array(items)) == head + EncodeAll(items);
    assert Encode(Array(items)) + rest == head + body;
    DecodeItemsShift(head, body, 0, |items|);
  }

  /** Decoding undoes encoding at every depth, with the exact size, whatever bytes follow. */
  lemma {:induction false} DecodeOfEncode(value: Value, rest: Bytes)
    requires WellFormed(value)
    ensures Decode(Encode(value) + rest, 0) == Done(value, |Encode(value)|)
    decreases value
  {
    hide DecodeItems, EncodeAll, ReadHeader, Decimal.Number, Decimal.Literal, Decimal.Shown;
    match value
    case Simple(text) => ReadHeaderOfLine(SIMPLE, text, rest);
    case Error(text) => ReadHeaderOfLine(ERROR, text, rest);
    case Integer(n) => DecodeOfInteger(n, rest);
    case NullBulk => ReadHeaderOfSize(BULK, -1, rest);
    case NullArray => ReadHeaderOfSize(ARRAY, -1, rest);
    case Bulk(text) => DecodeOfBulk(text, rest);
    case Array(items) =>
      DecodeOfEncodeAll(items, rest);
      DecodeOfArray(items, rest);
  }

  lemma {:induction false} DecodeOfEncodeAll(items: seq<Value>, rest: Bytes)
    requires forall i | 0 <= i < |items| :: WellFormed(items[i])
    ensures DecodeItems(EncodeAll(items) + rest, 0, |items|) == Done(items, |EncodeAll(items)|)
    decreases items
  {
    hide Decode, Encode;
    if items != [] {
      var first, others := Encode(items[0]), EncodeAll(items[1..]) + rest;
      assert EncodeAll(items) == first + EncodeAll(items[1..]);
      assert EncodeAll(items) + rest == first + others;
      DecodeOfEncode(items[0], others);
      DecodeOfEncodeAll(items[1..], rest);
      DecodeItemsShift(first, others, 0, |items| - 1);
      assert [items[0]] + items[1..] == items;
    }
  }

  /** The same law as a property of the stream reader. */
  lemma {:induction false} ReadInvertsEncode(value: Value)
    requires WellFormed(value)
    ensures Inverts(Read, value, Encode(value))
  {
    forall rest ensures Undoes(Read, value, Encode(value), rest) {
      DecodeOfEncode(value, rest);
    }
  }

  /** Every proper prefix of an encoding is a value that has not fully arrived, never a shorter value. */
  lemma {:induction false} PrefixIsPartial(value: Value, k: nat)
    requires WellFormed(value) && k < |Encode(value)|
    ensures Decode(Encode(value)[..k], 0) == Partial
  {
    var part, left := Encode(value)[..k], Encode(value)[k..];
    DecodeOfEncode(value, []);
    assert part + left == Encode(value) + [];
    if !Decode(part, 0).Partial? {
      DecodeGrows(part, left, 0);
    }
  }

  /** Encodings are a uniquely readable code: equal streams carry equal values. */
  lemma {:induction false} EncodeAllInjective(xs: seq<Value>, ys: seq<Value>)
    requires forall i | 0 <= i < |xs| :: WellFormed(xs[i])
    requires forall i | 0 <= i < |ys| :: WellFormed(ys[i])
    requires EncodeAll(xs) == EncodeAll(ys)
    ensures xs == ys
  {
    ParseEncodeAll(xs);
    ParseEncodeAll(ys);
  }

  /** A stream of encoded values reads back as those values with nothing left over. */
  lemma {:induction false} ParseEncodeAll(values: seq<Value>)
    requires forall i | 0 <= i < |values| :: WellFormed(values[i])
    ensures Parse(Read, EncodeAll(values)) == Parsed(values, [])
    decreases |values|
  {
    if values != [] {
      var first, others := Encode(values[0]), EncodeAll(values[1..]);
      DecodeOfEncode(values[0], others);
      assert (first + others)[|first|..] == others;
      ParseEncodeAll(values[1..]);
      assert [values[0]] + values[1..] == values;
    }
  }

  // ----- commands -----

  /** A command as the app sent it: the verb, in capitals, and its arguments. */
  datatype Command = Command(verb: Text, args: seq<Text>)

  function Upper(t: Text): (r: Text)
    ensures |r| == |t|
  {
    seq(|t|, i requires 0 <= i < |t| => if 97 <= t[i] <= 122 then t[i] - 32 else t[i])
  }

  /** The text of one part of a command array; what is neither a bulk nor a simple string counts as empty. */
  function PartText(item: Value): Text {
    match item
    case Bulk(text) => text
    case Simple(text) => text
    case _ => []
  }

  function PartTexts(items: seq<Value>): (parts: seq<Text>)
    ensures |parts| == |items|
  {
    seq(|items|, i requires 0 <= i < |items| => PartText(items[i]))
  }

  function ToCommand(value: Value): Option<Command> {
    match value
    case Array(items) =>
      if items == [] then None
      else
        var parts := PartTexts(items);
        Some(Command(Upper(parts[0]), parts[1..]))
    case Simple(text) =>
      var words := WordsOf(text);
      if words == [] then None else Some(Command(Upper(words[0]), words[1..]))
    case _ => None
  }

  /** How a client sends a command: an array of bulk strings. */
  function BulkArray(parts: seq<Text>): (v: Value)
    ensures v.Array? && |v.items| == |parts|
    ensures forall i | 0 <= i < |parts| :: v.items[i] == Bulk(parts[i])
  {
    Array(seq(|parts|, i requires 0 <= i < |parts| => Bulk(parts[i])))
  }

  lemma {:induction false} CommandOfBulkArray(parts: seq<Text>)
    requires parts != []
    ensures ToCommand(BulkArray(parts)) == Some(Command(Upper(parts[0]), parts[1..]))
  {
    assert PartTexts(BulkArray(parts).items) == parts;
  }

  // ----- the shape stored in a recording -----

  /** The JSON a reply is stored as: its kind and its value. */
  datatype Stored = Stored(kind: string, value: StoredValue)

  datatype StoredValue = Null | Number(n: Decimal.JsInteger) | String(text: Text) | List(items: seq<Stored>)

  /** `String(value)` of a stored scalar. */
  function StringOf(value: StoredValue): Text {
    match value
    case Null => Ascii("null")
    case Number(n) => Decimal.Print(n)
    case String(text) => text
    case List(_) => []
  }

  /** The stored values `fromStored` reads without throwing, and whose texts are modelled. */
  predicate Readable(stored: Stored)
    decreases stored
  {
    if stored.kind == "array" then
      && (stored.value.Null? || stored.value.List?)
      && (stored.value.List? ==> forall i | 0 <= i < |stored.value.items| :: Readable(stored.value.items[i]))
    else if stored.kind == "integer" then
      stored.value.Number? || (stored.value.String? && Decimal.Number(stored.value.text).Some?) || stored.value.Null?
    else
      !stored.value.List?
  }

  /** What a recording holds for a reply. */
  type Reply = s: Stored | Readable(s) witness Stored("bulk", Null)

  function Describe(value: Value): (stored: Stored)
    ensures Readable(stored)
    decreases value
  {
    match value
    case Simple(text) => Stored("simple", String(text))
    case Error(text) => Stored("error", String(text))
    case Integer(n) => Stored("integer", Number(n))
    case Bulk(text) => Stored("bulk", String(text))
    case NullBulk => Stored("bulk", Null)
    case Array(items) => Stored("array", List(DescribeAll(items)))
    case NullArray => Stored("array", Null)
    case Unsupported(text) => Stored("unsupported", String(text))
  }

  function DescribeAll(items: seq<Value>): (stored: seq<Stored>)
    ensures |stored| == |items| && forall i | 0 <= i < |stored| :: Readable(stored[i])
    decreases items
  {
    if items == [] then [] else [Describe(items[0])] + DescribeAll(items[1..])
  }

  function FromStored(stored: Stored): Value
    requires Readable(stored)
    decreases stored
  {
    if stored.kind == "array" then
      if stored.value.Null? then NullArray else Array(FromAllStored(stored.value.items))
    else if stored.kind == "integer" then
      match stored.value
      case Number(n) => Integer(n)
      case String(text) => Integer(Decimal.Number(text).value)
      case Null => Integer(0)
    else if stored.kind == "bulk" then
      if stored.value.Null? then NullBulk else Bulk(StringOf(stored.value))
    else if stored.kind == "simple" then Simple(StringOf(stored.value))
    else if stored.kind == "error" then Error(StringOf(stored.value))
    else Unsupported(if stored.value.Null? then [] else StringOf(stored.value))
  }

  function FromAllStored(items: seq<Stored>): (values: seq<Value>)
    requires forall i | 0 <= i < |items| :: Readable(items[i])
    ensures |values| == |items|
    decreases items
  {
    if items == [] then [] else [FromStored(items[0])] + FromAllStored(items[1..])
  }

  /** Storing a reply and rebuilding it loses nothing: a null stays null, an empty text stays empty, at every depth. */
  lemma {:induction false} FromDescribe(value: Value)
    ensures FromStored(Describe(value)) == value
    decreases value
  {
    if value.Array? {
      FromDescribeAll(value.items);
    }
  }

  lemma {:induction false} FromDescribeAll(items: seq<Value>)
    ensures FromAllStored(DescribeAll(items)) == items
    decreases items
  {
    if items != [] {
      FromDescribe(items[0]);
      FromDescribeAll(items[1..]);
      assert DescribeAll(items)[1..] == DescribeAll(items[1..]);
      assert [items[0]] + items[1..] == items;
    }
  }
}
