/**
 * BSON documents on the wire: src/record/protocols/bson.ts (BSON specification 1.1).
 */
module Bson {
  import opened Wire
  import opened Documents
  import Decimal
  import Doubles

  /**
   * One reading. Throws: the source throws, on a type it does not know, a number that is not all there, or a date out
   * of range. Malformed: the source clamps a field that runs past the buffer, goes back to the start of the buffer for
   * want of a terminator, or follows a negative size; what it makes of that is not modelled.
   */
  datatype Reading<+T> = Got(value: T) | Throws | Malformed

  const DOUBLE: byte := 0x01
  const STRING: byte := 0x02
  const DOCUMENT: byte := 0x03
  const ARRAY: byte := 0x04
  const BINARY: byte := 0x05
  const UNDEFINED: byte := 0x06
  const OBJECT_ID: byte := 0x07
  const BOOLEAN: byte := 0x08
  const DATE: byte := 0x09
  const NULL: byte := 0x0a
  const REGEX: byte := 0x0b
  const INT32: byte := 0x10
  const TIMESTAMP: byte := 0x11
  const INT64: byte := 0x12
  const DECIMAL: byte := 0x13

  // ----- reading -----

  /** A value and the offset after it. */
  datatype Read = Read(value: Value, next: nat)

  /** A date JavaScript can show: `toISOString` throws beyond it. */
  predicate IsDate(ms: int) {
    -8_640_000_000_000_000 <= ms <= 8_640_000_000_000_000
  }

  function Hex(b: Bytes): Text {
    if b == [] then [] else [HexDigit(b[0] / 16), HexDigit(b[0] % 16)] + Hex(b[1..])
  }

  function Num64(raw: int): Value {
    if Decimal.IsSafe(raw) then Num(Doubles.Int(raw)) else Long(raw)
  }

  const SLASH: Text := [47]

  function ReadRegex(b: Bytes, at: nat): (r: Reading<Read>)
    ensures r.Got? ==> at <= r.value.next <= |b|
  {
    match ZeroAt(b, at)
    case None => Malformed
    case Some(pattern) =>
      match ZeroAt(b, pattern + 1)
      case None => Malformed
      case Some(flags) =>
        Got(Read(Other(Ascii("regex"), SLASH + b[at..pattern] + SLASH + b[pattern + 1..flags]), flags + 1))
  }

  /** A value that is read into so many bytes, if they are there. */
  function Fixed(b: Bytes, at: nat, size: nat): bool {
    at + size <= |b|
  }

  /** A length field and the `extra + length` bytes after it. */
  function ReadSized(b: Bytes, at: nat, extra: nat): (length: Reading<nat>)
    ensures length.Got? ==> at + 4 + extra + length.value <= |b|
  {
    if !Fixed(b, at, 4) then Throws
    else
      var length := ReadInt32LE(b, at);
      if length < 0 || !Fixed(b, at, 4 + extra + length) then Malformed else Got(length)
  }

  /** Every kind of value but a nested document. */
  function ReadScalar(b: Bytes, kind: byte, at: nat): (r: Reading<Read>)
    requires at <= |b|
    ensures r.Got? ==> at <= r.value.next <= |b|
  {
    if kind == DOUBLE then
      if Fixed(b, at, 8) then Got(Read(Num(Doubles.NumberOf(ReadUint64LE(b, at))), at + 8)) else Throws
    else if kind == STRING then
      match ReadSized(b, at, 0)
      case Throws => Throws
      case Malformed => Malformed
      case Got(length) =>
        var size := if length == 0 then 0 else length - 1;
        Got(Read(Str(Slice(b, at + 4, at + 4 + size)), at + 4 + length))
    else if kind == BINARY then
      match ReadSized(b, at, 1)
      case Throws => Throws
      case Malformed => Malformed
      case Got(size) => Got(Read(Binary(b[at + 5..at + 5 + size]), at + 5 + size))
    else if kind == OBJECT_ID then
      if Fixed(b, at, 12) then Got(Read(ObjectId(b[at..at + 12]), at + 12)) else Malformed
    else if kind == BOOLEAN then
      if Fixed(b, at, 1) then Got(Read(Bool(b[at] == 1), at + 1)) else Malformed
    else if kind == DATE then
      if Fixed(b, at, 8) && IsDate(ReadInt64LE(b, at)) then Got(Read(Date(ReadInt64LE(b, at)), at + 8)) else Throws
    else if kind == NULL || kind == UNDEFINED then Got(Read(Null, at))
    else if kind == INT32 then
      if Fixed(b, at, 4) then Got(Read(Num(Doubles.Int(ReadInt32LE(b, at))), at + 4)) else Throws
    else if kind == TIMESTAMP || kind == INT64 then
      if Fixed(b, at, 8) then Got(Read(Num64(ReadInt64LE(b, at)), at + 8)) else Throws
    else if kind == REGEX then ReadRegex(b, at)
    else if kind == DECIMAL then
      if Fixed(b, at, 16) then Got(Read(Other(Ascii("decimal128"), Hex(b[at..at + 16])), at + 16)) else Malformed
    else Throws
  }

  function Remaining(b: Bytes, at: nat): nat {
    if at <= |b| then |b| - at else 0
  }

  predicate IsNested(kind: byte) {
    kind == DOCUMENT || kind == ARRAY
  }

  function Values(d: Document): (values: seq<Value>)
    ensures |values| == |d|
  {
    seq(|d|, i requires 0 <= i < |d| => d[i].value)
  }

  function Nested(kind: byte, d: Document): Value {
    if kind == ARRAY then Arr(Values(d)) else Doc(d)
  }

  function ReadElement(b: Bytes, kind: byte, at: nat): (r: Reading<Read>)
    requires at <= |b|
    ensures r.Got? ==> at <= r.value.next <= |b|
    decreases Remaining(b, at), 1
  {
    if !IsNested(kind) then ReadScalar(b, kind, at)
    else if !Fixed(b, at, 4) then Throws
    else
      var size := ReadInt32LE(b, at);
      match ReadDocument(b, at)
      case Throws => Throws
      case Malformed => Malformed
      case Got(nested) =>
        if size < 0 || !Fixed(b, at, size) then Malformed else Got(Read(Nested(kind, nested), at + size))
  }

  /** The elements from `at` on, assigned to `d` one after the other, up to `end` or a zero byte. */
  function ReadElements(b: Bytes, at: nat, end: int, d: Document): Reading<Document>
    decreases Remaining(b, at), 0
  {
    if at >= end then Got(d)
    else if at >= |b| then Throws
    else if b[at] == 0 then Got(d)
    else
      match ZeroAt(b, at + 1)
      case None => Malformed
      case Some(zero) =>
        match ReadElement(b, b[at], zero + 1)
        case Throws => Throws
        case Malformed => Malformed
        case Got(read) => ReadElements(b, read.next, end, Put(d, b[at + 1..zero], read.value))
  }

  /** One document starting at `start`. */
  function ReadDocument(b: Bytes, start: nat): Reading<Document>
    decreases Remaining(b, start), 0
  {
    if !Fixed(b, start, 4) then Throws
    else ReadElements(b, start + 4, start + ReadInt32LE(b, start) - 1, [])
  }

  // ----- the reading loop -----

  method DecodeElement(b: Bytes, kind: byte, at: nat) returns (r: Reading<Read>)
    requires at <= |b|
    ensures r == ReadElement(b, kind, at)
    decreases Remaining(b, at), 1
  {
    hide ReadScalar;
    if !IsNested(kind) {
      return ReadScalar(b, kind, at);
    }
    if !Fixed(b, at, 4) {
      return Throws;
    }
    var size := ReadInt32LE(b, at);
    var nested := DecodeDocument(b, at);
    match nested {
      case Throws => return Throws;
      case Malformed => return Malformed;
      case Got(d) =>
        if size < 0 || !Fixed(b, at, size) {
          return Malformed;
        }
        return Got(Read(Nested(kind, d), at + size));
    }
  }

  method DecodeDocument(b: Bytes, start: nat) returns (r: Reading<Document>)
    ensures r == ReadDocument(b, start)
    decreases Remaining(b, start), 0
  {
    hide ReadElement, ReadInt32LE;
    if !Fixed(b, start, 4) {
      return Throws;
    }
    var end := start + ReadInt32LE(b, start) - 1;
    var document: Document := [];
    var offset := start + 4;
    while offset < end
      invariant start + 4 <= offset
      invariant ReadElements(b, offset, end, document) == ReadDocument(b, start)
      decreases Remaining(b, offset), end - offset
    {
      if offset >= |b| {
        return Throws;
      }
      if b[offset] == 0 {
        break;
      }
      var zero := ZeroAt(b, offset + 1);
      if zero.None? {
        return Malformed;
      }
      var read := DecodeElement(b, b[offset], zero.value + 1);
      match read {
        case Throws => return Throws;
        case Malformed => return Malformed;
        case Got(element) =>
          document := Put(document, b[offset + 1..zero.value], element.value);
          offset := element.next;
      }
    }
    return Got(document);
  }

  /** Whatever is read is an object: distinct keys, in an order JavaScript can give them. */
  lemma {:induction false} ReadElementsIsObject(b: Bytes, at: nat, end: int, d: Document)
    requires IsObject(d)
    ensures var r := ReadElements(b, at, end, d); r.Got? ==> IsObject(r.value)
    decreases Remaining(b, at)
  {
    hide ReadElement, IsObject, Put;
    if at < end && at < |b| && b[at] != 0 && ZeroAt(b, at + 1).Some? {
      var zero := ZeroAt(b, at + 1).value;
      var read := ReadElement(b, b[at], zero + 1);
      if read.Got? {
        PutIsObject(d, b[at + 1..zero], read.value.value);
        ReadElementsIsObject(b, read.value.next, end, Put(d, b[at + 1..zero], read.value.value));
      }
    }
  }

  // ----- bytes around a document do not matter -----

  function MovedZero(r: Option<nat>, shift: nat): Option<nat> {
    match r
    case None => None
    case Some(at) => Some(shift + at)
  }

  function Moved(r: Reading<Read>, shift: nat): Reading<Read> {
    match r
    case Throws => Throws
    case Malformed => Malformed
    case Got(read) => Got(Read(read.value, shift + read.next))
  }

  /** What was found is found again among more bytes; what was not found stays so when nothing follows. */
  lemma {:induction false} ZeroAtWithin(pre: Bytes, b: Bytes, more: Bytes, at: nat)
    requires ZeroAt(b, at).Some? || more == []
    ensures ZeroAt(pre + b + more, |pre| + at) == MovedZero(ZeroAt(b, at), |pre|)
    decreases Remaining(b, at)
  {
    if at < |b| && b[at] != 0 {
      ZeroAtWithin(pre, b, more, at + 1);
    }
  }

  lemma {:induction false} FieldsWithin(pre: Bytes, b: Bytes, more: Bytes, at: nat)
    ensures Fixed(b, at, 1) ==> (pre + b + more)[|pre| + at] == b[at]
    ensures Fixed(b, at, 4) ==> ReadInt32LE(pre + b + more, |pre| + at) == ReadInt32LE(b, at)
    ensures Fixed(b, at, 8) ==> ReadUint64LE(pre + b + more, |pre| + at) == ReadUint64LE(b, at)
    ensures Fixed(b, at, 8) ==> ReadInt64LE(pre + b + more, |pre| + at) == ReadInt64LE(b, at)
  {
  }

  lemma {:induction false} SliceWithin(pre: Bytes, b: Bytes, more: Bytes, i: nat, j: nat)
    requires i <= j <= |b|
    ensures (pre + b + more)[|pre| + i..|pre| + j] == b[i..j]
  {
  }

  lemma {:induction false} SizedWithin(pre: Bytes, b: Bytes, more: Bytes, at: nat, extra: nat)
    requires ReadSized(b, at, extra).Got? || more == []
    ensures ReadSized(pre + b + more, |pre| + at, extra) == ReadSized(b, at, extra)
  {
  }

  lemma {:induction false} RegexWithin(pre: Bytes, b: Bytes, more: Bytes, at: nat)
    requires ReadRegex(b, at).Got? || more == []
    ensures ReadRegex(pre + b + more, |pre| + at) == Moved(ReadRegex(b, at), |pre|)
  {
    hide ZeroAt;
    ZeroAtWithin(pre, b, more, at);
    if ZeroAt(b, at).Some? {
      var pattern := ZeroAt(b, at).value;
      ZeroAtWithin(pre, b, more, pattern + 1);
      SliceWithin(pre, b, more, at, pattern);
      if ZeroAt(b, pattern + 1).Some? {
        SliceWithin(pre, b, more, pattern + 1, ZeroAt(b, pattern + 1).value);
      }
    }
  }

  lemma {:induction false} ScalarWithin(pre: Bytes, b: Bytes, more: Bytes, kind: byte, at: nat)
    requires at <= |b| && (ReadScalar(b, kind, at).Got? || more == [])
    ensures ReadScalar(pre + b + more, kind, |pre| + at) == Moved(ReadScalar(b, kind, at), |pre|)
  {
    hide ReadInt32LE, ReadInt64LE, ReadUint64LE, ReadSized, ReadRegex, Hex, Doubles.NumberOf, ZeroAt;
    var w := pre + b + more;
    FieldsWithin(pre, b, more, at);
    if kind == STRING {
      SizedWithin(pre, b, more, at, 0);
      if ReadSized(b, at, 0).Got? {
        var length := ReadSized(b, at, 0).value;
        SliceWithin(pre, b, more, at + 4, at + 4 + (if length == 0 then 0 else length - 1));
      }
    } else if kind == BINARY {
      SizedWithin(pre, b, more, at, 1);
      if ReadSized(b, at, 1).Got? {
        SliceWithin(pre, b, more, at + 5, at + 5 + ReadSized(b, at, 1).value);
      }
    } else if kind == OBJECT_ID && Fixed(b, at, 12) {
      SliceWithin(pre, b, more, at, at + 12);
    } else if kind == DECIMAL && Fixed(b, at, 16) {
      SliceWithin(pre, b, more, at, at + 16);
    } else if kind == REGEX {
      RegexWithin(pre, b, more, at);
    }
  }

  lemma {:induction false} ElementWithin(pre: Bytes, b: Bytes, more: Bytes, kind: byte, at: nat)
    requires at <= |b| && (ReadElement(b, kind, at).Got? || more == [])
    ensures ReadElement(pre + b + more, kind, |pre| + at) == Moved(ReadElement(b, kind, at), |pre|)
    decreases Remaining(b, at), 1
  {
    hide ReadScalar, ReadInt32LE, ReadDocument, Nested;
    FieldsWithin(pre, b, more, at);
    if !IsNested(kind) {
      ScalarWithin(pre, b, more, kind, at);
    } else if Fixed(b, at, 4) {
      if ReadDocument(b, at).Got? || more == [] {
        DocumentWithin(pre, b, more, at);
      }
    }
  }

  lemma {:induction false} ElementsWithin(pre: Bytes, b: Bytes, more: Bytes, at: nat, end: int, d: Document)
    requires ReadElements(b, at, end, d).Got? || more == []
    ensures ReadElements(pre + b + more, |pre| + at, |pre| + end, d) == ReadElements(b, at, end, d)
    decreases Remaining(b, at), 0
  {
    hide ReadElement, ZeroAt, Put;
    FieldsWithin(pre, b, more, at);
    if at < end && at < |b| && b[at] != 0 {
      ZeroAtWithin(pre, b, more, at + 1);
      if ZeroAt(b, at + 1).Some? {
        var zero := ZeroAt(b, at + 1).value;
        SliceWithin(pre, b, more, at + 1, zero);
        ElementWithin(pre, b, more, b[at], zero + 1);
        var read := ReadElement(b, b[at], zero + 1);
        if read.Got? {
          ElementsWithin(pre, b, more, read.value.next, end, Put(d, b[at + 1..zero], read.value.value));
        }
      }
    }
  }

  /** A document read from a buffer is read alike wherever the buffer lies in a longer one. */
  lemma {:induction false} DocumentWithin(pre: Bytes, b: Bytes, more: Bytes, start: nat)
    requires ReadDocument(b, start).Got? || more == []
    ensures ReadDocument(pre + b + more, |pre| + start) == ReadDocument(b, start)
    decreases Remaining(b, start), 0
  {
    hide ReadElements, ReadInt32LE;
    FieldsWithin(pre, b, more, start);
    if Fixed(b, start, 4) {
      ElementsWithin(pre, b, more, start + 4, start + ReadInt32LE(b, start) - 1, []);
    }
  }
}
