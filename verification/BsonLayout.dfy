/**
 * BSON in bytes (BSON specification 1.1), and how src/record/protocols/bson.ts reads and writes it, type by type.
 * Nothing here is stated through the reader's own type bytes or fields.
 */
module BsonLayout {
  import opened Wire
  import opened Documents
  import opened Bson
  import opened BsonWriter
  import Decimal
  import Doubles

  // ----- integers, least significant byte first -----

  function Place32(b: Bytes): int
    requires |b| == 4
  {
    b[0] as int + b[1] as int * 256 + b[2] as int * 65536 + b[3] as int * 16777216
    - (if b[3] >= 128 then 4294967296 else 0)
  }

  function Bits64(b: Bytes): int
    requires |b| == 8
  {
    b[0] as int + b[1] as int * 256 + b[2] as int * 65536 + b[3] as int * 16777216
    + 4294967296 * (b[4] as int + b[5] as int * 256 + b[6] as int * 65536 + b[7] as int * 16777216)
  }

  function Place64(b: Bytes): int
    requires |b| == 8
  {
    Bits64(b) - (if b[7] >= 128 then 18446744073709551616 else 0)
  }

  lemma {:induction false} Reads32(pre: Bytes, field: Bytes, rest: Bytes)
    requires |field| == 4
    ensures ReadInt32LE(pre + field + rest, |pre|) == Place32(field)
  {
    var b := pre + field + rest;
    assert b[|pre|] == field[0] && b[|pre| + 1] == field[1] && b[|pre| + 2] == field[2] && b[|pre| + 3] == field[3];
  }

  lemma {:induction false} Reads64(pre: Bytes, field: Bytes, rest: Bytes)
    requires |field| == 8
    ensures ReadUint64LE(pre + field + rest, |pre|) == Bits64(field)
    ensures ReadInt64LE(pre + field + rest, |pre|) == Place64(field)
  {
    var b := pre + field + rest;
    assert forall i | 0 <= i < 8 :: b[|pre| + i] == field[i];
    assert b[|pre|] == field[0];
  }

  lemma {:induction false} Writes32(n: int)
    requires FitsInt32(n)
    ensures Place32(Int32LE(n)) == n
  {
    hide Int32LE, ReadInt32LE, Place32;
    Int32LERoundTrip([], n, []);
    Reads32([], Int32LE(n), []);
  }

  lemma {:induction false} WritesBits(u: int)
    requires 0 <= u < 0x1_0000_0000_0000_0000
    ensures Bits64(Uint64LE(u)) == u
  {
    hide Uint64LE, ReadUint64LE, ReadInt64LE, Bits64;
    Uint64LERoundTrip([], u, []);
    Reads64([], Uint64LE(u), []);
  }

  lemma {:induction false} Writes64(n: int)
    requires FitsInt64(n)
    ensures Place64(Int64LE(n)) == n
  {
    hide Int64LE, ReadUint64LE, ReadInt64LE, Place64;
    Int64LERoundTrip([], n, []);
    Reads64([], Int64LE(n), []);
  }

  // ----- doubles (IEEE 754, binary64) -----

  function Power(k: nat): nat {
    if k == 0 then 1 else 2 * Power(k - 1)
  }

  lemma {:induction false} PowerIs(k: nat)
    ensures Doubles.Pow2(k) == Power(k) > 0
  {
    if k > 0 {
      PowerIs(k - 1);
    }
  }

  /** Sign, exponent and fraction of a 64-bit pattern. */
  predicate HasFields(bits: int, negative: bool, exponent: int, fraction: int) {
    && 0 <= exponent < 2048 && 0 <= fraction < 4503599627370496
    && bits == (if negative then 9223372036854775808 else 0) + exponent * 4503599627370496 + fraction
  }

  lemma {:induction false} FieldsFound(bits: int, negative: bool, exponent: int, fraction: int)
    requires HasFields(bits, negative, exponent, fraction)
    ensures 0 <= bits < Doubles.TWO64 && (negative <==> bits >= Doubles.TWO63)
    ensures bits / Doubles.TWO52 % 2048 == exponent && bits % Doubles.TWO52 == fraction
  {
  }

  /**
   * A pattern stands for NaN, zero, negative zero, or the safe integer `n` where n * 2^(1075 - exponent) is the signed
   * significand; every other pattern is a number that is no safe integer.
   */
  lemma {:induction false} DoubleIs(bits: int, negative: bool, exponent: int, fraction: int, n: int)
    requires HasFields(bits, negative, exponent, fraction) && n != 0
    ensures 0 <= bits < Doubles.TWO64
    ensures var x, significand := Doubles.NumberOf(bits), 4503599627370496 + fraction;
            && (x == Doubles.NotANumber <==> exponent == 2047 && fraction != 0)
            && (x == Doubles.Int(0) <==> exponent == 0 && fraction == 0 && !negative)
            && (x == Doubles.NegativeZero <==> exponent == 0 && fraction == 0 && negative)
            && (x == Doubles.Int(n) <==>
                  1023 <= exponent <= 1075
                  && n * Power(1075 - exponent) == if negative then -significand else significand)
            && (x.Float? ==> x.bits == bits)
  {
    FieldsFound(bits, negative, exponent, fraction);
    var significand := 4503599627370496 + fraction;
    if 1023 <= exponent <= 1075 {
      PowerIs(1075 - exponent);
      Quotients(significand, Power(1075 - exponent), if negative then -n else n);
    }
  }

  lemma {:induction false} Quotients(s: nat, u: nat, m: int)
    requires 0 < u && 0 < s
    ensures s % u == 0 && s / u == m <==> m * u == s
    ensures -(m * u) == (-m) * u
    ensures s % u == 0 ==> s / u > 0
  {
    if m * u == s {
      assert 0 < m;
      Decimal.Multiple(m, u);
      assert s == s / u * u;
      if s / u < m {
        Decimal.Monotone(s / u + 1, m, u);
      } else if m < s / u {
        Decimal.Monotone(m + 1, s / u, u);
      }
    }
  }

  // ----- reading -----

  /** Bytes of kind `kind`, among any others, read as `v` and are used up. */
  ghost predicate IsValue(kind: byte, content: Bytes, v: Value) {
    forall pre, rest :: StandsFor(kind, pre, content, rest, v)
  }

  ghost predicate StandsFor(kind: byte, pre: Bytes, content: Bytes, rest: Bytes, v: Value) {
    ReadElement(pre + content + rest, kind, |pre|) == Got(Read(v, |pre| + |content|))
  }

  /** 0x01: a double. */
  lemma {:induction false} DoubleElement(field: Bytes)
    requires |field| == 8
    ensures 0 <= Bits64(field) < Doubles.TWO64 && IsValue(0x01, field, Num(Doubles.NumberOf(Bits64(field))))
  {
    forall pre, rest ensures StandsFor(0x01, pre, field, rest, Num(Doubles.NumberOf(Bits64(field)))) {
      Reads64(pre, field, rest);
      hide Bits64, ReadUint64LE, Doubles.NumberOf;
    }
  }

  /** 0x02: a text behind its length, which counts the zero at its end. */
  lemma {:induction false} TextElement(size: Bytes, text: Text, end: byte)
    requires |size| == 4 && Place32(size) == |text| + 1
    ensures IsValue(0x02, size + text + [end], Str(text))
  {
    hide Place32, ReadInt32LE;
    forall pre, rest ensures StandsFor(0x02, pre, size + text + [end], rest, Str(text)) {
      var w := pre + (size + text + [end]) + rest;
      assert w == pre + size + (text + [end] + rest);
      Reads32(pre, size, text + [end] + rest);
      assert w[|pre| + 4..|pre| + 4 + |text|] == text;
    }
  }

  /** 0x03 and 0x04: a document, and the values of a document. */
  lemma {:induction false} NestedElement(b: Bytes, d: Document)
    requires IsDocument(b, d)
    ensures IsValue(0x03, b, Doc(d))
    ensures IsValue(0x04, b, Arr(seq(|d|, i requires 0 <= i < |d| => d[i].value)))
  {
    hide ReadDocument, ReadInt32LE, IsDocument;
    var items := seq(|d|, i requires 0 <= i < |d| => d[i].value);
    forall pre, rest ensures StandsFor(0x03, pre, b, rest, Doc(d)) && StandsFor(0x04, pre, b, rest, Arr(items)) {
      Placed(pre, b, d, rest);
      assert Values(d) == items;
    }
  }

  /** 0x05: bytes behind their length and a subtype. */
  lemma {:induction false} BinaryElement(size: Bytes, subtype: byte, bytes: Bytes)
    requires |size| == 4 && Place32(size) == |bytes|
    ensures IsValue(0x05, size + [subtype] + bytes, Binary(bytes))
  {
    hide Place32, ReadInt32LE;
    forall pre, rest ensures StandsFor(0x05, pre, size + [subtype] + bytes, rest, Binary(bytes)) {
      var w := pre + (size + [subtype] + bytes) + rest;
      assert w == pre + size + ([subtype] + bytes + rest);
      Reads32(pre, size, [subtype] + bytes + rest);
      assert w[|pre| + 5..|pre| + 5 + |bytes|] == bytes;
    }
  }

  /** 0x06 and 0x0a: undefined and null take no bytes. 0x07: twelve bytes. 0x08: one byte, of which 1 is true. */
  lemma {:induction false} PlainElements(id: Bytes, flag: byte)
    requires |id| == 12
    ensures IsValue(0x06, [], Null) && IsValue(0x0a, [], Null)
    ensures IsValue(0x07, id, ObjectId(id))
    ensures IsValue(0x08, [flag], Bool(flag == 1))
  {
    forall pre, rest ensures StandsFor(0x06, pre, [], rest, Null) && StandsFor(0x0a, pre, [], rest, Null) {
    }
    forall pre, rest
      ensures StandsFor(0x07, pre, id, rest, ObjectId(id)) && StandsFor(0x08, pre, [flag], rest, Bool(flag == 1))
    {
      assert (pre + id + rest)[|pre|..|pre| + 12] == id;
      assert (pre + [flag] + rest)[|pre|] == flag;
    }
  }

  /** 0x09: milliseconds since 1970, if JavaScript can show the date. */
  lemma {:induction false} DateElement(field: Bytes)
    requires |field| == 8
    ensures var ms := Place64(field);
            if -8640000000000000 <= ms <= 8640000000000000 then IsValue(0x09, field, Date(ms))
            else forall pre, rest :: ReadElement(pre + field + rest, 0x09, |pre|) == Throws
  {
    hide Place64, ReadInt64LE, ReadUint64LE;
    var ms := Place64(field);
    forall pre, rest
      ensures if -8640000000000000 <= ms <= 8640000000000000 then StandsFor(0x09, pre, field, rest, Date(ms))
              else ReadElement(pre + field + rest, 0x09, |pre|) == Throws
    {
      Reads64(pre, field, rest);
    }
  }

  /** 0x0b: a pattern and its flags, each with a zero at its end, kept as `/pattern/flags`. */
  lemma {:induction false} RegexElement(pattern: Text, flags: Text)
    requires NoZero(pattern) && NoZero(flags)
    ensures IsValue(0x0b, pattern + [0] + flags + [0], Other(Ascii("regex"), [47] + pattern + [47] + flags))
  {
    hide ZeroAt, Ascii;
    var content := pattern + [0] + flags + [0];
    forall pre, rest
      ensures StandsFor(0x0b, pre, content, rest, Other(Ascii("regex"), [47] + pattern + [47] + flags))
    {
      var w, at := pre + content + rest, |pre|;
      assert w[at..at + |pattern|] == pattern;
      forall i | at <= i < at + |pattern| ensures w[i] != 0 {
        assert w[i] == pattern[i - at];
      }
      ZeroAtIs(w, at, at + |pattern|);
      var next := at + |pattern| + 1;
      assert w[next..next + |flags|] == flags;
      forall i | next <= i < next + |flags| ensures w[i] != 0 {
        assert w[i] == flags[i - next];
      }
      ZeroAtIs(w, next, next + |flags|);
    }
  }

  /** 0x10: a 32-bit integer. */
  lemma {:induction false} IntElement(field: Bytes)
    requires |field| == 4
    ensures IsValue(0x10, field, Num(Doubles.Int(Place32(field))))
  {
    hide Place32, ReadInt32LE;
    forall pre, rest ensures StandsFor(0x10, pre, field, rest, Num(Doubles.Int(Place32(field)))) {
      Reads32(pre, field, rest);
    }
  }

  /** 0x11 and 0x12: a timestamp and a 64-bit integer, as a number where it is safe, and else as a long. */
  lemma {:induction false} LongElements(field: Bytes)
    requires |field| == 8
    ensures var n := Place64(field);
            var v := if -9007199254740991 <= n <= 9007199254740991 then Num(Doubles.Int(n)) else Long(n);
            IsValue(0x11, field, v) && IsValue(0x12, field, v)
  {
    hide Place64, ReadInt64LE, ReadUint64LE;
    var n := Place64(field);
    var v := if -9007199254740991 <= n <= 9007199254740991 then Num(Doubles.Int(n)) else Long(n);
    forall pre, rest ensures StandsFor(0x11, pre, field, rest, v) && StandsFor(0x12, pre, field, rest, v) {
      Reads64(pre, field, rest);
    }
  }

  /** Two digits for every byte, lower case. */
  predicate IsHex(t: Text, b: Bytes) {
    && |t| == 2 * |b|
    && forall i | 0 <= i < |b| :: IsHexDigit(t[2 * i], b[i] / 16) && IsHexDigit(t[2 * i + 1], b[i] % 16)
  }

  predicate IsHexDigit(c: byte, n: int) {
    0 <= n < 16 && c == if n < 10 then 48 + n else 97 + n - 10
  }

  lemma {:induction false} HexIs(b: Bytes)
    ensures IsHex(Hex(b), b)
  {
    if b != [] {
      HexIs(b[1..]);
      var h := Hex(b);
      forall i | 0 <= i < |b| ensures IsHexDigit(h[2 * i], b[i] / 16) && IsHexDigit(h[2 * i + 1], b[i] % 16) {
        assert 0 < i ==> b[i] == b[1..][i - 1] && h[2 * i] == Hex(b[1..])[2 * (i - 1)]
                         && h[2 * i + 1] == Hex(b[1..])[2 * (i - 1) + 1];
      }
    }
  }

  /** 0x13: a decimal's sixteen bytes, kept in hexadecimal. */
  lemma {:induction false} DecimalElement(field: Bytes, hex: Text)
    requires |field| == 16 && IsHex(hex, field)
    ensures IsValue(0x13, field, Other(Ascii("decimal128"), hex))
  {
    HexIs(field);
    OneHex(Hex(field), hex, field);
    hide Hex, IsHex, Ascii;
    forall pre, rest ensures StandsFor(0x13, pre, field, rest, Other(Ascii("decimal128"), hex)) {
      assert (pre + field + rest)[|pre|..|pre| + 16] == field;
    }
  }

  lemma {:induction false} OneHex(s: Text, t: Text, b: Bytes)
    requires IsHex(s, b) && IsHex(t, b)
    ensures s == t
  {
    forall i | 0 <= i < |s| ensures s[i] == t[i] {
      var k := i / 2;
      assert s[2 * k] == t[2 * k] && s[2 * k + 1] == t[2 * k + 1];
      assert i == 2 * k || i == 2 * k + 1;
    }
  }

  /** Every other type makes the reader throw. */
  lemma {:induction false} OtherElements(b: Bytes, kind: byte, at: nat)
    requires at <= |b| && kind !in {1, 2, 3, 4, 5, 6, 7, 8, 9, 10, 11, 0x10, 0x11, 0x12, 0x13}
    ensures ReadElement(b, kind, at) == Throws
  {
  }

  /** A number or a date whose bytes are not all there makes it throw as well. */
  lemma {:induction false} CutElements(pre: Bytes, part: Bytes)
    ensures |part| < 8 ==> forall kind: byte | kind in {0x01, 0x09, 0x11, 0x12} ::
                             ReadElement(pre + part, kind, |pre|) == Throws
    ensures |part| < 4 ==> forall kind: byte | kind in {0x02, 0x03, 0x04, 0x05, 0x10} ::
                             ReadElement(pre + part, kind, |pre|) == Throws
  {
    hide ReadDocument, ReadInt32LE, ReadInt64LE, ReadUint64LE;
  }

  /** The size of a document says where its elements end. */
  lemma {:induction false} SizedDocument(size: Bytes, elements: Bytes, d: Document)
    requires |size| == 4 && Place32(size) == |elements| + 5
    requires ReadElements(size + elements + [0], 4, 4 + |elements|, []) == Got(d)
    ensures IsDocument(size + elements + [0], d)
  {
    hide ReadElements, ReadInt32LE, Place32;
    var b := size + elements + [0];
    assert b == [] + size + (elements + [0]);
    Reads32([], size, elements + [0]);
  }

  lemma {:induction false} ReadsAs(kind: byte, pre: Bytes, content: Bytes, rest: Bytes, v: Value)
    requires IsValue(kind, content, v)
    ensures ReadElement(pre + content + rest, kind, |pre|) == Got(Read(v, |pre| + |content|))
  {
    hide ReadElement;
    assert StandsFor(kind, pre, content, rest, v);
  }

  /** A document of one element: its size, a type, a name and a zero, the value, and a zero. */
  lemma {:induction false} DocumentOfOne(size: Bytes, kind: byte, name: Text, content: Bytes, v: Value)
    requires |size| == 4 && Place32(size) == |name| + |content| + 7
    requires kind != 0 && NoZero(name) && IsValue(kind, content, v)
    ensures IsDocument(size + ([kind] + name + [0] + content) + [0], [Entry(name, v)])
  {
    hide ReadElement, ReadElements, Place32, NoZero, IsDocument, IsValue, Put;
    var element := [kind] + name + [0] + content;
    ReadsAs(kind, size + [kind] + name + [0], content, [0], v);
    ElementRead(size, kind, name, content, v, [0], 4 + |element|, []);
    ElementsEnd(size + element + [0], 4 + |element|, Put([], name, v));
    OnePut(name, v);
    SizedDocument(size, element, [Entry(name, v)]);
  }

  lemma {:induction false} OnePut(name: Text, v: Value)
    ensures Put([], name, v) == [Entry(name, v)]
  {
  }

  lemma {:induction false} EmptyDocument()
    ensures IsDocument([5, 0, 0, 0, 0], [])
  {
    var b: Bytes := [5, 0, 0, 0, 0];
    assert ReadInt32LE(b, 0) == 5;
    assert ReadElements(b, 4, 4, []) == Got([]);
  }

  // ----- writing -----

  /** The bytes of an element behind its name: what is written for a value of each kind. */
  ghost predicate IsWritten(kind: byte, content: Bytes, v: Value)
    requires Writable(v) && Size(v) <= MAX_INT32
  {
    forall name :: Element(name, v) == [kind] + name + [0] + content
  }

  lemma {:induction false} WrittenAs(v: Value)
    requires Writable(v) && Size(v) <= MAX_INT32
    ensures IsWritten(Kind(v), Body(v), v)
  {
    hide Body, Kind;
  }

  lemma {:induction false} SmallWritten(n: int) returns (small: Bytes)
    requires -2147483647 <= n <= 2147483647
    ensures |small| == 4 && Place32(small) == n && IsWritten(0x10, small, Num(Doubles.Int(n)))
    ensures n == 0 ==> IsWritten(0x10, small, Num(Doubles.NegativeZero))
  {
    small := Int32LE(n);
    Writes32(n);
    hide Int32LE, Place32, IsWritten;
    WrittenAs(Num(Doubles.Int(n)));
    WrittenAs(Num(Doubles.NegativeZero));
  }

  lemma {:induction false} LargeWritten(x: Doubles.JsNumber) returns (large: Bytes)
    requires Doubles.IsNumber(x)
    requires x != Doubles.NegativeZero && (x.Int? ==> !(-2147483647 <= x.n <= 2147483647))
    ensures |large| == 8 && Doubles.NumberOf(Bits64(large)) == x && IsWritten(0x01, large, Num(x))
    ensures x.Float? ==> Bits64(large) == x.bits
    ensures x.NotANumber? ==> Bits64(large) == 0x7ff8000000000000
  {
    large := Uint64LE(Doubles.BitsOf(x));
    WritesBits(Doubles.BitsOf(x));
    Doubles.NumberOfBits(x);
    hide Uint64LE, Bits64, Doubles.NumberOf, IsWritten;
    WrittenAs(Num(x));
  }

  /** Integers up to 2^31 - 1 in magnitude, and negative zero as zero, take four bytes; other numbers eight. */
  lemma {:induction false} NumberWritten(x: Doubles.JsNumber) returns (field: Bytes)
    requires Doubles.IsNumber(x)
    ensures x.Int? && -2147483647 <= x.n <= 2147483647 ==>
              |field| == 4 && Place32(field) == x.n && IsWritten(0x10, field, Num(x))
    ensures x.NegativeZero? ==> |field| == 4 && Place32(field) == 0 && IsWritten(0x10, field, Num(x))
    ensures !x.NegativeZero? && (x.Int? ==> !(-2147483647 <= x.n <= 2147483647)) ==>
              |field| == 8 && Doubles.NumberOf(Bits64(field)) == x && IsWritten(0x01, field, Num(x))
    ensures x.Float? ==> |field| == 8 && Bits64(field) == x.bits
    ensures x.NotANumber? ==> |field| == 8 && Bits64(field) == 0x7ff8000000000000
  {
    hide Place32, Bits64, Doubles.NumberOf, Doubles.IsNumber, IsWritten;
    if x.NegativeZero? || (x.Int? && -2147483647 <= x.n <= 2147483647) {
      field := SmallWritten(if x.Int? then x.n else 0);
    } else {
      field := LargeWritten(x);
    }
  }

  /** Null, truth values, ids, texts, bytes, dates and longs. */
  lemma {:induction false} ScalarsWritten(v: Value) returns (size: Bytes, field: Bytes)
    requires Writable(v) && Size(v) <= MAX_INT32
    ensures |size| == 4 && |field| == 8
    ensures v == Null ==> IsWritten(0x0a, [], v)
    ensures v == Bool(true) ==> IsWritten(0x08, [1], v)
    ensures v == Bool(false) ==> IsWritten(0x08, [0], v)
    ensures v.ObjectId? ==> IsWritten(0x07, v.id, v)
    ensures v.Str? ==> Place32(size) == |v.text| + 1 && IsWritten(0x02, size + v.text + [0], v)
    ensures v.Other? ==> Place32(size) == |v.shown| + 1 && IsWritten(0x02, size + v.shown + [0], v)
    ensures v.Binary? ==> Place32(size) == |v.bytes| && IsWritten(0x05, size + [0] + v.bytes, v)
    ensures v.Date? ==> Place64(field) == v.ms && IsWritten(0x09, field, v)
    ensures v.Long? ==> Place64(field) == v.value && IsWritten(0x12, field, v)
  {
    hide Place32, Place64, IsWritten, Int32LE, Int64LE;
    WrittenAs(v);
    size, field := Int32LE(0), Int64LE(0);
    match v
    case Str(text) => size := Int32LE(|text| + 1); Writes32(|text| + 1);
    case Other(_, shown) => size := Int32LE(|shown| + 1); Writes32(|shown| + 1);
    case Binary(bytes) => size := Int32LE(|bytes|); Writes32(|bytes|);
    case Date(ms) => field := Int64LE(ms); Writes64(ms);
    case Long(n) => field := Int64LE(n); Writes64(n);
    case _ =>
  }

  /** Documents and arrays: their size, their elements, and a zero; an array's elements are named by their indices. */
  lemma {:induction false} NestedWritten(d: Document, items: seq<Value>) returns (size: Bytes, length: Bytes)
    requires Encodable(d) && Writable(Arr(items)) && Size(Arr(items)) <= MAX_INT32
    ensures |size| == 4 == |length|
    ensures EncodeDocument(d) == size + Elements(d) + [0] && Place32(size) == |EncodeDocument(d)|
    ensures !LooksTagged(d) ==> Writable(Doc(d)) && IsWritten(0x03, EncodeDocument(d), Doc(d))
    ensures IsWritten(0x04, length + Items(items, 0) + [0], Arr(items)) && Place32(length) == |Items(items, 0)| + 5
  {
    hide Place32, Int32LE, Elements, Items, WritableElements, IsObject, LooksTagged, ElementsSize, ItemsSize;
    size, length := Int32LE(5 + ElementsSize(d)), Int32LE(5 + ItemsSize(items, 0));
    Writes32(5 + ElementsSize(d));
    Writes32(5 + ItemsSize(items, 0));
    WrittenAs(Arr(items));
    if !LooksTagged(d) {
      NotWrapped(d);
      WrittenAs(Doc(d));
    }
  }

  lemma {:induction false} NotWrapped(d: Document)
    requires !LooksTagged(d)
    ensures WrappedText(d).None?
  {
  }
}
