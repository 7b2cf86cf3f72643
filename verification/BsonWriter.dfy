/**
 * Writing BSON documents, and the law that ties it to reading: `encodeDocument` of src/record/protocols/bson.ts.
 *
 * Reading what was written gives the canonical form of the document, with every size field equal to the bytes written
 * and to the bytes read, at every nesting level.
 */
module BsonWriter {
  import opened Wire
  import opened Documents
  import opened Bson
  import Decimal
  import Doubles

  const MAX_INT32 := 0x7fff_ffff

  // ----- what can be written -----

  /**
   * A value JavaScript can hold, on which the writer is followed. It is not followed where an object inside a document
   * looks like a tagged wrapper and its `$type` is one of the four tags, whose text would have to be parsed, or it has
   * no text under `value`.
   */
  predicate Followed(v: Value)
    decreases v
  {
    match v
    case Num(n) => Doubles.IsNumber(n)
    case ObjectId(id) => |id| == 12
    case Date(ms) => IsDate(ms)
    case Other(kind, _) => kind !in TAGS
    case Arr(items) => forall i | 0 <= i < |items| :: Followed(items[i])
    case Doc(d) => IsObject(d) && (WrappedText(d).Some? || (!LooksTagged(d) && FollowedElements(d)))
    case _ => true
  }

  predicate FollowedElements(d: Document)
    decreases d
  {
    forall i | 0 <= i < |d| :: NoZero(d[i].key) && Followed(d[i].value)
  }

  /** A followed value whose longs fit 64 bits. On any other followed value the writer throws. */
  predicate Writable(v: Value)
    decreases v
  {
    match v
    case Num(n) => Doubles.IsNumber(n)
    case ObjectId(id) => |id| == 12
    case Date(ms) => IsDate(ms)
    case Long(n) => FitsInt64(n)
    case Other(kind, _) => kind !in TAGS
    case Arr(items) => forall i | 0 <= i < |items| :: Writable(items[i])
    case Doc(d) => IsObject(d) && (WrappedText(d).Some? || (!LooksTagged(d) && WritableElements(d)))
    case _ => true
  }

  predicate WritableItems(items: seq<Value>) {
    forall i | 0 <= i < |items| :: Writable(items[i])
  }

  predicate WritableElements(d: Document)
    decreases d
  {
    forall i | 0 <= i < |d| :: NoZero(d[i].key) && Writable(d[i].value)
  }

  /** The bytes a value takes after its key. */
  function Size(v: Value): nat
    decreases v
  {
    match v
    case Null => 0
    case Bool(_) => 1
    case Num(n) => if IsSmall(n) then 4 else 8
    case Str(text) => 4 + |text| + 1
    case Arr(items) => 5 + ItemsSize(items, 0)
    case Doc(d) =>
      (match WrappedText(d)
       case Some(text) => 4 + |text| + 1
       case None => 5 + ElementsSize(d))
    case ObjectId(id) => |id|
    case Binary(bytes) => 5 + |bytes|
    case Date(_) => 8
    case Long(_) => 8
    case Other(_, shown) => 4 + |shown| + 1
  }

  function ItemsSize(items: seq<Value>, from: nat): (n: nat)
    ensures |items| <= n
    decreases items
  {
    if items == [] then 0
    else 1 + |Decimal.Digits(from)| + 1 + Size(items[0]) + ItemsSize(items[1..], from + 1)
  }

  function ElementsSize(d: Document): nat
    decreases d
  {
    if d == [] then 0 else 1 + |d[0].key| + 1 + Size(d[0].value) + ElementsSize(d[1..])
  }

  // ----- writing -----

  /** Numbers that are written as an Int32. Negative zero is one of them. */
  predicate IsSmall(n: Doubles.JsNumber) {
    n.NegativeZero? || (n.Int? && -MAX_INT32 <= n.n <= MAX_INT32)
  }

  function Kind(v: Value): byte {
    match v
    case Null => NULL
    case Bool(_) => BOOLEAN
    case Num(n) => if IsSmall(n) then INT32 else DOUBLE
    case Str(_) => STRING
    case Arr(_) => ARRAY
    case Doc(d) => if WrappedText(d).Some? then STRING else DOCUMENT
    case ObjectId(_) => OBJECT_ID
    case Binary(_) => BINARY
    case Date(_) => DATE
    case Long(_) => INT64
    case Other(_, _) => STRING
  }

  function StringBody(text: Text): (b: Bytes)
    requires |text| + 1 <= MAX_INT32
    ensures |b| == 4 + |text| + 1
  {
    Int32LE(|text| + 1) + text + [0]
  }

  function NumberBody(n: Doubles.JsNumber): (b: Bytes)
    requires Doubles.IsNumber(n)
    ensures |b| == if IsSmall(n) then 4 else 8
  {
    if n.NegativeZero? then Int32LE(0)
    else if IsSmall(n) then Int32LE(n.n)
    else Uint64LE(Doubles.BitsOf(n))
  }

  /** The length prefix and the terminator around a document's elements. */
  function Framed(elements: Bytes): (b: Bytes)
    requires |elements| + 5 <= MAX_INT32
    ensures |b| == 5 + |elements|
  {
    Int32LE(|elements| + 5) + elements + [0]
  }

  function Body(v: Value): (b: Bytes)
    requires Writable(v) && Size(v) <= MAX_INT32
    ensures |b| == Size(v)
    decreases v, 0
  {
    match v
    case Null => []
    case Bool(true) => [1]
    case Bool(false) => [0]
    case Num(n) => NumberBody(n)
    case Str(text) => StringBody(text)
    case Arr(items) => Framed(Items(items, 0))
    case Doc(d) =>
      (match WrappedText(d)
       case Some(text) => StringBody(text)
       case None => Framed(Elements(d)))
    case ObjectId(id) => id
    case Binary(bytes) => Int32LE(|bytes|) + [0] + bytes
    case Date(ms) => Int64LE(ms)
    case Long(n) => Int64LE(n)
    case Other(_, shown) => StringBody(shown)
  }

  function Element(key: Text, v: Value): (b: Bytes)
    requires Writable(v) && Size(v) <= MAX_INT32
    ensures |b| == 1 + |key| + 1 + Size(v)
    decreases v, 1
  {
    [Kind(v)] + key + [0] + Body(v)
  }

  /** An array is written as a document whose keys are the indices. */
  function Items(items: seq<Value>, from: nat): (b: Bytes)
    requires WritableItems(items) && ItemsSize(items, from) <= MAX_INT32
    ensures |b| == ItemsSize(items, from)
    decreases items
  {
    if items == [] then [] else Element(Decimal.Digits(from), items[0]) + Items(items[1..], from + 1)
  }

  function Elements(d: Document): (b: Bytes)
    requires WritableElements(d) && ElementsSize(d) <= MAX_INT32
    ensures |b| == ElementsSize(d)
    decreases d
  {
    if d == [] then [] else Element(d[0].key, d[0].value) + Elements(d[1..])
  }

  /** A whole document the writer does not throw on. Its own `$type` does not matter. */
  predicate Encodable(d: Document) {
    IsObject(d) && WritableElements(d) && 5 + ElementsSize(d) <= MAX_INT32
  }

  function EncodeDocument(d: Document): (b: Bytes)
    requires Encodable(d)
    ensures |b| == 5 + ElementsSize(d) && ReadInt32LE(b, 0) == |b|
  {
    SizeField(Elements(d));
    Framed(Elements(d))
  }

  lemma {:induction false} SizeField(elements: Bytes)
    requires |elements| + 5 <= MAX_INT32
    ensures ReadInt32LE(Framed(elements), 0) == |Framed(elements)|
  {
    assert Framed(elements) == [] + Int32LE(|elements| + 5) + (elements + [0]);
    Int32LERoundTrip([], |elements| + 5, elements + [0]);
  }

  // ----- reading back -----

  /** A value's bytes, after anything and before anything, read as the value's canonical form, in exactly its size. */
  ghost predicate Back(pre: Bytes, v: Value, rest: Bytes)
    requires Writable(v) && Size(v) <= MAX_INT32
  {
    ReadElement(pre + Body(v) + rest, Kind(v), |pre|) == Got(Read(Canon(v), |pre| + Size(v)))
  }

  lemma {:induction false} StringBack(pre: Bytes, text: Text, rest: Bytes)
    requires |text| + 1 <= MAX_INT32
    ensures ReadScalar(pre + StringBody(text) + rest, STRING, |pre|) == Got(Read(Str(text), |pre| + 4 + |text| + 1))
  {
    hide ReadInt32LE, Int32LE;
    var b := pre + StringBody(text) + rest;
    assert b == pre + Int32LE(|text| + 1) + (text + [0] + rest);
    Int32LERoundTrip(pre, |text| + 1, text + [0] + rest);
    assert b[|pre| + 4..|pre| + 4 + |text|] == text;
  }

  lemma {:induction false} BinaryBack(pre: Bytes, bytes: Bytes, rest: Bytes)
    requires 5 + |bytes| <= MAX_INT32
    ensures ReadScalar(pre + Body(Binary(bytes)) + rest, BINARY, |pre|)
          == Got(Read(Binary(bytes), |pre| + 5 + |bytes|))
  {
    hide ReadInt32LE, Int32LE;
    var b := pre + Body(Binary(bytes)) + rest;
    assert b == pre + Int32LE(|bytes|) + ([0] + bytes + rest);
    Int32LERoundTrip(pre, |bytes|, [0] + bytes + rest);
    assert b[|pre| + 5..|pre| + 5 + |bytes|] == bytes;
  }

  lemma {:induction false} NumberBack(pre: Bytes, n: Doubles.JsNumber, rest: Bytes)
    requires Doubles.IsNumber(n)
    ensures ReadScalar(pre + NumberBody(n) + rest, Kind(Num(n)), |pre|)
            == Got(Read(Canon(Num(n)), |pre| + (if IsSmall(n) then 4 else 8)))
  {
    hide ReadInt32LE, Int32LE, ReadUint64LE, Uint64LE, Doubles.BitsOf, Doubles.NumberOf;
    if IsSmall(n) {
      Int32LERoundTrip(pre, if n.NegativeZero? then 0 else n.n, rest);
    } else {
      Uint64LERoundTrip(pre, Doubles.BitsOf(n), rest);
      Doubles.NumberOfBits(n);
    }
  }

  /** What is written as text comes back as text. */
  lemma {:induction false} TextBack(pre: Bytes, v: Value, text: Text, rest: Bytes)
    requires Writable(v) && Size(v) == 4 + |text| + 1 <= MAX_INT32
    requires Kind(v) == STRING && Body(v) == StringBody(text) && Canon(v) == Str(text)
    ensures Back(pre, v, rest)
  {
    hide Writable, Size, Kind, Body, Canon, StringBody, ReadScalar;
    StringBack(pre, text, rest);
  }

  lemma {:induction false} ScalarBack(pre: Bytes, v: Value, rest: Bytes)
    requires Writable(v) && Size(v) <= MAX_INT32 && !v.Arr? && (v.Doc? ==> WrappedText(v.entries).Some?)
    ensures Back(pre, v, rest)
  {
    hide WrappedText, ReadInt32LE, Int32LE, ReadInt64LE, Int64LE, NumberBody, StringBody, IsSmall;
    var b := pre + Body(v) + rest;
    match v
    case Null =>
    case Bool(_) => assert b[|pre|] == Body(v)[0];
    case Num(n) => NumberBack(pre, n, rest);
    case ObjectId(id) => assert b[|pre|..|pre| + 12] == id;
    case Binary(bytes) => BinaryBack(pre, bytes, rest);
    case Date(ms) => Int64LERoundTrip(pre, ms, rest);
    case Long(n) => Int64LERoundTrip(pre, n, rest);
    case Str(text) =>
      hide Back;
      TextBack(pre, v, text, rest);
    case Other(_, shown) =>
      hide Back;
      TextBack(pre, v, shown, rest);
    case Doc(d) =>
      hide Back;
      TextBack(pre, v, WrappedText(d).value, rest);
  }

  lemma {:induction false} KindIsNotZero(v: Value)
    ensures Kind(v) != 0
  {
  }

  /** One element, read and assigned; then the rest. */
  lemma {:induction false} ElementRead(pre: Bytes, kind: byte, key: Text, body: Bytes, v: Value, rest: Bytes, end: int,
          done: Document)
    requires NoZero(key) && kind != 0 && |pre| < end
    requires var head := pre + [kind] + key + [0];
             ReadElement(head + body + rest, kind, |head|) == Got(Read(v, |head| + |body|))
    ensures var element := [kind] + key + [0] + body;
            ReadElements(pre + element + rest, |pre|, end, done)
            == ReadElements(pre + element + rest, |pre| + |element|, end, Put(done, key, v))
  {
    hide ReadElement, Put, ZeroAt;
    var element, head := [kind] + key + [0] + body, pre + [kind] + key + [0];
    var b := pre + element + rest;
    assert b == head + body + rest;
    assert b[|pre|] == kind;
    forall i | |pre| + 1 <= i < |pre| + 1 + |key| ensures b[i] != 0 {
      assert b[i] == key[i - |pre| - 1];
    }
    ZeroAtIs(b, |pre| + 1, |pre| + 1 + |key|);
    assert b[|pre| + 1..|pre| + 1 + |key|] == key;
  }

  lemma {:induction false} ElementStep(pre: Bytes, key: Text, v: Value, rest: Bytes, end: int, done: Document)
    requires NoZero(key) && Writable(v) && Size(v) <= MAX_INT32
    requires |pre| < end && Back(pre + [Kind(v)] + key + [0], v, rest)
    ensures ReadElements(pre + Element(key, v) + rest, |pre|, end, done)
            == ReadElements(pre + Element(key, v) + rest, |pre| + |Element(key, v)|, end, Put(done, key, Canon(v)))
  {
    hide ReadElement, ReadElements, Body, Put, Kind, Size, Writable, Canon;
    KindIsNotZero(v);
    ElementRead(pre, Kind(v), key, Body(v), Canon(v), rest, end, done);
  }

  lemma {:induction false} ElementsEnd(b: Bytes, at: nat, done: Document)
    ensures ReadElements(b, at, at, done) == Got(done)
  {
  }

  /** The elements of a document, read and assigned one after the other; then the rest. */
  lemma {:induction false} ElementsStep(pre: Bytes, d: Document, rest: Bytes, end: int, done: Document)
    requires WritableElements(d) && ElementsSize(d) <= MAX_INT32 && |pre| + ElementsSize(d) <= end
    ensures ReadElements(pre + Elements(d) + rest, |pre|, end, done)
            == ReadElements(pre + Elements(d) + rest, |pre| + ElementsSize(d), end, Merge(done, CanonDocument(d)))
    decreases d, 0
  {
    hide Element, ReadElements, ReadElement, Put, Canon, Writable;
    var b := pre + Elements(d) + rest;
    if d != [] {
      var key, v := d[0].key, d[0].value;
      var first, others := Element(key, v), Elements(d[1..]);
      assert b == pre + first + (others + rest) && b == (pre + first) + others + rest;
      ValueBack(pre + [Kind(v)] + key + [0], v, others + rest);
      ElementStep(pre, key, v, others + rest, end, done);
      ElementsStep(pre + first, d[1..], rest, end, Put(done, key, Canon(v)));
    }
  }

  /** Items read back under their indices, after the items before them. */
  function Indexed(items: seq<Value>, from: nat): (d: Document)
    ensures |d| == |items|
  {
    seq(|items|, i requires 0 <= i < |items| => Entry(Decimal.Digits(from + i), items[i]))
  }

  lemma {:induction false} DigitsAreText(n: nat)
    ensures NoZero(Decimal.Digits(n))
  {
  }

  lemma {:induction false} IndexedNone(done: Document, from: nat)
    ensures Merge(done, Indexed([], from)) == done
  {
  }

  lemma {:induction false} IndexedStep(done: Document, items: seq<Value>, from: nat)
    requires items != []
    ensures Merge(done, Indexed(items, from))
            == Merge(Put(done, Decimal.Digits(from), items[0]), Indexed(items[1..], from + 1))
  {
    hide Put, Decimal.Digits;
    assert Indexed(items, from)[1..] == Indexed(items[1..], from + 1);
  }

  lemma {:induction false} CanonItemsStep(items: seq<Value>)
    requires items != []
    ensures CanonItems(items)[0] == Canon(items[0]) && CanonItems(items)[1..] == CanonItems(items[1..])
  {
    hide Canon;
  }

  lemma {:induction false} ItemsBack(pre: Bytes, items: seq<Value>, from: nat, rest: Bytes, done: Document)
    requires WritableItems(items) && ItemsSize(items, from) <= MAX_INT32
    ensures ReadElements(pre + Items(items, from) + rest, |pre|, |pre| + ItemsSize(items, from), done)
            == Got(Merge(done, Indexed(CanonItems(items), from)))
    decreases items, 0
  {
    hide Element, ReadElements, ReadElement, Put, Canon, Decimal.Digits, NoZero, Writable, Indexed, CanonItems, Merge;
    var b := pre + Items(items, from) + rest;
    if items == [] {
      ElementsEnd(b, |pre|, done);
      IndexedNone(done, from);
      assert CanonItems(items) == [];
    } else {
      DigitsAreText(from);
      var key, v := Decimal.Digits(from), items[0];
      var first, others := Element(key, v), Items(items[1..], from + 1);
      assert b == pre + first + (others + rest) && b == (pre + first) + others + rest;
      ValueBack(pre + [Kind(v)] + key + [0], v, others + rest);
      ElementStep(pre, key, v, others + rest, |pre| + ItemsSize(items, from), done);
      ItemsBack(pre + first, items[1..], from + 1, rest, Put(done, key, Canon(v)));
      CanonItemsStep(items);
      IndexedStep(done, CanonItems(items), from);
    }
  }

  lemma {:induction false} IndexedIsObject(items: seq<Value>)
    requires |items| <= MAX_INT32
    ensures IsObject(Indexed(items, 0)) && Values(Indexed(items, 0)) == items
  {
    hide IsIndex, Decimal.Digits;
    forall i | 0 <= i < |items| ensures IsIndex(Indexed(items, 0)[i].key) && IndexOf(Indexed(items, 0)[i].key) == i {
      DigitsAreIndex(i);
    }
  }

  /** The frame of a document: its size field covers exactly its bytes. */
  lemma {:induction false} FrameBack(pre: Bytes, elements: Bytes, rest: Bytes, kind: byte, d: Document)
    requires |elements| + 5 <= MAX_INT32 && IsNested(kind)
    requires var b := pre + Int32LE(|elements| + 5) + elements + ([0] + rest);
             ReadElements(b, |pre| + 4, |pre| + 4 + |elements|, []) == Got(d)
    ensures var b := pre + Framed(elements) + rest;
            && ReadDocument(b, |pre|) == Got(d)
            && ReadElement(b, kind, |pre|) == Got(Read(Nested(kind, d), |pre| + |Framed(elements)|))
            && ReadInt32LE(b, |pre|) == |Framed(elements)|
  {
    hide ReadElements, ReadInt32LE, Int32LE;
    var b := pre + Framed(elements) + rest;
    assert b == pre + Int32LE(|elements| + 5) + elements + ([0] + rest);
    assert b == pre + Int32LE(|elements| + 5) + (elements + [0] + rest);
    Int32LERoundTrip(pre, |elements| + 5, elements + [0] + rest);
  }

  lemma {:induction false} ArrayBack(pre: Bytes, items: seq<Value>, rest: Bytes)
    requires Writable(Arr(items)) && Size(Arr(items)) <= MAX_INT32
    ensures Back(pre, Arr(items), rest)
    decreases items, 1
  {
    hide ReadElements, ReadElement, ReadDocument, Int32LE, ReadInt32LE, IsObject, Merge, Items;
    var elements, d := Items(items, 0), Indexed(CanonItems(items), 0);
    ItemsBack(pre + Int32LE(|elements| + 5), items, 0, [0] + rest, []);
    IndexedIsObject(CanonItems(items));
    assert [] + d == d;
    MergeAppends([], d);
    FrameBack(pre, elements, rest, ARRAY, d);
  }

  /** A written document, among any other bytes, reads back as its canonical form, in exactly the bytes written. */
  lemma {:induction false} DocumentBack(pre: Bytes, d: Document, rest: Bytes)
    requires Encodable(d)
    ensures var b := pre + EncodeDocument(d) + rest;
            && ReadDocument(b, |pre|) == Got(CanonDocument(d))
            && ReadInt32LE(b, |pre|) == |EncodeDocument(d)|
            && ReadElement(b, DOCUMENT, |pre|) == Got(Read(Doc(CanonDocument(d)), |pre| + |EncodeDocument(d)|))
    decreases d, 1
  {
    hide ReadElements, ReadElement, ReadDocument, Int32LE, ReadInt32LE, IsObject, Merge, Elements, WritableElements;
    var elements := Elements(d);
    var head := pre + Int32LE(|elements| + 5);
    ElementsStep(head, d, [0] + rest, |head| + |elements|, []);
    ElementsEnd(head + elements + ([0] + rest), |head| + |elements|, Merge([], CanonDocument(d)));
    CanonKeepsOrder(d);
    assert [] + CanonDocument(d) == CanonDocument(d);
    MergeAppends([], CanonDocument(d));
    FrameBack(pre, elements, rest, DOCUMENT, CanonDocument(d));
  }

  /** Every value, among any other bytes, reads back as its canonical form, in exactly the bytes written for it. */
  lemma {:induction false} ValueBack(pre: Bytes, v: Value, rest: Bytes)
    requires Writable(v) && Size(v) <= MAX_INT32
    ensures Back(pre, v, rest)
    decreases v
  {
    hide Back, WritableElements, IsObject, WrappedText, LooksTagged;
    if v.Arr? {
      ArrayBack(pre, v.items, rest);
    } else if v.Doc? && WrappedText(v.entries).None? {
      NestedBack(pre, v.entries, rest);
    } else {
      ScalarBack(pre, v, rest);
    }
  }

  lemma {:induction false} NestedBack(pre: Bytes, d: Document, rest: Bytes)
    requires Encodable(d) && Writable(Doc(d)) && WrappedText(d).None?
    ensures Back(pre, Doc(d), rest)
    decreases d, 2
  {
    hide ReadElement, ReadDocument, Elements, WritableElements, IsObject, WrappedText, LooksTagged;
    DocumentBack(pre, d, rest);
  }

  /** One whole document: it takes the bytes its size field counts, and reads as `d`. */
  predicate IsDocument(b: Bytes, d: Document) {
    Fixed(b, 0, 4) && ReadInt32LE(b, 0) == |b| && ReadDocument(b, 0) == Got(d)
  }

  lemma {:induction false} WrittenIsDocument(d: Document)
    requires Encodable(d)
    ensures IsDocument(EncodeDocument(d), CanonDocument(d))
  {
    hide ReadDocument, ReadElement, EncodeDocument, Encodable, ReadInt32LE, ElementsSize;
    DocumentBack([], d, []);
    assert [] + EncodeDocument(d) + [] == EncodeDocument(d);
  }

  /** A whole document among any other bytes. */
  lemma {:induction false} Placed(pre: Bytes, b: Bytes, d: Document, rest: Bytes)
    requires IsDocument(b, d)
    ensures var w := pre + b + rest;
            && ReadDocument(w, |pre|) == Got(d) && ReadInt32LE(w, |pre|) == |b| > 0
            && ReadElement(w, DOCUMENT, |pre|) == Got(Read(Doc(d), |pre| + |b|))
    ensures IsObject(d)
  {
    hide ReadElements, ReadInt32LE, IsObject;
    DocumentWithin(pre, b, rest, 0);
    FieldsWithin(pre, b, rest, 0);
    assert IsObject([]) by {
      Empty();
    }
    ReadElementsIsObject(b, 4, ReadInt32LE(b, 0) - 1, []);
  }

  /** Inside a document, `{ $type: "x", value: "y" }` is written, and comes back, as the text "y". */
  lemma {:induction false} LookalikeLost()
    ensures var d := Holding(Doc(Lookalike(Str(Ascii("x")))));
            Encodable(d) && ReadDocument(EncodeDocument(d), 0) == Got(Holding(Str(Ascii("y"))))
  {
    hide ReadDocument, EncodeDocument, Lookalike, WrappedText, IsObject, ElementsSize;
    var kind := Str(Ascii("x"));
    var v := Doc(Lookalike(kind));
    assert |Ascii("x")| == 1 && Ascii("x") !in TAGS;
    LookalikeIsText(kind);
    LookalikeIsObject(kind);
    CanonOfOne(v);
    HoldingIsEncodable(v);
    WrittenIsDocument(Holding(v));
  }

  /** The same object as a whole document comes back as it is. */
  lemma {:induction false} LookalikeKept()
    ensures var d := Lookalike(Str(Ascii("x")));
            Encodable(d) && ReadDocument(EncodeDocument(d), 0) == Got(d)
  {
    hide ReadDocument, EncodeDocument, IsObject, Encodable;
    var d := Lookalike(Str(Ascii("x")));
    LookalikeIsEncodable(Ascii("x"));
    CanonOfTwo(d[0], d[1]);
    WrittenIsDocument(d);
  }

  lemma {:induction false} LookalikeIsObject(kind: Value)
    ensures IsObject(Lookalike(kind))
  {
    KeysDiffer();
    assert !IsIndex(TYPE_KEY) && !IsIndex(VALUE_KEY) by {
      assert TYPE_KEY[0] == 36 && VALUE_KEY[0] == 118;
    }
    hide IsIndex;
  }

  lemma {:induction false} HoldingIsEncodable(v: Value)
    requires Writable(v) && Size(v) <= 100
    ensures Encodable(Holding(v))
  {
    hide Writable, Size, IsIndex;
    var d := Holding(v);
    assert Ascii("a") == [97] && d[1..] == [];
    assert NoZero(d[0].key) && ElementsSize([]) == 0;
    assert ElementsSize(d) == 1 + 1 + 1 + Size(v) + 0;
    hide ElementsSize, NoZero;
    assert WritableElements(d);
  }

  lemma {:induction false} LookalikeIsEncodable(kind: Text)
    requires |kind| <= 100
    ensures Encodable(Lookalike(Str(kind)))
  {
    LookalikeIsObject(Str(kind));
    hide IsObject, Ascii;
    var d := Lookalike(Str(kind));
    KeysHaveNoZero();
    assert d[1..] == [d[1]] && [d[1]][1..] == [];
    assert ElementsSize([]) == 0 && ElementsSize([d[1]]) == 1 + |VALUE_KEY| + 1 + Size(d[1].value) + 0;
    assert ElementsSize(d) == 1 + |TYPE_KEY| + 1 + Size(d[0].value) + ElementsSize([d[1]]);
    assert WritableElements(d);
  }

  lemma {:induction false} KeysHaveNoZero()
    ensures NoZero(TYPE_KEY) && NoZero(VALUE_KEY) && |TYPE_KEY| == |VALUE_KEY| == 5
  {
    assert TYPE_KEY == [36, 116, 121, 112, 101] && VALUE_KEY == [118, 97, 108, 117, 101];
  }

  // ----- reading, then writing -----

  /** A value in which every object that looks like a tagged wrapper is kept as its text. */
  predicate Untagged(v: Value)
    decreases v
  {
    match v
    case Arr(items) => forall i | 0 <= i < |items| :: Untagged(items[i])
    case Doc(d) => WrappedText(d).Some? || (!LooksTagged(d) && UntaggedElements(d))
    case _ => true
  }

  predicate UntaggedElements(d: Document)
    decreases d
  {
    forall i | 0 <= i < |d| :: Untagged(d[i].value)
  }

  /** What reading can yield. */
  predicate Sound(v: Value)
    decreases v
  {
    match v
    case Num(n) => Doubles.IsNumber(n)
    case ObjectId(id) => |id| == 12
    case Date(ms) => IsDate(ms)
    case Long(n) => FitsInt64(n)
    case Other(kind, _) => kind !in TAGS
    case Arr(items) => forall i | 0 <= i < |items| :: Sound(items[i])
    case Doc(d) => IsObject(d) && forall i | 0 <= i < |d| :: NoZero(d[i].key) && Sound(d[i].value)
    case _ => true
  }

  predicate SoundElements(d: Document) {
    forall i | 0 <= i < |d| :: NoZero(d[i].key) && Sound(d[i].value)
  }

  lemma {:induction false} SoundIsWritable(v: Value)
    requires Sound(v)
    ensures Writable(v) <==> Untagged(v)
    ensures Followed(v) <==> Untagged(v)
    decreases v
  {
    hide IsObject, LooksTagged, NoZero, WrappedText;
    match v
    case Arr(items) =>
      forall i | 0 <= i < |items|
        ensures (Writable(items[i]) <==> Untagged(items[i])) && (Followed(items[i]) <==> Untagged(items[i]))
      {
        SoundIsWritable(items[i]);
      }
    case Doc(d) => SoundElementsAreWritable(d);
    case _ =>
  }

  lemma {:induction false} SoundElementsAreWritable(d: Document)
    requires SoundElements(d)
    ensures WritableElements(d) <==> UntaggedElements(d)
    ensures FollowedElements(d) <==> UntaggedElements(d)
    decreases d
  {
    hide Writable, Untagged, Followed, Sound;
    forall i | 0 <= i < |d|
      ensures Writable(d[i].value) <==> Untagged(d[i].value)
      ensures Followed(d[i].value) <==> Untagged(d[i].value)
    {
      SoundIsWritable(d[i].value);
    }
  }

  lemma {:induction false} PutIsSound(d: Document, key: Text, v: Value)
    requires SoundElements(d) && NoZero(key) && Sound(v)
    ensures SoundElements(Put(d, key, v))
  {
    hide NoZero, Sound, Place, Find;
    var p := Put(d, key, v);
    forall i | 0 <= i < |p| ensures p[i] == Entry(key, v) || p[i] in d {
    }
  }

  lemma {:induction false} ScalarIsSound(b: Bytes, kind: byte, at: nat)
    requires at <= |b| && ReadScalar(b, kind, at).Got?
    ensures Sound(ReadScalar(b, kind, at).value.value)
  {
    hide ReadSized, ReadRegex, Doubles.NumberOf, Hex, ReadUint64LE, ReadInt64LE, ReadInt32LE, Ascii;
    if kind == DOUBLE {
      Doubles.NumberOfIsNumber(ReadUint64LE(b, at));
    } else if kind == REGEX {
      RegexIsOther(b, at);
      OtherTags();
    } else if kind == DECIMAL {
      OtherTags();
    }
  }

  lemma {:induction false} RegexIsOther(b: Bytes, at: nat)
    requires ReadRegex(b, at).Got?
    ensures ReadRegex(b, at).value.value.Other? && ReadRegex(b, at).value.value.kind == Ascii("regex")
  {
    hide Ascii;
  }

  lemma {:induction false} OtherTags()
    ensures Ascii("regex") !in TAGS && Ascii("decimal128") !in TAGS
  {
    assert |Ascii("regex")| == 5 && |Ascii("decimal128")| == 10;
    assert |Ascii("objectId")| == 8 && |Ascii("date")| == 4 && |Ascii("long")| == 4 && |Ascii("binary")| == 6;
  }

  lemma {:induction false} ElementIsSound(b: Bytes, kind: byte, at: nat)
    requires at <= |b| && ReadElement(b, kind, at).Got?
    ensures Sound(ReadElement(b, kind, at).value.value)
    decreases Remaining(b, at), 1
  {
    hide ReadScalar, ReadDocument, ReadInt32LE, IsObject, NoZero;
    if !IsNested(kind) {
      ScalarIsSound(b, kind, at);
    } else {
      DocumentIsSound(b, at);
      var d := ReadDocument(b, at).value;
      assert forall i | 0 <= i < |d| :: Values(d)[i] == d[i].value;
    }
  }

  lemma {:induction false} NoZeroBefore(b: Bytes, at: nat)
    requires ZeroAt(b, at).Some?
    ensures NoZero(b[at..ZeroAt(b, at).value])
    decreases ZeroAt(b, at).value - at
  {
    if b[at] != 0 {
      NoZeroBefore(b, at + 1);
      var zero := ZeroAt(b, at).value;
      assert b[at..zero] == [b[at]] + b[at + 1..zero];
    }
  }

  lemma {:induction false} ElementsAreSound(b: Bytes, at: nat, end: int, d: Document)
    requires SoundElements(d) && ReadElements(b, at, end, d).Got?
    ensures SoundElements(ReadElements(b, at, end, d).value)
    decreases Remaining(b, at), 0
  {
    hide ReadElement, Put, SoundElements, NoZero;
    if at < end && b[at] != 0 {
      var zero := ZeroAt(b, at + 1).value;
      var read := ReadElement(b, b[at], zero + 1).value;
      ElementIsSound(b, b[at], zero + 1);
      NoZeroBefore(b, at + 1);
      PutIsSound(d, b[at + 1..zero], read.value);
      ElementsAreSound(b, read.next, end, Put(d, b[at + 1..zero], read.value));
    }
  }

  /**
   * Reading yields only what JavaScript holds: an object in a possible order, safe integers, dates that can be shown.
   */
  lemma {:induction false} DocumentIsSound(b: Bytes, start: nat)
    requires ReadDocument(b, start).Got?
    ensures Sound(Doc(ReadDocument(b, start).value))
    decreases Remaining(b, start), 0
  {
    hide ReadElements, ReadInt32LE, IsObject;
    assert SoundElements([]);
    assert IsObject([]) by {
      Empty();
    }
    ElementsAreSound(b, start + 4, start + ReadInt32LE(b, start) - 1, []);
    ReadElementsIsObject(b, start + 4, start + ReadInt32LE(b, start) - 1, []);
  }

  lemma {:induction false} Empty()
    ensures IsObject([])
  {
  }

  /**
   * Writing a document that was read: the writer is followed exactly when every object inside it with its own `$type`
   * text is kept as text, and then the document is written unless its size is past the length field, and read back in
   * canonical form.
   */
  lemma {:induction false} ReadThenWrite(b: Bytes, start: nat, pre: Bytes, rest: Bytes)
    requires ReadDocument(b, start).Got?
    ensures var d := ReadDocument(b, start).value;
            && (FollowedElements(d) <==> UntaggedElements(d))
            && (Encodable(d) <==> UntaggedElements(d) && 5 + ElementsSize(d) <= MAX_INT32)
            && (Encodable(d) ==> ReadDocument(pre + EncodeDocument(d) + rest, |pre|) == Got(CanonDocument(d)))
  {
    hide ReadDocument, EncodeDocument, Writable, Untagged, Followed, ReadElement;
    var d := ReadDocument(b, start).value;
    DocumentIsSound(b, start);
    SoundElementsAreWritable(d);
    if Encodable(d) {
      DocumentBack(pre, d, rest);
    }
  }
}
