/**
 * Commands as drivers send them: whole, or split into a document and a sequence for the bulk argument
 * (`readSections` of src/record/protocols/mongoRecorder.ts). The documents are any bytes that can be read.
 */
module MongoCommands {
  import opened Wire
  import opened Streams
  import opened Documents
  import opened Bson
  import opened BsonWriter
  import opened MongoMessages
  import Decimal

  // ----- a bulk argument -----

  predicate AreDocuments(documents: seq<Bytes>, ds: seq<Document>) {
    |documents| == |ds| && forall i | 0 <= i < |ds| :: IsDocument(documents[i], ds[i])
  }

  function AsValues(ds: seq<Document>): (values: seq<Value>)
    ensures |values| == |ds|
  {
    seq(|ds|, i requires 0 <= i < |ds| => Doc(ds[i]))
  }

  lemma {:induction false} AsValuesStep(ds: seq<Document>)
    requires ds != []
    ensures AsValues(ds) == [Doc(ds[0])] + AsValues(ds[1..]) && AsValues(ds)[1..] == AsValues(ds[1..])
  {
  }

  lemma {:induction false} SequenceBack(pre: Bytes, documents: seq<Bytes>, ds: seq<Document>, rest: Bytes)
    requires AreDocuments(documents, ds)
    ensures ReadSequence(pre + Concat(documents) + rest, |pre|, |pre| + |Concat(documents)|) == Got(AsValues(ds))
    decreases |documents|
  {
    hide ReadDocument, ReadElement, ReadInt32LE;
    if documents != [] {
      var first, others := documents[0], Concat(documents[1..]);
      var b := pre + Concat(documents) + rest;
      assert b == pre + first + (others + rest) && b == (pre + first) + others + rest;
      Placed(pre, first, ds[0], others + rest);
      SequenceBack(pre + first, documents[1..], ds[1..], rest);
      AsValuesStep(ds);
    }
  }

  /** What a document sequence opens with: its kind, its size and its name. */
  function SequenceHead(name: Text, size: nat): (b: Bytes)
    requires FitsInt32(5 + |name| + size)
    ensures |b| == 6 + |name|
  {
    [DOCUMENT_SEQUENCE] + Int32LE(5 + |name| + size) + (name + [0])
  }

  /** A document sequence under its name. */
  function NamedSection(name: Text, documents: seq<Bytes>): (b: Bytes)
    requires FitsInt32(5 + |name| + |Concat(documents)|)
    ensures |b| == 6 + |name| + |Concat(documents)|
  {
    SequenceHead(name, |Concat(documents)|) + Concat(documents)
  }

  lemma {:induction false} HeadBack(pre: Bytes, name: Text, content: Bytes, rest: Bytes)
    requires NoZero(name) && FitsInt32(5 + |name| + |content|)
    ensures var b := pre + (SequenceHead(name, |content|) + content) + rest;
            && b[|pre|] == DOCUMENT_SEQUENCE
            && |b| >= |pre| + 5 && ReadInt32LE(b, |pre| + 1) == 5 + |name| + |content|
            && ZeroAt(b, |pre| + 5) == Some(|pre| + 5 + |name|)
            && b[|pre| + 5..|pre| + 5 + |name|] == name
  {
    hide ReadInt32LE, Int32LE, ZeroAt;
    var n := 5 + |name| + |content|;
    var b := pre + (SequenceHead(name, |content|) + content) + rest;
    assert b == (pre + [DOCUMENT_SEQUENCE]) + Int32LE(n) + (name + [0] + content + rest);
    Int32LERoundTrip(pre + [DOCUMENT_SEQUENCE], n, name + [0] + content + rest);
    var start := |pre| + 5;
    assert b[start..start + |name|] == name;
    forall i | start <= i < start + |name| ensures b[i] != 0 {
      assert b[i] == name[i - start];
    }
    ZeroAtIs(b, start, start + |name|);
  }

  lemma {:induction false} NamedBack(pre: Bytes, name: Text, documents: seq<Bytes>, ds: seq<Document>, rest: Bytes,
          end: int, body: Document)
    requires NoZero(name) && |pre| < end && AreDocuments(documents, ds)
    requires FitsInt32(5 + |name| + |Concat(documents)|)
    ensures var b := pre + NamedSection(name, documents) + rest;
            ReadSections(b, |pre|, end, body)
            == ReadSections(b, |pre| + |NamedSection(name, documents)|, end, Put(body, name, Arr(AsValues(ds))))
  {
    hide ReadSequence, Concat, Put, IsDocument, ReadSingle, ZeroAt, NoZero, ReadInt32LE, SequenceHead;
    var all := Concat(documents);
    var b, head := pre + NamedSection(name, documents) + rest, SequenceHead(name, |all|);
    HeadBack(pre, name, all, rest);
    assert b == (pre + head) + all + rest;
    SequenceBack(pre + head, documents, ds, rest);
  }

  // ----- the same argument as an array -----

  /** The elements of an array of documents, under their indices. */
  function ArrayElements(documents: seq<Bytes>, from: nat): Bytes {
    if documents == [] then []
    else [DOCUMENT] + Decimal.Digits(from) + [0] + documents[0] + ArrayElements(documents[1..], from + 1)
  }

  lemma {:induction false} ArrayBack(pre: Bytes, documents: seq<Bytes>, ds: seq<Document>, from: nat, rest: Bytes,
          done: Document)
    requires AreDocuments(documents, ds)
    ensures var elements := ArrayElements(documents, from);
            ReadElements(pre + elements + rest, |pre|, |pre| + |elements|, done)
            == Got(Merge(done, Indexed(AsValues(ds), from)))
    decreases |documents|
  {
    hide ReadElements, ReadElement, ReadDocument, ReadInt32LE, Put, Decimal.Digits, NoZero, Indexed, Merge, IsDocument;
    var b := pre + ArrayElements(documents, from) + rest;
    if documents == [] {
      ElementsEnd(b, |pre|, done);
      IndexedNone(done, from);
      assert AsValues(ds) == [];
    } else {
      var key := Decimal.Digits(from);
      var first, others := [DOCUMENT] + key + [0] + documents[0], ArrayElements(documents[1..], from + 1);
      assert ArrayElements(documents, from) == first + others;
      assert b == pre + first + (others + rest) && b == (pre + first) + others + rest;
      DigitsAreText(from);
      Placed(pre + [DOCUMENT] + key + [0], documents[0], ds[0], others + rest);
      ElementRead(pre, DOCUMENT, key, documents[0], Doc(ds[0]), others + rest, |pre| + |first| + |others|, done);
      ArrayBack(pre + first, documents[1..], ds[1..], from + 1, rest, Put(done, key, Doc(ds[0])));
      AsValuesStep(ds);
      IndexedStep(done, AsValues(ds), from);
    }
  }

  lemma {:induction false} ArrayIsLong(documents: seq<Bytes>, from: nat)
    ensures |documents| <= |ArrayElements(documents, from)|
    decreases |documents|
  {
    if documents != [] {
      ArrayIsLong(documents[1..], from + 1);
    }
  }

  /** The array itself, among any other bytes. */
  lemma {:induction false} ListBack(pre: Bytes, documents: seq<Bytes>, ds: seq<Document>, rest: Bytes)
    requires AreDocuments(documents, ds) && |ArrayElements(documents, 0)| + 5 <= MAX_INT32
    ensures var list := Framed(ArrayElements(documents, 0));
            ReadElement(pre + list + rest, ARRAY, |pre|) == Got(Read(Arr(AsValues(ds)), |pre| + |list|))
  {
    hide ReadElements, ReadElement, ReadDocument, Int32LE, ReadInt32LE, IsObject, Merge, IsDocument, ArrayElements;
    var elements, d := ArrayElements(documents, 0), Indexed(AsValues(ds), 0);
    ArrayBack(pre + Int32LE(|elements| + 5), documents, ds, 0, [0] + rest, []);
    ArrayIsLong(documents, 0);
    IndexedIsObject(AsValues(ds));
    assert [] + d == d;
    MergeAppends([], d);
    FrameBack(pre, elements, rest, ARRAY, d);
  }

  // ----- elements that end where the next begins -----

  /** From `at` on, elements one after the other, each read whole, up to the end. */
  predicate AreElements(b: Bytes, at: nat)
    decreases Remaining(b, at)
  {
    at == |b|
    || (at < |b| && b[at] != 0 && ZeroAt(b, at + 1).Some?
        && var read := ReadElement(b, b[at], ZeroAt(b, at + 1).value + 1);
           read.Got? && AreElements(b, read.value.next))
  }

  /** Reading goes through them and on. */
  lemma {:induction false} ElementsPass(pre: Bytes, b: Bytes, more: Bytes, at: nat, end: int, done: Document)
    requires AreElements(b, at) && |pre| + |b| <= end
    ensures var r := ReadElements(b, at, |b|, done);
            && r.Got?
            && ReadElements(pre + b + more, |pre| + at, end, done)
               == ReadElements(pre + b + more, |pre| + |b|, end, r.value)
    decreases Remaining(b, at)
  {
    hide ReadElement, ZeroAt, Put;
    if at < |b| {
      var zero := ZeroAt(b, at + 1).value;
      var read := ReadElement(b, b[at], zero + 1);
      FieldsWithin(pre, b, more, at);
      ZeroAtWithin(pre, b, more, at + 1);
      SliceWithin(pre, b, more, at + 1, zero);
      ElementWithin(pre, b, more, b[at], zero + 1);
      ElementsPass(pre, b, more, read.value.next, end, Put(done, b[at + 1..zero], read.value.value));
    }
  }

  /** The elements of a command, and its bulk argument after them. */
  function WithArgument(elements: Bytes, name: Text, documents: seq<Bytes>): (b: Bytes)
    requires |ArrayElements(documents, 0)| + 5 <= MAX_INT32
    ensures |elements| <= |b|
  {
    elements + ([ARRAY] + name + [0] + Framed(ArrayElements(documents, 0)))
  }

  lemma {:induction false} ArgumentBack(pre: Bytes, elements: Bytes, d: Document, name: Text, documents: seq<Bytes>,
          ds: seq<Document>, rest: Bytes)
    requires AreElements(elements, 0) && ReadElements(elements, 0, |elements|, []) == Got(d)
    requires AreDocuments(documents, ds) && NoZero(name) && |ArrayElements(documents, 0)| + 5 <= MAX_INT32
    ensures var all := WithArgument(elements, name, documents);
            ReadElements(pre + all + rest, |pre|, |pre| + |all|, []) == Got(Put(d, name, Arr(AsValues(ds))))
  {
    hide ReadElements, ReadElement, Put, AreElements, IsDocument, ArrayElements, NoZero;
    var list := Framed(ArrayElements(documents, 0));
    var last := [ARRAY] + name + [0] + list;
    var all := WithArgument(elements, name, documents);
    var b, end := pre + all + rest, |pre| + |all|;
    assert b == pre + elements + (last + rest) && b == (pre + elements) + last + rest;
    ElementsPass(pre, elements, last + rest, 0, end, []);
    ListBack(pre + elements + [ARRAY] + name + [0], documents, ds, rest);
    ElementRead(pre + elements, ARRAY, name, list, Arr(AsValues(ds)), rest, end, d);
    ElementsEnd(b, end, Put(d, name, Arr(AsValues(ds))));
  }

  // ----- the two forms of a command -----

  lemma {:induction false} FramedIsDocument(elements: Bytes, d: Document)
    requires |elements| + 5 <= MAX_INT32
    requires var head := Int32LE(|elements| + 5);
             ReadElements(head + elements + [0], |head|, |head| + |elements|, []) == Got(d)
    ensures IsDocument(Framed(elements), d)
  {
    hide ReadElements, ReadElement, ReadDocument, Int32LE, ReadInt32LE;
    assert [] + Int32LE(|elements| + 5) + elements + ([0] + []) == Int32LE(|elements| + 5) + elements + [0];
    FrameBack([], elements, [], DOCUMENT, d);
    assert [] + Framed(elements) + [] == Framed(elements);
  }

  /** The command without its bulk argument, and with it, are whole documents. */
  lemma {:induction false} BothAreDocuments(elements: Bytes, d: Document, name: Text, documents: seq<Bytes>,
          ds: seq<Document>)
    requires AreElements(elements, 0) && ReadElements(elements, 0, |elements|, []) == Got(d)
    requires AreDocuments(documents, ds) && NoZero(name) && |ArrayElements(documents, 0)| + 5 <= MAX_INT32
    requires |WithArgument(elements, name, documents)| + 5 <= MAX_INT32
    ensures IsDocument(Framed(elements), d)
    ensures IsDocument(Framed(WithArgument(elements, name, documents)), Put(d, name, Arr(AsValues(ds))))
  {
    hide ReadElements, Put, AreElements, IsDocument, ArrayElements, NoZero, WithArgument, Framed, Int32LE, AreDocuments;
    var all := WithArgument(elements, name, documents);
    var head := Int32LE(|elements| + 5);
    ElementsPass(head, elements, [0], 0, |head| + |elements|, []);
    ElementsEnd(head + elements + [0], |head| + |elements|, d);
    FramedIsDocument(elements, d);
    ArgumentBack(Int32LE(|all| + 5), elements, d, name, documents, ds, [0]);
    FramedIsDocument(all, Put(d, name, Arr(AsValues(ds))));
  }

  lemma {:induction false} SplitSectionsAre(pre: Bytes, b: Bytes, d: Document, name: Text, documents: seq<Bytes>,
          ds: seq<Document>, after: Bytes)
    requires IsDocument(b, d) && NoZero(name) && AreDocuments(documents, ds)
    requires FitsInt32(5 + |name| + |Concat(documents)|)
    ensures SectionsAre(pre, Single(b) + NamedSection(name, documents), after, Put(d, name, Arr(AsValues(ds))))
  {
    hide ReadSections, Put, IsDocument, Concat, NamedSection, AsValues, AreDocuments;
    var first, second := Single(b), NamedSection(name, documents);
    var end := |pre| + |first| + |second|;
    Regroup(pre, first, second, after);
    FirstSection(pre, b, d, second + after, end);
    NamedBack(pre + first, name, documents, ds, after, end, d);
    SectionsEnd(pre + (first + second) + after, end, Put(d, name, Arr(AsValues(ds))));
  }

  lemma {:induction false} Regroup(a: Bytes, b: Bytes, c: Bytes, d: Bytes)
    ensures a + (b + c) + d == a + b + (c + d) && a + (b + c) + d == (a + b) + c + d
  {
  }

  /**
   * A command split by its driver, its elements in one section and its bulk argument in a sequence, is read as the same
   * message as the command sent whole, with or without a checksum, whatever the elements and the documents are, as long
   * as each can be read.
   */
  lemma {:induction false} SplitReadsAsWhole(requestId: int, responseTo: int, elements: Bytes, d: Document, name: Text,
          documents: seq<Bytes>, ds: seq<Document>, checksum: Option<Bytes>, rest: Bytes)
    requires AreElements(elements, 0) && ReadElements(elements, 0, |elements|, []) == Got(d)
    requires AreDocuments(documents, ds) && NoZero(name) && IsChecksum(checksum)
    requires |ArrayElements(documents, 0)| + 5 <= MAX_INT32 && FitsInt32(5 + |name| + |Concat(documents)|)
    requires |WithArgument(elements, name, documents)| + 5 <= MAX_INT32
    requires FitsHeader(16 + |Content(Single(Framed(elements)) + NamedSection(name, documents), checksum)|,
                        requestId, responseTo, OP_MSG)
    requires FitsHeader(16 + |Content(Single(Framed(WithArgument(elements, name, documents))), checksum)|,
                        requestId, responseTo, OP_MSG)
    ensures var split := Content(Single(Framed(elements)) + NamedSection(name, documents), checksum);
            var whole := Content(Single(Framed(WithArgument(elements, name, documents))), checksum);
            var body := Put(d, name, Arr(AsValues(ds)));
            && ReadMessage(Envelope(requestId, responseTo, OP_MSG, split) + rest)
               == Done(Message(requestId, responseTo, OP_MSG, body, 16 + |split|), 16 + |split|)
            && ReadMessage(Envelope(requestId, responseTo, OP_MSG, whole) + rest)
               == Done(Message(requestId, responseTo, OP_MSG, body, 16 + |whole|), 16 + |whole|)
  {
    hide ReadMessage, Content, Envelope, Single, NamedSection, IsDocument, SectionsAre, Concat, AreElements, Put;
    hide ReadElements, AreDocuments, NoZero, WithArgument, Framed, ArrayElements;
    var full, body := Framed(WithArgument(elements, name, documents)), Put(d, name, Arr(AsValues(ds)));
    var split := Single(Framed(elements)) + NamedSection(name, documents);
    BothAreDocuments(elements, d, name, documents, ds);
    forall pre, after | |pre| == 20
      ensures SectionsAre(pre, split, after, body) && SectionsAre(pre, Single(full), after, body)
    {
      SplitSectionsAre(pre, Framed(elements), d, name, documents, ds, after);
      SingleIs(pre, full, body, after);
    }
    ContentBack(requestId, responseTo, split, checksum, rest, body);
    ContentBack(requestId, responseTo, Single(full), checksum, rest, body);
  }

  // ----- the older form -----

  /** No limits: skip nothing, return everything. */
  const LIMITS: Bytes := [0, 0, 0, 0, 255, 255, 255, 255]

  /** An OP_QUERY of one document: flags, the collection, two limits, the document. */
  function QueryContent(collection: Text, b: Bytes): Bytes {
    NO_FLAGS + (collection + [0]) + LIMITS + b
  }

  /** A command in the older form is read as its document. */
  lemma {:induction false} QueryBack(requestId: int, responseTo: int, collection: Text, b: Bytes, d: Document,
          rest: Bytes)
    requires NoZero(collection) && IsDocument(b, d)
    requires FitsHeader(16 + |QueryContent(collection, b)|, requestId, responseTo, OP_QUERY)
    ensures var content := QueryContent(collection, b);
            ReadMessage(Envelope(requestId, responseTo, OP_QUERY, content) + rest)
            == Done(Message(requestId, responseTo, OP_QUERY, d, 16 + |content|), 16 + |content|)
  {
    hide ReadDocument, ReadElement, Header, IsDocument, ZeroAt, ReadInt32LE, ReadMessage;
    var content := QueryContent(collection, b);
    var head := Header(16 + |content|, requestId, responseTo, OP_QUERY) + NO_FLAGS;
    var w := Envelope(requestId, responseTo, OP_QUERY, content) + rest;
    var before := head + (collection + [0]) + LIMITS;
    assert w == before + b + rest;
    forall i | 20 <= i < 20 + |collection| ensures w[i] != 0 {
      assert w[i] == collection[i - 20];
    }
    assert w[20 + |collection|] == 0;
    ZeroAtIs(w, 20, 20 + |collection|);
    Placed(before, b, d, rest);
    EnvelopeBack(requestId, responseTo, OP_QUERY, content, rest, d);
  }
}
