/**
 * Framed MongoDB messages: `readMessage` and its parts of src/record/protocols/mongoRecorder.ts, and `encodeReply` of
 * src/replay/mongoReplayServer.ts.
 */
module MongoMessages {
  import opened Wire
  import opened Streams
  import opened Documents
  import opened Bson
  import opened BsonWriter

  const HEADER_BYTES := 16
  const OP_MSG := 2013
  const OP_QUERY := 2004
  const OP_REPLY := 1
  const CHECKSUM_BYTES := 4
  const SINGLE_DOCUMENT: byte := 0
  const DOCUMENT_SEQUENCE: byte := 1

  datatype Message = Message(requestId: int, responseTo: int, opCode: int, body: Document, bytes: nat)

  // ----- sections -----

  /** The documents of a sequence from `at` up to `end`; over a document that takes no bytes the source never ends. */
  function ReadSequence(b: Bytes, at: nat, end: int): (r: Reading<seq<Value>>)
    decreases Remaining(b, at)
  {
    if at >= end then Got([])
    else if !Fixed(b, at, 4) then Throws
    else
      match ReadDocument(b, at)
      case Throws => Throws
      case Malformed => Malformed
      case Got(d) =>
        if ReadInt32LE(b, at) <= 0 || !Fixed(b, at, ReadInt32LE(b, at)) then Malformed
        else
          match ReadSequence(b, at + ReadInt32LE(b, at), end)
          case Throws => Throws
          case Malformed => Malformed
          case Got(rest) => Got([Doc(d)] + rest)
  }

  /** One section: the body with its documents merged in, and the offset after it. */
  datatype Section = Section(body: Document, next: nat)

  /** The body a section leads to, if the size it declares lies in the buffer. */
  function Sized(b: Bytes, at: nat, size: int, body: Document): (r: Reading<Section>)
    ensures r.Got? ==> at <= r.value.next <= |b|
  {
    if size < 0 || !Fixed(b, at, size) then Malformed else Got(Section(body, at + size))
  }

  function ReadSingle(b: Bytes, at: nat, body: Document): (r: Reading<Section>)
    ensures r.Got? ==> at <= r.value.next <= |b|
  {
    if !Fixed(b, at, 4) then Throws
    else
      match ReadDocument(b, at)
      case Throws => Throws
      case Malformed => Malformed
      case Got(d) => Sized(b, at, ReadInt32LE(b, at), Merge(body, d))
  }

  function ReadNamed(b: Bytes, at: nat, body: Document): (r: Reading<Section>)
    ensures r.Got? ==> at <= r.value.next <= |b|
  {
    if !Fixed(b, at, 4) then Throws
    else
      match ZeroAt(b, at + 4)
      case None => Malformed
      case Some(zero) =>
        match ReadSequence(b, zero + 1, at + ReadInt32LE(b, at))
        case Throws => Throws
        case Malformed => Malformed
        case Got(documents) => Sized(b, at, ReadInt32LE(b, at), Put(body, b[at + 4..zero], Arr(documents)))
  }

  /** Merge the sections from `at` up to `end` into one document; an unknown kind ends them. */
  function ReadSections(b: Bytes, at: nat, end: int, body: Document): Reading<Document>
    decreases Remaining(b, at)
  {
    if at >= end then Got(body)
    else if at >= |b| then Malformed
    else
      var kind := b[at];
      if kind != SINGLE_DOCUMENT && kind != DOCUMENT_SEQUENCE then Got(body)
      else
        match if kind == SINGLE_DOCUMENT then ReadSingle(b, at + 1, body) else ReadNamed(b, at + 1, body)
        case Throws => Throws
        case Malformed => Malformed
        case Got(section) => ReadSections(b, section.next, end, section.body)
  }

  /** The sections of an OP_MSG, behind its flags and before its checksum, if it has one. */
  function ReadOpMsg(b: Bytes, offset: nat, length: nat): Reading<Document> {
    if !Fixed(b, offset, HEADER_BYTES + 4) then Throws
    else
      var checksum := if b[offset + HEADER_BYTES] % 2 == 1 then CHECKSUM_BYTES else 0;
      ReadSections(b, offset + HEADER_BYTES + 4, offset + length - checksum, [])
  }

  /** The document of an OP_QUERY, behind the flags, the collection name and two limits. */
  function ReadOpQuery(b: Bytes, offset: nat): Reading<Document> {
    match ZeroAt(b, offset + HEADER_BYTES + 4)
    case None => Malformed
    case Some(zero) => if zero + 9 >= |b| then Malformed else ReadDocument(b, zero + 9)
  }

  function ReadBody(b: Bytes, offset: nat, length: nat, opCode: int): Reading<Document> {
    if opCode == OP_MSG then ReadOpMsg(b, offset, length)
    else if opCode == OP_QUERY then ReadOpQuery(b, offset)
    else Got([])
  }

  /** All bytes of a message, as its length field counts them, are there. */
  predicate HasArrived(b: Bytes, offset: nat) {
    && Fixed(b, offset, HEADER_BYTES)
    && ReadInt32LE(b, offset) >= HEADER_BYTES && Fixed(b, offset, ReadInt32LE(b, offset))
  }

  function BodyAt(b: Bytes, offset: nat): Reading<Document>
    requires HasArrived(b, offset)
  {
    ReadBody(b, offset, ReadInt32LE(b, offset), ReadInt32LE(b, offset + 12))
  }

  /** One framed message at `offset`. Foreign: its bytes are there and its body cannot be read. */
  function ReadMessageAt(b: Bytes, offset: nat): (r: Outcome<Message>)
    ensures r.Done? ==> 16 <= r.bytes <= |b| - offset && r.value.bytes == r.bytes
  {
    if !HasArrived(b, offset) then Partial
    else
      match BodyAt(b, offset)
      case Throws => Foreign
      case Malformed => Foreign
      case Got(body) =>
        var length, opCode := ReadInt32LE(b, offset), ReadInt32LE(b, offset + 12);
        Done(Message(ReadInt32LE(b, offset + 4), ReadInt32LE(b, offset + 8), opCode, body, length), length)
  }

  function ReadMessage(b: Bytes): Outcome<Message> {
    ReadMessageAt(b, 0)
  }

  /** Reading the message at `offset` makes the source throw. */
  predicate ThrowsAt(b: Bytes, offset: nat) {
    HasArrived(b, offset) && BodyAt(b, offset).Throws?
  }

  predicate MalformedAt(b: Bytes, offset: nat) {
    HasArrived(b, offset) && BodyAt(b, offset).Malformed?
  }

  // ----- the section loop -----

  method DecodeSequence(b: Bytes, start: nat, end: int) returns (r: Reading<seq<Value>>)
    ensures r == ReadSequence(b, start, end)
  {
    hide ReadDocument, ReadInt32LE;
    var documents: seq<Value> := [];
    var cursor := start;
    ghost var whole := ReadSequence(b, start, end);
    assert whole.Got? ==> [] + whole.value == whole.value;
    while cursor < end
      invariant start <= cursor
      invariant var left := ReadSequence(b, cursor, end);
                (left.Got? <==> whole.Got?) && (left.Throws? <==> whole.Throws?)
                && (left.Got? ==> whole.value == documents + left.value)
      decreases Remaining(b, cursor), end - cursor
    {
      if !Fixed(b, cursor, 4) {
        return Throws;
      }
      var size := ReadInt32LE(b, cursor);
      var document := DecodeDocument(b, cursor);
      match document {
        case Throws => return Throws;
        case Malformed => return Malformed;
        case Got(d) => documents := documents + [Doc(d)];
      }
      if size <= 0 || !Fixed(b, cursor, size) {
        return Malformed;
      }
      cursor := cursor + size;
    }
    assert documents + [] == documents;
    return Got(documents);
  }

  method DecodeSections(b: Bytes, start: nat, end: int) returns (r: Reading<Document>)
    ensures r == ReadSections(b, start, end, [])
  {
    hide ReadDocument, ReadSequence, Merge, Put, ReadInt32LE;
    var body: Document := [];
    var cursor := start;
    while cursor < end
      invariant start <= cursor
      invariant ReadSections(b, cursor, end, body) == ReadSections(b, start, end, [])
      decreases Remaining(b, cursor), end - cursor
    {
      if cursor >= |b| {
        return Malformed;
      }
      var kind := b[cursor];
      if kind != SINGLE_DOCUMENT && kind != DOCUMENT_SEQUENCE {
        break;
      }
      cursor := cursor + 1;
      if !Fixed(b, cursor, 4) {
        return Throws;
      }
      var size := ReadInt32LE(b, cursor);
      if kind == SINGLE_DOCUMENT {
        var document := DecodeDocument(b, cursor);
        match document {
          case Throws => return Throws;
          case Malformed => return Malformed;
          case Got(d) => body := Merge(body, d);
        }
      } else {
        var zero := ZeroAt(b, cursor + 4);
        if zero.None? {
          return Malformed;
        }
        var documents := DecodeSequence(b, zero.value + 1, cursor + size);
        match documents {
          case Throws => return Throws;
          case Malformed => return Malformed;
          case Got(list) => body := Put(body, b[cursor + 4..zero.value], Arr(list));
        }
      }
      if size < 0 || !Fixed(b, cursor, size) {
        return Malformed;
      }
      cursor := cursor + size;
    }
    return Got(body);
  }

  // ----- bytes around a message do not matter -----

  lemma {:induction false} SequenceWithin(pre: Bytes, b: Bytes, more: Bytes, at: nat, end: int)
    requires ReadSequence(b, at, end).Got? || more == []
    ensures ReadSequence(pre + b + more, |pre| + at, |pre| + end) == ReadSequence(b, at, end)
    decreases Remaining(b, at)
  {
    hide ReadInt32LE, ReadDocument;
    FieldsWithin(pre, b, more, at);
    if at < end && Fixed(b, at, 4) {
      DocumentWithin(pre, b, more, at);
      if ReadDocument(b, at).Got? && ReadInt32LE(b, at) > 0 && Fixed(b, at, ReadInt32LE(b, at)) {
        SequenceWithin(pre, b, more, at + ReadInt32LE(b, at), end);
      }
    }
  }

  function MovedSection(r: Reading<Section>, shift: nat): Reading<Section> {
    match r
    case Throws => Throws
    case Malformed => Malformed
    case Got(section) => Got(Section(section.body, shift + section.next))
  }

  lemma {:induction false} SingleWithin(pre: Bytes, b: Bytes, more: Bytes, at: nat, body: Document)
    requires ReadSingle(b, at, body).Got? || more == []
    ensures ReadSingle(pre + b + more, |pre| + at, body) == MovedSection(ReadSingle(b, at, body), |pre|)
  {
    hide ReadInt32LE, ReadDocument, Merge;
    FieldsWithin(pre, b, more, at);
    if Fixed(b, at, 4) {
      DocumentWithin(pre, b, more, at);
    }
  }

  lemma {:induction false} NamedWithin(pre: Bytes, b: Bytes, more: Bytes, at: nat, body: Document)
    requires ReadNamed(b, at, body).Got? || more == []
    ensures ReadNamed(pre + b + more, |pre| + at, body) == MovedSection(ReadNamed(b, at, body), |pre|)
  {
    hide ReadInt32LE, ReadSequence, ZeroAt, Put;
    FieldsWithin(pre, b, more, at);
    if Fixed(b, at, 4) {
      ZeroAtWithin(pre, b, more, at + 4);
      if ZeroAt(b, at + 4).Some? {
        SliceWithin(pre, b, more, at + 4, ZeroAt(b, at + 4).value);
        SequenceWithin(pre, b, more, ZeroAt(b, at + 4).value + 1, at + ReadInt32LE(b, at));
      }
    }
  }

  lemma {:induction false} SectionsWithin(pre: Bytes, b: Bytes, more: Bytes, at: nat, end: int, body: Document)
    requires ReadSections(b, at, end, body).Got? || more == []
    ensures ReadSections(pre + b + more, |pre| + at, |pre| + end, body) == ReadSections(b, at, end, body)
    decreases Remaining(b, at)
  {
    hide ReadSingle, ReadNamed;
    if at < end && at < |b| {
      assert (pre + b + more)[|pre| + at] == b[at];
      if b[at] == SINGLE_DOCUMENT {
        SingleWithin(pre, b, more, at + 1, body);
        if ReadSingle(b, at + 1, body).Got? {
          var section := ReadSingle(b, at + 1, body).value;
          SectionsWithin(pre, b, more, section.next, end, section.body);
        }
      } else if b[at] == DOCUMENT_SEQUENCE {
        NamedWithin(pre, b, more, at + 1, body);
        if ReadNamed(b, at + 1, body).Got? {
          var section := ReadNamed(b, at + 1, body).value;
          SectionsWithin(pre, b, more, section.next, end, section.body);
        }
      }
    }
  }

  lemma {:induction false} BodyWithin(pre: Bytes, b: Bytes, more: Bytes, offset: nat, length: nat, opCode: int)
    requires ReadBody(b, offset, length, opCode).Got? || more == []
    ensures ReadBody(pre + b + more, |pre| + offset, length, opCode) == ReadBody(b, offset, length, opCode)
  {
    hide ReadSections, ZeroAt, ReadDocument;
    if opCode == OP_MSG && Fixed(b, offset, HEADER_BYTES + 4) {
      assert (pre + b + more)[|pre| + offset + HEADER_BYTES] == b[offset + HEADER_BYTES];
      var checksum := if b[offset + HEADER_BYTES] % 2 == 1 then CHECKSUM_BYTES else 0;
      SectionsWithin(pre, b, more, offset + HEADER_BYTES + 4, offset + length - checksum, []);
    } else if opCode == OP_QUERY {
      ZeroAtWithin(pre, b, more, offset + HEADER_BYTES + 4);
      if ZeroAt(b, offset + HEADER_BYTES + 4).Some? {
        DocumentWithin(pre, b, more, ZeroAt(b, offset + HEADER_BYTES + 4).value + 9);
      }
    }
  }

  lemma {:induction false} ArrivedWithin(pre: Bytes, b: Bytes, more: Bytes, offset: nat)
    requires HasArrived(b, offset) || more == []
    ensures HasArrived(pre + b + more, |pre| + offset) == HasArrived(b, offset)
  {
    hide ReadInt32LE;
    FieldsWithin(pre, b, more, offset);
  }

  lemma {:induction false} BodyAtWithin(pre: Bytes, b: Bytes, more: Bytes, offset: nat)
    requires HasArrived(b, offset) && (BodyAt(b, offset).Got? || more == [])
    ensures HasArrived(pre + b + more, |pre| + offset)
    ensures BodyAt(pre + b + more, |pre| + offset) == BodyAt(b, offset)
  {
    hide ReadBody, ReadInt32LE;
    FieldsWithin(pre, b, more, offset);
    FieldsWithin(pre, b, more, offset + 12);
    BodyWithin(pre, b, more, offset, ReadInt32LE(b, offset), ReadInt32LE(b, offset + 12));
  }

  lemma {:induction false} MessageWithin(pre: Bytes, b: Bytes, more: Bytes, offset: nat)
    requires ReadMessageAt(b, offset).Done? || more == []
    ensures ReadMessageAt(pre + b + more, |pre| + offset) == ReadMessageAt(b, offset)
    ensures ThrowsAt(pre + b + more, |pre| + offset) == ThrowsAt(b, offset)
    ensures MalformedAt(pre + b + more, |pre| + offset) == MalformedAt(b, offset)
  {
    hide BodyAt, ReadInt32LE;
    if HasArrived(b, offset) {
      BodyAtWithin(pre, b, more, offset);
      FieldsWithin(pre, b, more, offset);
      FieldsWithin(pre, b, more, offset + 4);
      FieldsWithin(pre, b, more, offset + 8);
      FieldsWithin(pre, b, more, offset + 12);
    } else {
      ArrivedWithin(pre, b, more, offset);
    }
  }

  lemma {:induction false} ReadMessageIsStable()
    ensures Stable(ReadMessage)
  {
    hide ReadMessageAt;
    forall b, more ensures Settled(ReadMessage, b, more) {
      if ReadMessage(b).Done? {
        MessageWithin([], b, more, 0);
        assert [] + b + more == b + more;
      }
    }
  }

  lemma {:induction false} MessageAtOffset(b: Bytes, offset: nat)
    requires offset <= |b|
    ensures ReadMessageAt(b, offset) == ReadMessage(b[offset..])
    ensures ThrowsAt(b, offset) == ThrowsAt(b[offset..], 0)
    ensures MalformedAt(b, offset) == MalformedAt(b[offset..], 0)
  {
    hide ReadMessageAt, ThrowsAt, MalformedAt;
    MessageWithin(b[..offset], b[offset..], [], 0);
    assert b[..offset] + b[offset..] + [] == b;
  }

  // ----- writing -----

  predicate FitsHeader(length: int, requestId: int, responseTo: int, opCode: int) {
    FitsInt32(length) && FitsInt32(requestId) && FitsInt32(responseTo) && FitsInt32(opCode)
  }

  function Header(length: int, requestId: int, responseTo: int, opCode: int): (h: Bytes)
    requires FitsHeader(length, requestId, responseTo, opCode)
    ensures |h| == 16
  {
    Int32LE(length) + Int32LE(requestId) + Int32LE(responseTo) + Int32LE(opCode)
  }

  /** A message of any kind: its header, and the bytes after it. */
  function Envelope(requestId: int, responseTo: int, opCode: int, content: Bytes): (m: Bytes)
    requires FitsHeader(16 + |content|, requestId, responseTo, opCode)
    ensures |m| == 16 + |content|
  {
    Header(16 + |content|, requestId, responseTo, opCode) + content
  }

  const NO_FLAGS: Bytes := [0, 0, 0, 0]

  /** response flags, cursor id, starting position, and the number of documents: one. */
  function ReplyPreamble(): Bytes {
    Int32LE(8) + Int64LE(0) + Int32LE(0) + Int32LE(1)
  }

  function ReplyContent(body: Document, requestOpCode: int): Bytes
    requires Encodable(body)
  {
    if requestOpCode == OP_QUERY then ReplyPreamble() + EncodeDocument(body)
    else NO_FLAGS + ([SINGLE_DOCUMENT] + EncodeDocument(body))
  }

  function ReplyCode(requestOpCode: int): int {
    if requestOpCode == OP_QUERY then OP_REPLY else OP_MSG
  }

  /** Every field of the reply fits the range its writer accepts. */
  predicate FitsReply(responseTo: int, requestId: int, body: Document, requestOpCode: int) {
    && Encodable(body)
    && FitsHeader(16 + |ReplyContent(body, requestOpCode)|, requestId, responseTo, ReplyCode(requestOpCode))
  }

  /** A reply in the form the request arrived in: OP_REPLY to an OP_QUERY, OP_MSG to anything else. */
  function EncodeReply(responseTo: int, requestId: int, body: Document, requestOpCode: int): Bytes
    requires FitsReply(responseTo, requestId, body, requestOpCode)
  {
    Envelope(requestId, responseTo, ReplyCode(requestOpCode), ReplyContent(body, requestOpCode))
  }

  // ----- reading what was written -----

  lemma {:induction false} HeaderBack(requestId: int, responseTo: int, opCode: int, content: Bytes, rest: Bytes)
    requires FitsHeader(16 + |content|, requestId, responseTo, opCode)
    ensures var b := Envelope(requestId, responseTo, opCode, content) + rest;
            && ReadInt32LE(b, 0) == 16 + |content| && ReadInt32LE(b, 4) == requestId
            && ReadInt32LE(b, 8) == responseTo && ReadInt32LE(b, 12) == opCode
  {
    hide ReadInt32LE, Int32LE;
    var n := 16 + |content|;
    var b := Envelope(requestId, responseTo, opCode, content) + rest;
    var f0, f1, f2, f3 := Int32LE(n), Int32LE(requestId), Int32LE(responseTo), Int32LE(opCode);
    assert b == [] + f0 + (f1 + f2 + f3 + content + rest);
    Int32LERoundTrip([], n, f1 + f2 + f3 + content + rest);
    assert b == f0 + f1 + (f2 + f3 + content + rest);
    Int32LERoundTrip(f0, requestId, f2 + f3 + content + rest);
    assert b == (f0 + f1) + f2 + (f3 + content + rest);
    Int32LERoundTrip(f0 + f1, responseTo, f3 + content + rest);
    assert b == (f0 + f1 + f2) + f3 + (content + rest);
    Int32LERoundTrip(f0 + f1 + f2, opCode, content + rest);
  }

  /** Framing is undone by reading, once the body is known. */
  lemma {:induction false} EnvelopeBack(requestId: int, responseTo: int, opCode: int, content: Bytes, rest: Bytes,
          body: Document)
    requires FitsHeader(16 + |content|, requestId, responseTo, opCode)
    requires ReadBody(Envelope(requestId, responseTo, opCode, content) + rest, 0, 16 + |content|, opCode) == Got(body)
    ensures ReadMessage(Envelope(requestId, responseTo, opCode, content) + rest)
            == Done(Message(requestId, responseTo, opCode, body, 16 + |content|), 16 + |content|)
  {
    hide ReadBody, ReadInt32LE, Envelope;
    HeaderBack(requestId, responseTo, opCode, content, rest);
  }

  /** A section of one whole document. */
  function Single(b: Bytes): Bytes {
    [SINGLE_DOCUMENT] + b
  }

  /** One document section, merged into what was read before it. */
  lemma {:induction false} SingleBack(pre: Bytes, b: Bytes, d: Document, rest: Bytes, end: int, body: Document)
    requires IsDocument(b, d) && |pre| < end
    ensures var w := pre + Single(b) + rest;
            ReadSections(w, |pre|, end, body) == ReadSections(w, |pre| + |Single(b)|, end, Merge(body, d))
  {
    hide ReadDocument, ReadElement, ReadInt32LE, Merge, ReadNamed;
    var w := pre + Single(b) + rest;
    assert w == (pre + [SINGLE_DOCUMENT]) + b + rest;
    assert w[|pre|] == SINGLE_DOCUMENT;
    Placed(pre + [SINGLE_DOCUMENT], b, d, rest);
    assert ReadSingle(w, |pre| + 1, body) == Got(Section(Merge(body, d), |pre| + 1 + |b|));
  }

  // ----- commands -----

  const CHECKSUMMED: Bytes := [1, 0, 0, 0]

  /** An OP_MSG holding `sections`, with a checksum when there is one. */
  function Content(sections: Bytes, checksum: Option<Bytes>): Bytes {
    match checksum
    case None => NO_FLAGS + sections
    case Some(sum) => CHECKSUMMED + sections + sum
  }

  predicate IsChecksum(checksum: Option<Bytes>) {
    checksum.Some? ==> |checksum.value| == CHECKSUM_BYTES
  }

  lemma {:induction false} ContentBack(requestId: int, responseTo: int, sections: Bytes, checksum: Option<Bytes>,
          rest: Bytes, body: Document)
    requires IsChecksum(checksum) && FitsHeader(16 + |Content(sections, checksum)|, requestId, responseTo, OP_MSG)
    requires forall pre, after | |pre| == 20 :: SectionsAre(pre, sections, after, body)
    ensures ReadMessage(Envelope(requestId, responseTo, OP_MSG, Content(sections, checksum)) + rest)
            == Done(Message(requestId, responseTo, OP_MSG, body, 16 + |Content(sections, checksum)|),
                    16 + |Content(sections, checksum)|)
  {
    hide ReadSections, Header;
    var content := Content(sections, checksum);
    var header := Header(16 + |content|, requestId, responseTo, OP_MSG);
    var b := Envelope(requestId, responseTo, OP_MSG, content) + rest;
    var flags := if checksum.Some? then CHECKSUMMED else NO_FLAGS;
    var after := if checksum.Some? then checksum.value + rest else rest;
    assert b == (header + flags) + sections + after;
    assert b[16] == flags[0];
    assert SectionsAre(header + flags, sections, after, body);
    EnvelopeBack(requestId, responseTo, OP_MSG, content, rest, body);
  }

  /** Sections that read as `body` wherever they stand. */
  ghost predicate SectionsAre(pre: Bytes, sections: Bytes, after: Bytes, body: Document) {
    ReadSections(pre + sections + after, |pre|, |pre| + |sections|, []) == Got(body)
  }

  lemma {:induction false} SectionsEnd(b: Bytes, at: nat, body: Document)
    ensures ReadSections(b, at, at, body) == Got(body)
  {
  }

  /** The section a command opens with. */
  lemma {:induction false} FirstSection(pre: Bytes, b: Bytes, d: Document, rest: Bytes, end: int)
    requires IsDocument(b, d) && |pre| < end
    ensures var w := pre + Single(b) + rest;
            ReadSections(w, |pre|, end, []) == ReadSections(w, |pre| + |Single(b)|, end, d)
  {
    hide ReadSections, Merge, IsDocument, ReadElement, ReadDocument, ReadInt32LE, IsObject;
    SingleBack(pre, b, d, rest, end, []);
    Placed(pre, b, d, rest);
    assert [] + d == d;
    MergeAppends([], d);
  }

  lemma {:induction false} SingleIs(pre: Bytes, b: Bytes, d: Document, after: Bytes)
    requires IsDocument(b, d)
    ensures SectionsAre(pre, Single(b), after, d)
  {
    hide ReadSections, IsDocument;
    FirstSection(pre, b, d, after, |pre| + |Single(b)|);
    SectionsEnd(pre + Single(b) + after, |pre| + |Single(b)|, d);
  }

  function WholeSection(d: Document): Bytes
    requires Encodable(d)
  {
    Single(EncodeDocument(d))
  }

  lemma {:induction false} WholeSectionIs(pre: Bytes, d: Document, after: Bytes)
    requires Encodable(d)
    ensures SectionsAre(pre, WholeSection(d), after, CanonDocument(d))
  {
    hide SectionsAre, EncodeDocument, Encodable, Single, IsDocument;
    WrittenIsDocument(d);
    SingleIs(pre, EncodeDocument(d), CanonDocument(d), after);
  }

  /**
   * A reply framed as OP_MSG is read back whole: its ids, its length, and the canonical body. A reply framed as
   * OP_REPLY keeps its ids and its length and loses its body: the reader knows no such message.
   */
  lemma {:induction false} ReplyRoundTrip(responseTo: int, requestId: int, body: Document, requestOpCode: int,
          rest: Bytes)
    requires FitsReply(responseTo, requestId, body, requestOpCode)
    ensures var reply := EncodeReply(responseTo, requestId, body, requestOpCode);
            ReadMessage(reply + rest) ==
            Done(Message(requestId, responseTo, ReplyCode(requestOpCode),
                         if requestOpCode == OP_QUERY then [] else CanonDocument(body), |reply|), |reply|)
  {
    hide ReadMessage, Envelope, EncodeDocument, SectionsAre, Encodable, ReplyPreamble;
    var content := ReplyContent(body, requestOpCode);
    if requestOpCode == OP_QUERY {
      EnvelopeBack(requestId, responseTo, OP_REPLY, content, rest, []);
    } else {
      forall pre, after | |pre| == 20 ensures SectionsAre(pre, WholeSection(body), after, CanonDocument(body)) {
        WholeSectionIs(pre, body, after);
      }
      assert content == Content(WholeSection(body), None);
      ContentBack(requestId, responseTo, WholeSection(body), None, rest, CanonDocument(body));
    }
  }
}
