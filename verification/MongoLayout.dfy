/**
 * MongoDB messages in bytes, and how src/record/protocols/mongoRecorder.ts reads and
 * src/replay/mongoReplayServer.ts writes them. Nothing here is stated through the program's own op codes or fields.
 */
module MongoLayout {
  import opened Wire
  import opened Streams
  import opened Documents
  import opened Bson
  import opened BsonWriter
  import opened BsonLayout
  import opened MongoMessages
  import opened MongoCommands

  /** Four bytes are the ones written for the number they stand for. */
  lemma {:induction false} Only32(field: Bytes)
    requires |field| == 4
    ensures FitsInt32(Place32(field)) && Int32LE(Place32(field)) == field
  {
    var n := Place32(field);
    Writes32(n);
    Digits32(field, Int32LE(n));
  }

  lemma {:induction false} Digit(a: int, high: int, b: int, rest: int)
    requires 0 <= a < 256 && 0 <= b < 256 && a + 256 * high == b + 256 * rest
    ensures a == b && high == rest
  {
    assert high < rest ==> 256 * high <= 256 * rest - 256;
  }

  lemma {:induction false} Digits32(a: Bytes, b: Bytes)
    requires |a| == |b| == 4 && Place32(a) == Place32(b)
    ensures a == b
  {
    var high, rest := a[2] as int + 256 * a[3] as int, b[2] as int + 256 * b[3] as int;
    Digit(a[0], a[1] as int + 256 * high, b[0], b[1] as int + 256 * rest);
    Digit(a[1], high, b[1], rest);
    Digit(a[2], a[3], b[2], b[3]);
    assert forall i | 0 <= i < 4 :: a[i] == b[i];
  }

  /** The header: length, id, the id replied to, and a code. */
  lemma {:induction false} HeaderIs(length: Bytes, id: Bytes, responseTo: Bytes, code: Bytes, rest: Bytes)
    requires |length| == |id| == |responseTo| == |code| == 4
    ensures var b := length + id + responseTo + code + rest;
            && ReadInt32LE(b, 0) == Place32(length) && ReadInt32LE(b, 4) == Place32(id)
            && ReadInt32LE(b, 8) == Place32(responseTo) && ReadInt32LE(b, 12) == Place32(code)
  {
    hide Place32, ReadInt32LE;
    var b := length + id + responseTo + code + rest;
    assert b == [] + length + (id + responseTo + code + rest);
    Reads32([], length, id + responseTo + code + rest);
    assert b == length + id + (responseTo + code + rest);
    Reads32(length, id, responseTo + code + rest);
    assert b == (length + id) + responseTo + (code + rest);
    Reads32(length + id, responseTo, code + rest);
    Reads32(length + id + responseTo, code, rest);
  }

  /** A message of sections: behind four bytes of flags, and before a checksum where the lowest bit of them is set. */
  lemma {:induction false} MessageIs(length: Bytes, id: Bytes, responseTo: Bytes, flags: Bytes, sections: Bytes,
          sum: Bytes, rest: Bytes, body: Document)
    requires |length| == |id| == |responseTo| == |flags| == 4 && |sum| == (if flags[0] % 2 == 1 then 4 else 0)
    requires Place32(length) == 20 + |sections| + |sum|
    requires SectionsAre(length + id + responseTo + [221, 7, 0, 0] + flags, sections, sum + rest, body)
    ensures var n := Place32(length);
            ReadMessage(length + id + responseTo + [221, 7, 0, 0] + flags + sections + sum + rest)
            == Done(Message(Place32(id), Place32(responseTo), 2013, body, n), n)
  {
    hide Place32, ReadInt32LE, ReadSections;
    var head := length + id + responseTo + [221, 7, 0, 0] + flags;
    var b := head + sections + sum + rest;
    assert b == head + sections + (sum + rest);
    assert b == length + id + responseTo + [221, 7, 0, 0] + (flags + sections + sum + rest);
    HeaderIs(length, id, responseTo, [221, 7, 0, 0], flags + sections + sum + rest);
    CodesAre();
    assert b[16] == flags[0];
  }

  lemma {:induction false} CodesAre()
    ensures Place32([221, 7, 0, 0]) == 2013 && Place32([212, 7, 0, 0]) == 2004 && Place32([1, 0, 0, 0]) == 1
  {
  }

  /** A section of kind 0 is one document; one of kind 1 has a size, a name and a zero before its documents. */
  lemma {:induction false} SectionsRead(pre: Bytes, b: Bytes, d: Document, size: Bytes, name: Text,
          documents: seq<Bytes>, ds: seq<Document>, after: Bytes)
    requires IsDocument(b, d) && NoZero(name) && AreDocuments(documents, ds)
    requires |size| == 4 && Place32(size) == 5 + |name| + |Concat(documents)|
    ensures SectionsAre(pre, [0] + b, after, d)
    ensures SectionsAre(pre, [0] + b + ([1] + size + (name + [0]) + Concat(documents)), after,
                        Put(d, name, Arr(AsValues(ds))))
  {
    hide SectionsAre, IsDocument, AreDocuments, Concat, Place32, Int32LE, NoZero, Put;
    SingleIs(pre, b, d, after);
    Only32(size);
    assert NamedSection(name, documents) == [1] + size + (name + [0]) + Concat(documents);
    SplitSectionsAre(pre, b, d, name, documents, ds, after);
  }

  /** A message of the older form: flags, a collection and a zero, two limits of four bytes, one document. */
  lemma {:induction false} QueryIs(length: Bytes, id: Bytes, responseTo: Bytes, flags: Bytes, collection: Text,
          limits: Bytes, b: Bytes, d: Document, rest: Bytes)
    requires |length| == |id| == |responseTo| == |flags| == 4 && |limits| == 8
    requires NoZero(collection) && IsDocument(b, d) && Place32(length) == 29 + |collection| + |b|
    ensures var n := Place32(length);
            ReadMessage(length + id + responseTo + [212, 7, 0, 0] + flags + collection + [0] + limits + b + rest)
            == Done(Message(Place32(id), Place32(responseTo), 2004, d, n), n)
  {
    hide Place32, ReadInt32LE, ReadDocument, ReadElement, IsDocument, ZeroAt;
    var w := length + id + responseTo + [212, 7, 0, 0] + flags + collection + [0] + limits + b + rest;
    var before := length + id + responseTo + [212, 7, 0, 0] + flags + collection + [0] + limits;
    assert w == before + b + rest;
    assert w == length + id + responseTo + [212, 7, 0, 0] + (flags + collection + [0] + limits + b + rest);
    HeaderIs(length, id, responseTo, [212, 7, 0, 0], flags + collection + [0] + limits + b + rest);
    CodesAre();
    forall i | 20 <= i < 20 + |collection| ensures w[i] != 0 {
      assert w[i] == collection[i - 20];
    }
    assert w[20 + |collection|] == 0;
    ZeroAtIs(w, 20, 20 + |collection|);
    Placed(before, b, d, rest);
  }

  /** A message of any other code has no body; one that is not all there, or shorter than its header, is waited for. */
  lemma {:induction false} OthersAre(length: Bytes, id: Bytes, responseTo: Bytes, code: Bytes, content: Bytes,
          rest: Bytes)
    requires |length| == |id| == |responseTo| == |code| == 4
    ensures Place32(length) == 16 + |content| && code !in {[221, 7, 0, 0], [212, 7, 0, 0]} ==>
              ReadMessage(length + id + responseTo + code + content + rest)
              == Done(Message(Place32(id), Place32(responseTo), Place32(code), [], 16 + |content|), 16 + |content|)
    ensures Place32(length) < 16 || Place32(length) > 16 + |content| ==>
              ReadMessage(length + id + responseTo + code + content) == Partial
  {
    HeaderIs(length, id, responseTo, code, content + rest);
    HeaderIs(length, id, responseTo, code, content);
    assert length + id + responseTo + code + (content + rest) == length + id + responseTo + code + content + rest;
    Only32(code);
    Only32([221, 7, 0, 0]);
    Only32([212, 7, 0, 0]);
    CodesAre();
    hide Place32, ReadInt32LE, Int32LE;
  }

  lemma {:induction false} SmallAre()
    ensures Int32LE(0) == [0, 0, 0, 0] && Int32LE(1) == [1, 0, 0, 0] && Int32LE(8) == [8, 0, 0, 0]
    ensures Int32LE(2013) == [221, 7, 0, 0] && Int64LE(0) == [0, 0, 0, 0, 0, 0, 0, 0]
  {
  }

  /** A reply from its code on. */
  function ReplyBytes(document: Bytes, code: int): Bytes {
    if code == 2004 then
      [1, 0, 0, 0] + [8, 0, 0, 0] + [0, 0, 0, 0, 0, 0, 0, 0] + [0, 0, 0, 0] + [1, 0, 0, 0] + document
    else [221, 7, 0, 0] + [0, 0, 0, 0] + [0] + document
  }

  lemma {:induction false} ContentWritten(body: Document, code: int)
    requires Encodable(body)
    ensures Int32LE(ReplyCode(code)) + ReplyContent(body, code) == ReplyBytes(EncodeDocument(body), code)
  {
    SmallAre();
    hide Int32LE, Int64LE, EncodeDocument, Encodable;
    var document := EncodeDocument(body);
    if code == 2004 {
      assert ReplyContent(body, code)
          == [8, 0, 0, 0] + [0, 0, 0, 0, 0, 0, 0, 0] + [0, 0, 0, 0] + [1, 0, 0, 0] + document;
    } else {
      assert ReplyContent(body, code) == [0, 0, 0, 0] + [0] + document;
    }
  }

  /**
   * What a reply is in bytes. In answer to an OP_QUERY: an OP_REPLY that can await, of no cursor, from the first
   * document, and of one. In answer to anything else: an OP_MSG without flags, of one section.
   */
  lemma {:induction false} ReplyWritten(responseTo: int, id: int, body: Document, code: int)
    returns (length: Bytes, own: Bytes, to: Bytes)
    requires FitsReply(responseTo, id, body, code)
    ensures |length| == |own| == |to| == 4 && Place32(own) == id && Place32(to) == responseTo
    ensures var reply := EncodeReply(responseTo, id, body, code);
            && Place32(length) == |reply|
            && reply == length + own + to + ReplyBytes(EncodeDocument(body), code)
  {
    var content := ReplyContent(body, code);
    length, own, to := Int32LE(16 + |content|), Int32LE(id), Int32LE(responseTo);
    Writes32(16 + |content|);
    Writes32(id);
    Writes32(responseTo);
    ContentWritten(body, code);
    hide Int32LE, Int64LE, Place32, EncodeDocument, Encodable, ReplyContent, ReplyCode, ReplyBytes;
    assert EncodeReply(responseTo, id, body, code) == length + own + to + (Int32LE(ReplyCode(code)) + content);
  }
}
