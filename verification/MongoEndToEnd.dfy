/**
 * A MongoDB session against the replay server, on bytes, watched by a recorder: whatever the recording is and whatever
 * is asked, in whatever chunks.
 */
module MongoEndToEnd {
  import opened Wire
  import opened Streams
  import opened Playback
  import opened Documents
  import opened MongoMessages
  import opened MongoRecorders
  import opened MongoReplays
  import Bson

  // ----- the server's side -----

  /** A request, and the bytes it is sent as. */
  datatype Request = Request(message: Message, sent: Bytes)

  function Messages(requests: seq<Request>): (messages: seq<Message>)
    ensures |messages| == |requests|
  {
    seq(|requests|, i requires 0 <= i < |requests| => requests[i].message)
  }

  function Sents(requests: seq<Request>): (sent: seq<Bytes>)
    ensures |sent| == |requests|
  {
    seq(|requests|, i requires 0 <= i < |requests| => requests[i].sent)
  }

  /** Recorded responses under the signatures they are filed by. */
  type Log = seq<(Text, Document)>

  /** The server with a recording loaded, before anything is asked. */
  function Opening(log: Log): Work {
    Work(Load(log), 1, [])
  }

  /** The requests as the replay is asked them: the reply to the request at index `i` is built under the id 2 + i. */
  function CallsOf(world: World, requests: seq<Request>): (calls: seq<Call>)
    ensures |calls| == |requests|
  {
    seq(|requests|, i requires 0 <= i < |requests| => Call(requests[i].message.body, world.clock(2 + i)))
  }

  /** What a request must be answered, from the recording and the requests before it alone. */
  function DueTo(world: World, log: Log, requests: seq<Request>, i: nat): Document
    requires i < |requests|
  {
    var calls := CallsOf(world, requests);
    Expected(world.stringify, log, Lookups(world.stringify, calls[..i]), calls[i])
  }

  /** Every request is a message that is read back from its bytes, and the reply due to it can be written. */
  ghost predicate Servable(world: World, log: Log, requests: seq<Request>) {
    && (forall i | 0 <= i < |requests| :: Inverts(ReadMessage, requests[i].message, requests[i].sent))
    && (forall i | 0 <= i < |requests| :: Fits(requests[i], i, DueTo(world, log, requests, i)))
  }

  /** The reply to the request at index `n` takes the id 2 + n, and fits. */
  predicate Fits(r: Request, n: nat, due: Document) {
    FitsReply(r.message.requestId, 2 + n, due, r.message.opCode)
  }

  function ReplyBytes(r: Request, n: nat, due: Document): Bytes
    requires Fits(r, n, due)
  {
    EncodeReply(r.message.requestId, 2 + n, due, r.message.opCode)
  }

  function Replies(world: World, log: Log, requests: seq<Request>): (replies: seq<Bytes>)
    requires forall i | 0 <= i < |requests| :: Fits(requests[i], i, DueTo(world, log, requests, i))
    ensures |replies| == |requests|
  {
    seq(|requests|, i requires 0 <= i < |requests| => ReplyBytes(requests[i], i, DueTo(world, log, requests, i)))
  }

  /** The body of a reply as it is read back: canonical, and lost where the request was an OP_QUERY. */
  function ReadBack(opCode: int, due: Document): Document {
    if opCode == OP_QUERY then [] else CanonDocument(due)
  }

  function Answers(world: World, log: Log, requests: seq<Request>): (answers: seq<Message>)
    requires forall i | 0 <= i < |requests| :: Fits(requests[i], i, DueTo(world, log, requests, i))
    ensures |answers| == |requests|
  {
    seq(|requests|, i requires 0 <= i < |requests| =>
      var m, due := requests[i].message, DueTo(world, log, requests, i);
      Message(2 + i, m.requestId, ReplyCode(m.opCode), ReadBack(m.opCode, due), |ReplyBytes(requests[i], i, due)|))
  }

  lemma {:induction false} DuePrefix(world: World, log: Log, requests: seq<Request>, m: nat, i: nat)
    requires i < m <= |requests|
    ensures DueTo(world, log, requests[..m], i) == DueTo(world, log, requests, i)
  {
    hide Expected, Lookups;
    var calls := CallsOf(world, requests);
    assert CallsOf(world, requests[..m]) == calls[..m] && calls[..m][..i] == calls[..i];
  }

  lemma {:induction false} ServablePrefix(world: World, log: Log, requests: seq<Request>, m: nat)
    requires Servable(world, log, requests) && m <= |requests|
    ensures Servable(world, log, requests[..m])
    ensures Replies(world, log, requests[..m]) == Replies(world, log, requests)[..m]
  {
    hide Inverts, Fits, ReplyBytes, DueTo;
    forall i | 0 <= i < m ensures DueTo(world, log, requests[..m], i) == DueTo(world, log, requests, i) {
      DuePrefix(world, log, requests, m, i);
    }
  }

  lemma {:induction false} ConcatLast(chunks: seq<Bytes>)
    requires chunks != []
    ensures Concat(chunks) == Concat(chunks[..|chunks| - 1]) + chunks[|chunks| - 1]
  {
    var last := chunks[|chunks| - 1];
    ConcatAppend(chunks[..|chunks| - 1], [last]);
    assert chunks == chunks[..|chunks| - 1] + [last] && Concat([last]) == last + [];
  }

  /** Handling the requests one after the other: ids count up from 2 and every reply is the one that is due. */
  lemma {:induction false} ServesDue(world: World, log: Log, requests: seq<Request>)
    requires Servable(world, log, requests)
    ensures var shelf := Ask(world.stringify, Load(log), CallsOf(world, requests)).shelf;
            Fold(Handler(world), On(Opening(log)), Messages(requests))
            == On(Work(shelf, 1 + |requests|, Concat(Replies(world, log, requests))))
    decreases |requests|
  {
    hide ReplyTo, Fits, ReplyBytes, Concat, Load, Ask, Handler, DueTo, Inverts;
    var step, w := Handler(world), Opening(log);
    if requests == [] {
      NothingServed(world, log);
    } else {
      var n := |requests| - 1;
      var before := requests[..n];
      ServablePrefix(world, log, requests, n);
      ServesDue(world, log, before);
      LastCall(world, log, requests);
      assert Messages(requests) == Messages(before) + [requests[n].message];
      FoldAppend(step, On(w), Messages(before), [requests[n].message]);
      ConcatLast(Replies(world, log, requests));
      var shelf := Ask(world.stringify, w.shelf, CallsOf(world, before)).shelf;
      LastServed(world, Work(shelf, 1 + n, Concat(Replies(world, log, before))), requests[n], n,
                 DueTo(world, log, requests, n));
    }
  }

  /** The last call of the requests: its shelf, and the reply it gets. */
  lemma {:induction false} LastCall(world: World, log: Log, requests: seq<Request>)
    requires requests != []
    ensures var n := |requests| - 1;
            var shelf := Ask(world.stringify, Load(log), CallsOf(world, requests[..n])).shelf;
            ReplyTo(world.stringify, shelf, requests[n].message.body, world.clock(2 + n))
            == Answer(Ask(world.stringify, Load(log), CallsOf(world, requests)).shelf, DueTo(world, log, requests, n))
  {
    hide Load, ReplyTo, Expected, Misses, Lookups, Stocked, Filed;
    var n, calls := |requests| - 1, CallsOf(world, requests);
    assert calls[..n] == CallsOf(world, requests[..n]);
    NeverGuesses(world.stringify, log, calls);
  }

  lemma {:induction false} LastServed(world: World, w: Work, r: Request, n: nat, due: Document)
    requires Fits(r, n, due) && w.nextRequestId == 1 + n
    requires ReplyTo(world.stringify, w.shelf, r.message.body, world.clock(2 + n)).reply == due
    ensures var shelf := ReplyTo(world.stringify, w.shelf, r.message.body, world.clock(2 + n)).shelf;
            Fold(Handler(world), On(w), [r.message]) == On(Work(shelf, 2 + n, w.written + ReplyBytes(r, n, due)))
  {
    hide ReplyTo, FitsReply, EncodeReply;
    assert [r.message][1..] == [];
  }

  lemma {:induction false} NothingServed(world: World, log: Log)
    ensures Fold(Handler(world), On(Opening(log)), Messages([])) == On(Opening(log))
    ensures Opening(log) == Work(Ask(world.stringify, Load(log), CallsOf(world, [])).shelf, 1,
                                 Concat(Replies(world, log, [])))
  {
    hide Load;
  }

  // ----- streams of whole messages -----

  /** Every message is read back from its own bytes. */
  ghost predicate AreWritten(messages: seq<Message>, written: seq<Bytes>) {
    |messages| == |written| && forall i | 0 <= i < |messages| :: Inverts(ReadMessage, messages[i], written[i])
  }

  lemma {:induction false} PartNotArrived(m: Message, written: Bytes, k: nat)
    requires Inverts(ReadMessage, m, written) && k < |written|
    ensures !HasArrived(written[..k], 0)
  {
    hide ReadInt32LE, ReadMessage, BodyAt;
    assert Undoes(ReadMessage, m, written, []);
    assert written + [] == written;
    LengthIsSize(written);
    var part := written[..k];
    Bson.FieldsWithin([], part, written[k..], 0);
    assert [] + part + written[k..] == written;
  }

  lemma {:induction false} LengthIsSize(b: Bytes)
    ensures ReadMessage(b).Done? ==> HasArrived(b, 0) && ReadInt32LE(b, 0) == ReadMessage(b).bytes
  {
    hide ReadInt32LE, BodyAt;
  }

  /** However far a stream of whole messages has arrived: some first messages are read, and the next is still coming. */
  lemma {:induction false} PartRead(messages: seq<Message>, written: seq<Bytes>, k: nat) returns (m: nat)
    requires AreWritten(messages, written) && k <= |Concat(written)|
    ensures m <= |messages|
    ensures var p := Parse(ReadMessage, Concat(written)[..k]); p.values == messages[..m] && !HasArrived(p.rest, 0)
    decreases |messages|
  {
    hide ReadMessage, Inverts;
    if messages == [] {
      m := 0;
      NothingRead();
    } else {
      var first, rest := written[0], Concat(written[1..]);
      var part := Concat(written)[..k];
      ReadMessageIsStable();
      if k < |first| {
        m := 0;
        assert part == first[..k];
        PartNotArrived(messages[0], first, k);
        NotArrived(part);
      } else {
        assert part == first + rest[..k - |first|];
        var more := PartRead(messages[1..], written[1..], k - |first|);
        WholeFirst(messages[0], first, rest[..k - |first|]);
        m := more + 1;
        assert messages[..m] == [messages[0]] + messages[1..][..more];
      }
    }
  }

  lemma {:induction false} WholeFirst(m: Message, written: Bytes, more: Bytes)
    requires Inverts(ReadMessage, m, written)
    ensures var p := Parse(ReadMessage, more);
            Parse(ReadMessage, written + more) == Parsed([m] + p.values, p.rest)
  {
    hide ReadMessage;
    assert Undoes(ReadMessage, m, written, more);
    assert (written + more)[|written|..] == more;
  }

  // ----- the server on bytes -----

  function ServedBy(world: World, log: Log, arrived: seq<Bytes>): Lane<Progress> {
    FeedAll(ReadMessage, Handler(world), Lane([], On(Opening(log))), arrived)
  }

  lemma {:induction false} ServedAs(world: World, log: Log, arrived: seq<Bytes>)
    ensures var p := Parse(ReadMessage, Concat(arrived));
            ServedBy(world, log, arrived) == Lane(p.rest, Fold(Handler(world), On(Opening(log)), p.values))
  {
    hide ReadMessage, Opening;
    ReadMessageIsStable();
    NothingRead();
    FeedAnyChunks(ReadMessage, Handler(world), Lane([], On(Opening(log))), arrived);
    assert [] + Concat(arrived) == Concat(arrived);
  }

  lemma {:induction false} RequestsWritten(world: World, log: Log, requests: seq<Request>)
    requires Servable(world, log, requests)
    ensures AreWritten(Messages(requests), Sents(requests))
  {
    hide ReadMessage, Inverts, Fits, DueTo;
  }

  lemma {:induction false} ConcatPart(chunks: seq<Bytes>, n: nat)
    requires n <= |chunks|
    ensures |Concat(chunks[..n])| <= |Concat(chunks)| && Concat(chunks[..n]) == Concat(chunks)[..|Concat(chunks[..n])|]
  {
    ConcatAppend(chunks[..n], chunks[n..]);
    assert chunks == chunks[..n] + chunks[n..];
  }

  /**
   * The server on the bytes of any requests, in any chunks: it never throws, and what it writes is the replies that are
   * due, framed, one after the other.
   */
  lemma {:induction false} ServesBytes(world: World, log: Log, requests: seq<Request>, arrived: seq<Bytes>)
    requires Servable(world, log, requests) && Concat(arrived) == Concat(Sents(requests))
    ensures forall n | 0 <= n <= |arrived| :: EndingAfter(ServedBy(world, log, arrived[..n])) == Returned
    ensures var end := ServedBy(world, log, arrived);
            end.buffered == [] && end.state.On? && end.state.work.written == Concat(Replies(world, log, requests))
  {
    hide ReadMessage, AreWritten, Servable, Fits, Opening, ServedBy, Replies, HasArrived, Handler, DueTo;
    RequestsWritten(world, log, requests);
    var messages, written := Messages(requests), Sents(requests);
    forall n | 0 <= n <= |arrived| ensures EndingAfter(ServedBy(world, log, arrived[..n])) == Returned {
      ConcatPart(arrived, n);
      var m := PartRead(messages, written, |Concat(arrived[..n])|);
      ServedAs(world, log, arrived[..n]);
      ServablePrefix(world, log, requests, m);
      ServesDue(world, log, requests[..m]);
      assert messages[..m] == Messages(requests[..m]);
      assert !HasArrived(ServedBy(world, log, arrived[..n]).buffered, 0);
    }
    WholeStream(messages, written);
    ServedAs(world, log, arrived);
    ServesDue(world, log, requests);
  }

  lemma {:induction false} WholeStream(messages: seq<Message>, written: seq<Bytes>)
    requires AreWritten(messages, written)
    ensures Parse(ReadMessage, Concat(written)) == Parsed(messages, [])
  {
    hide ReadMessage, Inverts;
    assert !ReadMessage([]).Done? by {
      NotArrived([]);
    }
    ParseWritten(ReadMessage, messages, written);
  }

  // ----- recording the replay -----

  /** The requests with the replies that were due, as they come back. */
  function Exchanged(world: World, log: Log, requests: seq<Request>): (all: seq<Interaction>)
    ensures |all| == |requests|
  {
    seq(|requests|, i requires 0 <= i < |requests| =>
      Pair(requests[i].message.body, ReadBack(requests[i].message.opCode, DueTo(world, log, requests, i))))
  }

  /** The streams a run has carried so far are the first parts of two streams of whole messages. */
  ghost predicate Carries(events: seq<Event>, asked: seq<Bytes>, replied: seq<Bytes>) {
    ClientBytes(events) <= Concat(asked) && ServerBytes(events) <= Concat(replied)
  }

  /** Nothing throws while whole messages arrive, in whatever chunks and whatever order of the two sides. */
  lemma {:induction false} CalmRun(events: seq<Event>, requests: seq<Message>, asked: seq<Bytes>,
          replies: seq<Message>, replied: seq<Bytes>)
    requires AreWritten(requests, asked) && AreWritten(replies, replied) && Carries(events, asked, replied)
    ensures Calm(events)
    decreases |events|
  {
    hide ReadMessage, AreWritten, Step, Run, EndingOf;
    if events != [] {
      var before, event := events[..|events| - 1], events[|events| - 1];
      assert ClientBytes(before) <= ClientBytes(events) && ServerBytes(before) <= ServerBytes(events);
      CalmRun(before, requests, asked, replies, replied);
      TraceIsStreams(before);
      CalmEvent(Run(before).state, event, ClientBytes(before), requests, asked, ServerBytes(before), replies, replied);
      forall n | 0 <= n < |events| ensures EndingAt(events, n) == Returned {
        if n < |before| {
          assert events[..n] == before[..n] && EndingAt(before, n) == Returned;
        } else {
          assert events[..n] == before;
        }
      }
    }
  }

  lemma {:induction false} CalmEvent(s: State, event: Event, client: Bytes, requests: seq<Message>, asked: seq<Bytes>,
          server: Bytes, replies: seq<Message>, replied: seq<Bytes>)
    requires AreWritten(requests, asked) && AreWritten(replies, replied)
    requires Parse(ReadMessage, client).rest == s.clientBuffer && Parse(ReadMessage, server).rest == s.serverBuffer
    requires client + (if event.ClientData? then event.chunk else []) <= Concat(asked)
    requires server + (if event.ServerData? then event.chunk else []) <= Concat(replied)
    ensures EndingOf(s, event) == Returned
  {
    hide ReadMessage, AreWritten, HasArrived, Parse;
    match event
    case ClientData(chunk) =>
      var stream := client + chunk;
      assert stream == Concat(asked)[..|stream|];
      var m := PartRead(requests, asked, |stream|);
      StreamGrows(client, chunk);
    case ServerData(chunk) =>
      var stream := server + chunk;
      assert stream == Concat(replied)[..|stream|];
      var m := PartRead(replies, replied, |stream|);
      StreamGrows(server, chunk);
    case Drain =>
  }

  /** No reply completes before the request it answers: at every moment there are at least as many requests. */
  ghost predicate Ordered(trace: seq<Item>) {
    forall n | 0 <= n <= |trace| :: |Sent(trace[..n], false)| <= |Sent(trace[..n], true)|
  }

  /** The k-th reply names the k-th request. */
  predicate Aligned(asked: seq<Message>, replied: seq<Message>) {
    forall i | 0 <= i < |asked| && i < |replied| :: replied[i].responseTo == asked[i].requestId
  }

  function Pairs(asked: seq<Message>, replied: seq<Message>): (pairs: seq<Interaction>)
    requires |replied| <= |asked|
    ensures |pairs| == |replied|
  {
    seq(|replied|, i requires 0 <= i < |replied| => Pair(asked[i].body, replied[i].body))
  }

  ghost predicate HasId(asked: seq<Message>, q: nat, id: int) {
    exists i :: q <= i < |asked| && asked[i].requestId == id
  }

  /** The requests from the `q`-th on are the pending ones, and no two of them share an id. */
  ghost predicate Outstanding(pending: map<int, Document>, asked: seq<Message>, q: nat) {
    && (forall id | id in pending :: HasId(asked, q, id))
    && (forall i | q <= i < |asked| :: asked[i].requestId in pending && pending[asked[i].requestId] == asked[i].body)
    && (forall i, j | q <= i < j < |asked| :: asked[i].requestId != asked[j].requestId)
  }

  lemma {:induction false} OneMore(pending: map<int, Document>, asked: seq<Message>, q: nat, m: Message)
    requires Outstanding(pending, asked, q) && q <= |asked| && m.requestId !in pending
    ensures Outstanding(pending[m.requestId := m.body], asked + [m], q)
  {
    var more, grown := asked + [m], pending[m.requestId := m.body];
    assert more[|asked|] == m;
    forall id | id in grown ensures HasId(more, q, id) {
      if id in pending {
        var i :| q <= i < |asked| && asked[i].requestId == id;
        assert more[i].requestId == id;
      }
    }
  }

  lemma {:induction false} OneLess(pending: map<int, Document>, asked: seq<Message>, q: nat)
    requires Outstanding(pending, asked, q) && q < |asked|
    ensures Outstanding(pending - {asked[q].requestId}, asked, q + 1)
  {
    var left := pending - {asked[q].requestId};
    forall id | id in left ensures HasId(asked, q + 1, id) {
      var i :| q <= i < |asked| && asked[i].requestId == id;
    }
  }

  /** Requests and replies interleaved in any way that is ordered and reuses no waiting id are paired one to one. */
  lemma {:induction false} PairedOneToOne(trace: seq<Item>)
    requires Ordered(trace) && Fresh(trace) && Aligned(Sent(trace, true), Sent(trace, false))
    ensures |Sent(trace, false)| <= |Sent(trace, true)|
    ensures Fold(OnItem, EMPTY, trace).completed == Pairs(Sent(trace, true), Sent(trace, false))
    ensures Outstanding(Fold(OnItem, EMPTY, trace).pending, Sent(trace, true), |Sent(trace, false)|)
    decreases |trace|
  {
    hide Sent, Waiting, Pair, Outstanding;
    assert trace[..|trace|] == trace && |Sent(trace[..|trace|], false)| <= |Sent(trace[..|trace|], true)|;
    if trace == [] {
      NothingRead();
      NothingOutstanding();
    } else {
      var before, last := trace[..|trace| - 1], trace[|trace| - 1];
      assert trace == before + [last];
      FirstPart(before, last);
      SentGrows(before, last);
      var asked, replied := Sent(before, true), Sent(before, false);
      forall i | 0 <= i < |asked| && i < |replied| ensures replied[i].responseTo == asked[i].requestId {
        assert Sent(trace, false)[i] == replied[i] && Sent(trace, true)[i] == asked[i];
      }
      PairedOneToOne(before);
      FoldAppend(OnItem, EMPTY, before, [last]);
      var core := Fold(OnItem, EMPTY, before);
      assert Fold(OnItem, EMPTY, trace) == OnItem(core, last);
      if last.Asked? {
        PairedById(before);
        OneMore(core.pending, asked, |replied|, last.message);
        assert Pairs(asked + [last.message], replied) == Pairs(asked, replied);
      } else {
        assert asked + [] == asked;
        assert Sent(trace, false)[|replied|] == last.message && Sent(trace, true)[|replied|] == asked[|replied|];
        FirstOutstanding(core.pending, asked, |replied|);
        OneLess(core.pending, asked, |replied|);
        assert Pairs(asked, replied + [last.message])
            == Pairs(asked, replied) + [Pair(asked[|replied|].body, last.message.body)];
      }
    }
  }

  lemma {:induction false} NothingOutstanding()
    ensures Outstanding(map[], [], 0)
  {
  }

  lemma {:induction false} FirstOutstanding(pending: map<int, Document>, asked: seq<Message>, q: nat)
    requires Outstanding(pending, asked, q) && q < |asked|
    ensures asked[q].requestId in pending && pending[asked[q].requestId] == asked[q].body
  {
  }

  lemma {:induction false} SentGrows(before: seq<Item>, last: Item)
    ensures Sent(before + [last], true) == Sent(before, true) + (if last.Asked? then [last.message] else [])
    ensures Sent(before + [last], false) == Sent(before, false) + (if last.Replied? then [last.message] else [])
  {
    assert [last][1..] == [];
    assert Sent([last], true) == (if last.Asked? then [last.message] else []);
    assert Sent([last], false) == (if last.Replied? then [last.message] else []);
    hide Sent;
    SentAppend(before, [last], true);
    SentAppend(before, [last], false);
  }

  lemma {:induction false} FirstPart(before: seq<Item>, last: Item)
    requires Ordered(before + [last]) && Fresh(before + [last])
    ensures Ordered(before) && Fresh(before)
    ensures last.Asked? ==> Waiting(before, last.message.requestId).None?
  {
    hide Waiting, Sent;
    var trace := before + [last];
    forall n | 0 <= n <= |before| ensures trace[..n] == before[..n] {
    }
    forall n | 0 <= n <= |before| ensures |Sent(before[..n], false)| <= |Sent(before[..n], true)| {
      assert |Sent(trace[..n], false)| <= |Sent(trace[..n], true)|;
    }
    forall n | 0 <= n < |before| && before[n].Asked? ensures Waiting(before[..n], before[n].message.requestId).None? {
      assert trace[n].Asked?;
    }
    assert trace[|before|] == last && before[..|before|] == before;
  }

  lemma {:induction false} RepliesWritten(world: World, log: Log, requests: seq<Request>)
    requires Servable(world, log, requests)
    ensures AreWritten(Answers(world, log, requests), Replies(world, log, requests))
  {
    hide ReadMessage, Inverts, FitsReply, EncodeReply, DueTo, ReadBack;
    forall i | 0 <= i < |requests|
      ensures Inverts(ReadMessage, Answers(world, log, requests)[i], Replies(world, log, requests)[i])
    {
      var m := requests[i].message;
      ReplyInverts(m.requestId, 2 + i, DueTo(world, log, requests, i), m.opCode);
    }
  }

  lemma {:induction false} ReplyInverts(responseTo: int, id: int, body: Document, opCode: int)
    requires FitsReply(responseTo, id, body, opCode)
    ensures var reply := EncodeReply(responseTo, id, body, opCode);
            Inverts(ReadMessage, Message(id, responseTo, ReplyCode(opCode), ReadBack(opCode, body), |reply|), reply)
  {
    hide ReadMessage, EncodeReply, FitsReply;
    var reply := EncodeReply(responseTo, id, body, opCode);
    var answer := Message(id, responseTo, ReplyCode(opCode), ReadBack(opCode, body), |reply|);
    forall rest ensures Undoes(ReadMessage, answer, reply, rest) {
      ReplyRoundTrip(responseTo, id, body, opCode, rest);
      ReplyTakesBytes(responseTo, id, body, opCode);
    }
  }

  lemma {:induction false} ReplyTakesBytes(responseTo: int, id: int, body: Document, opCode: int)
    requires FitsReply(responseTo, id, body, opCode)
    ensures |EncodeReply(responseTo, id, body, opCode)| > 0
  {
    hide ReplyContent;
  }

  lemma {:induction false} ExchangedPairs(world: World, log: Log, requests: seq<Request>)
    requires Servable(world, log, requests)
    ensures Pairs(Messages(requests), Answers(world, log, requests)) == Exchanged(world, log, requests)
    ensures Aligned(Messages(requests), Answers(world, log, requests))
  {
    hide Pair, Fits, Inverts, DueTo, ReadBack;
  }

  /** Replies are ordered and no waiting id is reused, as the recorder sees the messages complete. */
  ghost predicate Lively(events: seq<Event>) {
    Ordered(Trace(events)) && Fresh(Trace(events))
  }

  /**
   * Recording a session with the replay server. Whatever recording is loaded and whatever is asked, in either form, the
   * server reads the requests in any chunks and the recorder sees both streams in any other chunks, in any interleaving
   * in which no reply completes before its request and no waiting id is reused: nothing throws, and what is recorded is
   * every request with the reply that was due to it.
   */
  lemma {:induction false} Rerecorded(world: World, log: Log, requests: seq<Request>, arrived: seq<Bytes>,
          events: seq<Event>)
    requires Servable(world, log, requests) && Concat(arrived) == Concat(Sents(requests)) == ClientBytes(events)
    requires var end := ServedBy(world, log, arrived);
             end.state.On? ==> ServerBytes(events) == end.state.work.written
    requires Lively(events)
    ensures forall n | 0 <= n <= |arrived| :: EndingAfter(ServedBy(world, log, arrived[..n])) == Returned
    ensures Calm(events) && Recorded(events) == Exchanged(world, log, requests)
    ensures Run(events).state.core.pending == map[]
  {
    hide ReadMessage, AreWritten, ServedBy, Fits, Run, Recorded, Trace, Pairs, Outstanding, Fresh, Ordered, Calm;
    hide DueTo, ReadBack, Inverts;
    ServesBytes(world, log, requests, arrived);
    var replies, written := Answers(world, log, requests), Replies(world, log, requests);
    RequestsWritten(world, log, requests);
    RepliesWritten(world, log, requests);
    CalmRun(events, Messages(requests), Sents(requests), replies, written);
    TraceIsStreams(events);
    WholeStream(Messages(requests), Sents(requests));
    WholeStream(replies, written);
    ExchangedPairs(world, log, requests);
    PairedOneToOne(Trace(events));
    RunFollowsTrace(events);
    NoneOutstanding(Run(events).state.core.pending, Messages(requests));
  }

  lemma {:induction false} NoneOutstanding(pending: map<int, Document>, asked: seq<Message>)
    ensures Outstanding(pending, asked, |asked|) ==> pending == map[]
  {
    if Outstanding(pending, asked, |asked|) {
      assert forall id :: id !in pending;
    }
  }

  // ----- such sessions exist -----

  /** A pipelining client: all requests, then all replies. */
  function Pipeline(asked: Bytes, replied: Bytes): seq<Event> {
    [ClientData(asked), ServerData(replied)]
  }

  lemma {:induction false} PipelineTrace(requests: seq<Message>, asked: seq<Bytes>, replies: seq<Message>,
          replied: seq<Bytes>)
    requires AreWritten(requests, asked) && AreWritten(replies, replied)
    ensures var events := Pipeline(Concat(asked), Concat(replied));
            && ClientBytes(events) == Concat(asked) && ServerBytes(events) == Concat(replied)
            && Trace(events) == AllAsked(requests) + AllReplied(replies)
  {
    hide ReadMessage, AreWritten, ThrowsAt, MalformedAt;
    var events := Pipeline(Concat(asked), Concat(replied));
    WholeStream(requests, asked);
    WholeStream(replies, replied);
    assert events[..1] == [ClientData(Concat(asked))] && events[..1][..0] == [];
    assert [] + Concat(asked) == Concat(asked) && [] + Concat(replied) == Concat(replied);
    assert Concat(asked) + [] == Concat(asked);
    assert Trace(events[..1]) == [] + AllAsked(requests) == AllAsked(requests);
    assert Run(events[..1]).state.serverBuffer == [];
  }

  lemma {:induction false} PipelineLively(requests: seq<Message>, replies: seq<Message>)
    requires |replies| == |requests|
    requires forall i, j | 0 <= i < j < |requests| :: requests[i].requestId != requests[j].requestId
    ensures Ordered(AllAsked(requests) + AllReplied(replies)) && Fresh(AllAsked(requests) + AllReplied(replies))
  {
    hide Sent, Waiting;
    var n := |requests|;
    var trace := AllAsked(requests) + AllReplied(replies);
    forall m | 0 <= m <= |trace| ensures |Sent(trace[..m], false)| <= |Sent(trace[..m], true)| {
      var k := if m < n then m else n;
      assert trace[..m] == AllAsked(requests[..k]) + AllReplied(replies[..m - k]);
      SentAppend(AllAsked(requests[..k]), AllReplied(replies[..m - k]), true);
      SentAppend(AllAsked(requests[..k]), AllReplied(replies[..m - k]), false);
      SentAll(requests[..k]);
      SentAll(replies[..m - k]);
    }
    forall m | 0 <= m < |trace| && trace[m].Asked? ensures Waiting(trace[..m], trace[m].message.requestId).None? {
      var at := Waiting(trace[..m], trace[m].message.requestId);
    }
  }

  /** Any servable requests under different ids can be asked in such a session. */
  lemma {:induction false} SessionExists(world: World, log: Log, requests: seq<Request>)
    requires Servable(world, log, requests)
    requires forall i, j | 0 <= i < j < |requests| :: requests[i].message.requestId != requests[j].message.requestId
    ensures var events := Pipeline(Concat(Sents(requests)), Concat(Replies(world, log, requests)));
            Lively(events) && Calm(events) && Recorded(events) == Exchanged(world, log, requests)
  {
    hide ReadMessage, AreWritten, ServedBy, Fits, Run, Recorded, Trace, Fresh, Ordered, Calm, Inverts, DueTo;
    var sents, replies := Sents(requests), Replies(world, log, requests);
    var answers := Answers(world, log, requests);
    RequestsWritten(world, log, requests);
    RepliesWritten(world, log, requests);
    PipelineTrace(Messages(requests), sents, answers, replies);
    PipelineLively(Messages(requests), answers);
    assert Concat([Concat(sents)]) == Concat(sents) by {
      assert [Concat(sents)][1..] == [] && Concat(sents) + [] == Concat(sents);
    }
    ServesBytes(world, log, requests, [Concat(sents)]);
    Rerecorded(world, log, requests, [Concat(sents)], Pipeline(Concat(sents), Concat(replies)));
  }
}
