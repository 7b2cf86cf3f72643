/**
 * Pairing MongoDB commands with their replies: `MongoRecorder` of src/record/protocols/mongoRecorder.ts.
 *
 * Every reply names the request it answers, so pairing goes by id. The laws are about whole runs: any interleaving of
 * client chunks, server chunks and drains.
 */
module MongoRecorders {
  import opened Wire
  import opened Streams
  import opened Documents
  import opened MongoMessages
  import Bson

  datatype Interaction = Interaction(command: Text, document: Document, response: Document)

  datatype Core = Core(pending: map<int, Document>, completed: seq<Interaction>)

  const EMPTY := Core(map[], [])

  /** The command name is the first key of a command document. */
  function CommandNameOf(body: Document): Text {
    if body == [] then [] else body[0].key
  }

  function Pair(request: Document, response: Document): Interaction {
    Interaction(CommandNameOf(request), request, response)
  }

  function OnRequest(core: Core, m: Message): Core {
    core.(pending := core.pending[m.requestId := m.body])
  }

  function OnReply(core: Core, m: Message): Core {
    if m.responseTo !in core.pending then core
    else Core(core.pending - {m.responseTo}, core.completed + [Pair(core.pending[m.responseTo], m.body)])
  }

  datatype State = State(clientBuffer: Bytes, serverBuffer: Bytes, core: Core)

  const INITIAL := State([], [], EMPTY)

  datatype Event = ClientData(chunk: Bytes) | ServerData(chunk: Bytes) | Drain

  /** How a handler ends: it returns, it throws, or it met bytes whose reading is not modelled. */
  datatype Ending = Returned | Threw | Unmodelled

  datatype Consumed = Consumed(buffered: Bytes, core: Core, ending: Ending)

  /**
   * One chunk on one side. Every whole message before one that throws is handled; but the buffer is assigned only when
   * reading has ended, so a throw leaves the bytes buffered before, and the chunk is lost.
   */
  function Consume(step: (Core, Message) -> Core, core: Core, buffered: Bytes, chunk: Bytes): Consumed {
    var lane := Feed(ReadMessage, step, Lane(buffered, core), chunk);
    if ThrowsAt(lane.buffered, 0) then Consumed(buffered, lane.state, Threw)
    else Consumed(lane.buffered, lane.state, if MalformedAt(lane.buffered, 0) then Unmodelled else Returned)
  }

  function Step(s: State, event: Event): State {
    match event
    case ClientData(chunk) =>
      var t := Consume(OnRequest, s.core, s.clientBuffer, chunk);
      State(t.buffered, s.serverBuffer, t.core)
    case ServerData(chunk) =>
      var t := Consume(OnReply, s.core, s.serverBuffer, chunk);
      State(s.clientBuffer, t.buffered, t.core)
    case Drain => s.(core := s.core.(completed := []))
  }

  function EndingOf(s: State, event: Event): Ending {
    match event
    case ClientData(chunk) => Consume(OnRequest, s.core, s.clientBuffer, chunk).ending
    case ServerData(chunk) => Consume(OnReply, s.core, s.serverBuffer, chunk).ending
    case Drain => Returned
  }

  class MongoRecorder {
    var clientBuffer: Bytes
    var serverBuffer: Bytes
    var pending: map<int, Document>
    var completed: seq<Interaction>

    function Now(): State
      reads this
    {
      State(clientBuffer, serverBuffer, Core(pending, completed))
    }

    constructor ()
      ensures Now() == INITIAL
    {
      clientBuffer, serverBuffer, pending, completed := [], [], map[], [];
    }

    method OnClientData(chunk: Bytes) returns (ending: Ending)
      modifies this
      ensures ending == EndingOf(old(Now()), ClientData(chunk))
      ensures ending != Unmodelled ==> Now() == Step(old(Now()), ClientData(chunk))
    {
      hide ReadMessageAt, ThrowsAt, MalformedAt, Finish;
      var buffer := clientBuffer + chunk;
      var offset := 0;
      ghost var end := Finish(ReadMessage, OnRequest, Core(pending, completed), buffer);
      assert buffer[0..] == buffer;
      while true
        invariant offset <= |buffer| && serverBuffer == old(serverBuffer) && clientBuffer == old(clientBuffer)
        invariant Finish(ReadMessage, OnRequest, Core(pending, completed), buffer[offset..]) == end
        decreases |buffer| - offset
      {
        MessageAtOffset(buffer, offset);
        FinishStep(ReadMessage, OnRequest, Core(pending, completed), buffer[offset..]);
        var message := ReadMessageAt(buffer, offset);
        if !message.Done? {
          break;
        }
        pending := pending[message.value.requestId := message.value.body];
        assert buffer[offset..][message.bytes..] == buffer[offset + message.bytes..];
        offset := offset + message.bytes;
      }
      if ThrowsAt(buffer, offset) {
        return Threw;
      }
      if MalformedAt(buffer, offset) {
        return Unmodelled;
      }
      clientBuffer := buffer[offset..];
      return Returned;
    }

    method OnServerData(chunk: Bytes) returns (ending: Ending)
      modifies this
      ensures ending == EndingOf(old(Now()), ServerData(chunk))
      ensures ending != Unmodelled ==> Now() == Step(old(Now()), ServerData(chunk))
    {
      hide ReadMessageAt, ThrowsAt, MalformedAt, Finish, CommandNameOf;
      var buffer := serverBuffer + chunk;
      var offset := 0;
      ghost var end := Finish(ReadMessage, OnReply, Core(pending, completed), buffer);
      assert buffer[0..] == buffer;
      while true
        invariant offset <= |buffer| && serverBuffer == old(serverBuffer) && clientBuffer == old(clientBuffer)
        invariant Finish(ReadMessage, OnReply, Core(pending, completed), buffer[offset..]) == end
        decreases |buffer| - offset
      {
        MessageAtOffset(buffer, offset);
        FinishStep(ReadMessage, OnReply, Core(pending, completed), buffer[offset..]);
        var message := ReadMessageAt(buffer, offset);
        if !message.Done? {
          break;
        }
        var id := message.value.responseTo;
        if id in pending {
          var awaiting := pending[id];
          pending := pending - {id};
          completed := completed + [Pair(awaiting, message.value.body)];
        }
        assert buffer[offset..][message.bytes..] == buffer[offset + message.bytes..];
        offset := offset + message.bytes;
      }
      if ThrowsAt(buffer, offset) {
        return Threw;
      }
      if MalformedAt(buffer, offset) {
        return Unmodelled;
      }
      serverBuffer := buffer[offset..];
      return Returned;
    }

    method DrainCompleted() returns (done: seq<Interaction>)
      modifies this
      ensures done == old(completed) && Now() == Step(old(Now()), Drain)
    {
      done := completed;
      completed := [];
    }
  }

  // ----- where the chunks are cut -----

  lemma {:induction false} ConsumeSplit(step: (Core, Message) -> Core, core: Core, buffered: Bytes, a: Bytes, b: Bytes)
    requires Consume(step, core, buffered, a).ending == Returned
    ensures var whole, first := Consume(step, core, buffered, a + b), Consume(step, core, buffered, a);
            var second := Consume(step, first.core, first.buffered, b);
            && whole.ending == second.ending && whole.core == second.core
            && whole.buffered == (if whole.ending == Threw then buffered else second.buffered)
            && (whole.ending == Threw ==> second.buffered == first.buffered)
  {
    hide ReadMessage, ThrowsAt, MalformedAt, Finish;
    ReadMessageIsStable();
    FeedSplit(ReadMessage, step, Lane(buffered, core), a, b);
  }

  predicate LeaveAlike(t: Consumed, u: Consumed) {
    t.buffered == u.buffered && t.core == u.core
  }

  /** Reading `chunk` behind the bytes `rest`; a throw leaves the bytes `buffered`. */
  function ConsumeBehind(step: (Core, Message) -> Core, core: Core, rest: Bytes, chunk: Bytes, buffered: Bytes)
    : Consumed
  {
    var t := Consume(step, core, rest, chunk);
    if t.ending == Threw then t.(buffered := buffered) else t
  }

  /** If `a` throws, `a + b` ends as reading `b` behind all that `a` left unread would. */
  lemma {:induction false} ConsumeThrown(step: (Core, Message) -> Core, core: Core, buffered: Bytes, a: Bytes, b: Bytes)
    requires Consume(step, core, buffered, a).ending == Threw
    ensures var first, rest := Consume(step, core, buffered, a), Parse(ReadMessage, buffered + a).rest;
            && Consume(step, core, buffered, a + b) == ConsumeBehind(step, first.core, rest, b, buffered)
            && (ThrowsAt(rest + b, 0) ==> Consume(step, core, buffered, a + b) == first)
  {
    hide ReadMessageAt, ThrowsAt, MalformedAt;
    ReadMessageIsStable();
    FeedSplit(ReadMessage, step, Lane(buffered, core), a, b);
    var rest := Parse(ReadMessage, buffered + a).rest;
    if ThrowsAt(rest + b, 0) {
      ThrownIsNotRead(rest + b);
    }
  }

  lemma {:induction false} ThrownIsNotRead(b: Bytes)
    requires ThrowsAt(b, 0)
    ensures ReadMessage(b) == Foreign
  {
  }

  /**
   * Delivering `a + b` in one event or in two.
   *
   * When `a` is read without a throw, both leave the same buffers, the same pending map and the same interactions,
   * unless reading `a + b` throws; then they do so exactly when `a` added nothing to the buffer: a throw loses the
   * chunk it is in, and where the stream is cut decides how much that is.
   *
   * When `a` throws, the two events read `b` behind what was buffered before, and the one event reads it behind all
   * that `a` left unread. They agree exactly when that makes no difference. If the message still throws with `b` behind
   * it, the one event leaves what `a` leaves, and `b` is lost.
   */
  lemma {:induction false} ChunksMerge(s: State, a: Bytes, b: Bytes)
    ensures EndingOf(s, ClientData(a)) == Returned && EndingOf(s, ClientData(a + b)) != Unmodelled ==>
              var first := Step(s, ClientData(a));
              (Step(s, ClientData(a + b)) == Step(first, ClientData(b))
               <==> EndingOf(s, ClientData(a + b)) != Threw || first.clientBuffer == s.clientBuffer)
    ensures EndingOf(s, ServerData(a)) == Returned && EndingOf(s, ServerData(a + b)) != Unmodelled ==>
              var first := Step(s, ServerData(a));
              (Step(s, ServerData(a + b)) == Step(first, ServerData(b))
               <==> EndingOf(s, ServerData(a + b)) != Threw || first.serverBuffer == s.serverBuffer)
    ensures EndingOf(s, ClientData(a)) == Threw ==>
              var first, rest := Step(s, ClientData(a)), Parse(ReadMessage, s.clientBuffer + a).rest;
              && first.clientBuffer == s.clientBuffer
              && (Step(s, ClientData(a + b)) == Step(first, ClientData(b))
                  <==> LeaveAlike(ConsumeBehind(OnRequest, first.core, rest, b, s.clientBuffer),
                                  Consume(OnRequest, first.core, s.clientBuffer, b)))
              && (ThrowsAt(rest + b, 0) ==> Step(s, ClientData(a + b)) == first)
    ensures EndingOf(s, ServerData(a)) == Threw ==>
              var first, rest := Step(s, ServerData(a)), Parse(ReadMessage, s.serverBuffer + a).rest;
              && first.serverBuffer == s.serverBuffer
              && (Step(s, ServerData(a + b)) == Step(first, ServerData(b))
                  <==> LeaveAlike(ConsumeBehind(OnReply, first.core, rest, b, s.serverBuffer),
                                  Consume(OnReply, first.core, s.serverBuffer, b)))
              && (ThrowsAt(rest + b, 0) ==> Step(s, ServerData(a + b)) == first)
  {
    hide Consume, ConsumeBehind, ReadMessage, ThrowsAt;
    ThrowKeepsBuffer(OnRequest, s.core, s.clientBuffer, a);
    ThrowKeepsBuffer(OnReply, s.core, s.serverBuffer, a);
    if EndingOf(s, ClientData(a)) == Returned {
      ConsumeSplit(OnRequest, s.core, s.clientBuffer, a, b);
    } else if EndingOf(s, ClientData(a)) == Threw {
      ConsumeThrown(OnRequest, s.core, s.clientBuffer, a, b);
    }
    if EndingOf(s, ServerData(a)) == Returned {
      ConsumeSplit(OnReply, s.core, s.serverBuffer, a, b);
    } else if EndingOf(s, ServerData(a)) == Threw {
      ConsumeThrown(OnReply, s.core, s.serverBuffer, a, b);
    }
  }

  lemma {:induction false} ThrowKeepsBuffer(step: (Core, Message) -> Core, core: Core, buffered: Bytes, chunk: Bytes)
    ensures var t := Consume(step, core, buffered, chunk); t.ending == Threw ==> t.buffered == buffered
  {
    hide ReadMessage, ThrowsAt, MalformedAt;
  }

  /** An OP_MSG whose document holds an element of the unknown type 0x7f. */
  const UNREADABLE: Bytes := [29, 0, 0, 0, 7, 0, 0, 0, 0, 0, 0, 0, 221, 7, 0, 0, 0, 0, 0, 0, 0,
                              8, 0, 0, 0, 0x7f, 97, 0, 0]

  /** It throws whatever comes behind it. */
  lemma {:induction false} UnreadableThrows(more: Bytes)
    ensures ThrowsAt(UNREADABLE + more, 0) && ReadMessage(UNREADABLE + more) == Foreign
  {
    var b := UNREADABLE + more;
    assert b[..29] == UNREADABLE;
    assert ReadInt32LE(b, 0) == 29 && ReadInt32LE(b, 12) == OP_MSG;
    assert Bson.ReadDocument(b, 21) == Bson.Throws by {
      UnknownElement(more);
    }
    assert ReadSingle(b, 21, []) == Bson.Throws;
    assert ReadSections(b, 20, 29, []) == Bson.Throws;
  }

  lemma {:induction false} UnknownElement(more: Bytes)
    ensures Bson.ReadDocument(UNREADABLE + more, 21) == Bson.Throws
  {
    var b := UNREADABLE + more;
    assert b[..29] == UNREADABLE;
    assert ReadInt32LE(b, 21) == 8;
    assert ZeroAt(b, 26) == Some(27);
    assert Bson.ReadElement(b, 0x7f, 28) == Bson.Throws;
  }

  /**
   * The cut decides. Whole, the unreadable message is lost and the recorder goes on as if it had not been sent. Cut
   * after ten bytes, those ten stay in front of whatever comes next.
   */
  lemma {:induction false} CutDecides()
    ensures var cut := Step(INITIAL, ClientData(UNREADABLE[..10]));
            && Step(INITIAL, ClientData(UNREADABLE)) == INITIAL
            && EndingOf(INITIAL, ClientData(UNREADABLE[..10])) == Returned
            && Step(cut, ClientData(UNREADABLE[10..])) == INITIAL.(clientBuffer := UNREADABLE[..10])
  {
    hide Consume, ThrowsAt, OnRequest;
    UnreadableThrows([]);
    assert UNREADABLE + [] == UNREADABLE;
    ThrownAlone(UNREADABLE);
    StaysBuffered(UNREADABLE[..10]);
    assert UNREADABLE[..10] + UNREADABLE[10..] == [] + UNREADABLE == UNREADABLE;
    ThrownBehind(UNREADABLE[..10], UNREADABLE[10..]);
  }

  lemma {:induction false} StaysBuffered(b: Bytes)
    requires !HasArrived(b, 0)
    ensures Consume(OnRequest, EMPTY, [], b) == Consumed(b, EMPTY, Returned)
  {
    hide ThrowsAt, MalformedAt, ReadMessageAt, OnRequest;
    NotArrived(b);
    assert [] + b == b && Parse(ReadMessage, b) == Parsed([], b);
    assert Fold(OnRequest, EMPTY, []) == EMPTY;
  }

  lemma {:induction false} ThrownBehind(buffered: Bytes, b: Bytes)
    requires ThrowsAt(buffered + b, 0)
    ensures Consume(OnRequest, EMPTY, buffered, b) == Consumed(buffered, EMPTY, Threw)
  {
    hide ThrowsAt, MalformedAt, OnRequest, ReadMessageAt;
    ThrownIsNotRead(buffered + b);
    assert Parse(ReadMessage, buffered + b) == Parsed([], buffered + b);
    assert Fold(OnRequest, EMPTY, []) == EMPTY;
  }

  /** A message that is a header alone, under the id 9. */
  const HEADER_ONLY: Bytes := [16, 0, 0, 0, 9, 0, 0, 0, 0, 0, 0, 0, 1, 0, 0, 0]

  /** In one chunk with the unreadable message before it, a request is lost; in a chunk of its own it is pending. */
  lemma {:induction false} LostBehindThrow()
    ensures var first := Step(INITIAL, ClientData(UNREADABLE));
            && EndingOf(INITIAL, ClientData(UNREADABLE)) == Threw
            && EndingOf(INITIAL, ClientData(UNREADABLE + HEADER_ONLY)) == Threw
            && Step(INITIAL, ClientData(UNREADABLE + HEADER_ONLY)) == INITIAL
            && Step(first, ClientData(HEADER_ONLY)) == INITIAL.(core := Core(map[9 := []], []))
  {
    hide Consume, ThrowsAt, OnRequest;
    UnreadableThrows([]);
    UnreadableThrows(HEADER_ONLY);
    assert UNREADABLE + [] == UNREADABLE;
    ThrownAlone(UNREADABLE);
    ThrownAlone(UNREADABLE + HEADER_ONLY);
    HeaderIsPending();
  }

  lemma {:induction false} ThrownAlone(b: Bytes)
    requires ThrowsAt(b, 0)
    ensures Consume(OnRequest, EMPTY, [], b) == Consumed([], EMPTY, Threw)
  {
    hide ThrowsAt, Consume;
    assert [] + b == b;
    ThrownBehind([], b);
  }

  lemma {:induction false} HeaderIsPending()
    ensures Consume(OnRequest, EMPTY, [], HEADER_ONLY) == Consumed([], Core(map[9 := []], []), Returned)
  {
    hide ThrowsAt, MalformedAt, ReadMessageAt;
    var m := Message(9, 0, 1, [], 16);
    HeaderIsRead();
    NotArrived([]);
    assert [] + HEADER_ONLY == HEADER_ONLY && HEADER_ONLY[16..] == [];
    assert Parse(ReadMessage, HEADER_ONLY) == Parsed([m], []);
    assert Fold(OnRequest, EMPTY, [m]) == OnRequest(EMPTY, m) by {
      assert [m][1..] == [];
    }
  }

  /** An OP_MSG that ends before its flags, and four bytes more. */
  const SHORT: Bytes := [16, 0, 0, 0, 9, 0, 0, 0, 0, 0, 0, 0, 221, 7, 0, 0]
  const FLAGS: Bytes := [0, 0, 0, 0]

  lemma {:induction false} ShortFields(more: Bytes)
    ensures var b := SHORT + more;
            && ReadInt32LE(b, 0) == 16 && ReadInt32LE(b, 4) == 9 && ReadInt32LE(b, 8) == 0
            && ReadInt32LE(b, 12) == OP_MSG
  {
    var b := SHORT + more;
    assert b[..16] == SHORT;
  }

  lemma {:induction false} ShortIsRead()
    ensures ThrowsAt(SHORT, 0) && ReadMessage(SHORT + FLAGS) == Done(Message(9, 0, OP_MSG, [], 16), 16)
  {
    hide ReadInt32LE;
    ShortFields([]);
    ShortFields(FLAGS);
    assert SHORT + [] == SHORT;
    var b := SHORT + FLAGS;
    assert |b| == 20 && b[16] == 0;
    assert ReadSections(b, 20, 16, []) == Bson.Got([]);
    hide ReadSections;
    assert ReadOpMsg(b, 0, 16) == Bson.Got([]);
  }

  /** Bytes past the end of a message decide whether it throws: with them in its chunk it is read, alone it is lost. */
  lemma {:induction false} LateBytesDecide()
    ensures Step(INITIAL, ClientData(SHORT + FLAGS)) == State(FLAGS, [], Core(map[9 := []], []))
    ensures EndingOf(INITIAL, ClientData(SHORT)) == Threw
    ensures Step(Step(INITIAL, ClientData(SHORT)), ClientData(FLAGS)) == State(FLAGS, [], EMPTY)
  {
    hide Consume, ThrowsAt, OnRequest;
    ShortIsRead();
    ThrownAlone(SHORT);
    ShortIsPending();
    StaysBuffered(FLAGS);
  }

  lemma {:induction false} ShortIsPending()
    ensures Consume(OnRequest, EMPTY, [], SHORT + FLAGS) == Consumed(FLAGS, Core(map[9 := []], []), Returned)
  {
    hide ThrowsAt, MalformedAt, ReadMessageAt;
    var b, m := SHORT + FLAGS, Message(9, 0, OP_MSG, [], 16);
    ShortIsRead();
    NotArrived(FLAGS);
    assert [] + b == b && b[16..] == FLAGS;
    assert Parse(ReadMessage, FLAGS) == Parsed([], FLAGS);
    assert Parse(ReadMessage, b) == Parsed([m], FLAGS);
    assert Fold(OnRequest, EMPTY, [m]) == OnRequest(EMPTY, m) by {
      assert [m][1..] == [];
    }
  }

  lemma {:induction false} HeaderIsRead()
    ensures ReadMessage(HEADER_ONLY) == Done(Message(9, 0, 1, [], 16), 16)
  {
    assert ReadInt32LE(HEADER_ONLY, 0) == 16 && ReadInt32LE(HEADER_ONLY, 12) == 1;
  }

  lemma {:induction false} NotArrived(b: Bytes)
    requires !HasArrived(b, 0)
    ensures ReadMessage(b) == Partial && !ThrowsAt(b, 0) && !MalformedAt(b, 0)
  {
  }

  // ----- the messages of a run -----

  /** A message as it completes on either side. */
  datatype Item = Asked(message: Message) | Replied(message: Message)

  function OnItem(core: Core, item: Item): Core {
    if item.Asked? then OnRequest(core, item.message) else OnReply(core, item.message)
  }

  function AllAsked(messages: seq<Message>): (items: seq<Item>)
    ensures |items| == |messages|
  {
    seq(|messages|, i requires 0 <= i < |messages| => Asked(messages[i]))
  }

  function AllReplied(messages: seq<Message>): (items: seq<Item>)
    ensures |items| == |messages|
  {
    seq(|messages|, i requires 0 <= i < |messages| => Replied(messages[i]))
  }

  datatype Ran = Ran(state: State, drained: seq<Interaction>)

  function Run(events: seq<Event>): Ran {
    if events == [] then Ran(INITIAL, [])
    else
      var r := Run(events[..|events| - 1]);
      var event := events[|events| - 1];
      Ran(Step(r.state, event), r.drained + (if event.Drain? then r.state.core.completed else []))
  }

  /** No event of the run met bytes whose reading is not modelled. */
  ghost predicate Modelled(events: seq<Event>) {
    forall n | 0 <= n < |events| :: EndingAt(events, n) != Unmodelled
  }

  /** No event of the run threw, nor met such bytes. */
  ghost predicate Calm(events: seq<Event>) {
    forall n | 0 <= n < |events| :: EndingAt(events, n) == Returned
  }

  function EndingAt(events: seq<Event>, n: nat): Ending
    requires n < |events|
  {
    EndingOf(Run(events[..n]).state, events[n])
  }

  function Recorded(events: seq<Event>): seq<Interaction> {
    Run(events).drained + Run(events).state.core.completed
  }

  function NewItems(s: State, event: Event): seq<Item> {
    match event
    case ClientData(chunk) => AllAsked(Parse(ReadMessage, s.clientBuffer + chunk).values)
    case ServerData(chunk) => AllReplied(Parse(ReadMessage, s.serverBuffer + chunk).values)
    case Drain => []
  }

  /** Every message of the run, in the order the recorder completed them. */
  function Trace(events: seq<Event>): seq<Item> {
    if events == [] then []
    else
      var before := events[..|events| - 1];
      Trace(before) + NewItems(Run(before).state, events[|events| - 1])
  }

  lemma {:induction false} FoldAsked(core: Core, messages: seq<Message>)
    ensures Fold(OnRequest, core, messages) == Fold(OnItem, core, AllAsked(messages))
    decreases |messages|
  {
    hide OnRequest;
    if messages != [] {
      FoldAsked(OnRequest(core, messages[0]), messages[1..]);
      assert AllAsked(messages)[1..] == AllAsked(messages[1..]);
    }
  }

  lemma {:induction false} FoldReplied(core: Core, messages: seq<Message>)
    ensures Fold(OnReply, core, messages) == Fold(OnItem, core, AllReplied(messages))
    decreases |messages|
  {
    hide OnReply;
    if messages != [] {
      FoldReplied(OnReply(core, messages[0]), messages[1..]);
      assert AllReplied(messages)[1..] == AllReplied(messages[1..]);
    }
  }

  /** Interactions that were completed, or drained, before do not matter to what comes next. */
  lemma {:induction false} Forgetful(core: Core, done: seq<Interaction>, items: seq<Item>)
    ensures var end := Fold(OnItem, core, items);
            Fold(OnItem, core.(completed := done + core.completed), items) == end.(completed := done + end.completed)
    decreases |items|
  {
    hide Pair;
    if items != [] {
      var next := OnItem(core, items[0]);
      assert OnItem(core.(completed := done + core.completed), items[0]) == next.(completed := done + next.completed);
      Forgetful(next, done, items[1..]);
    }
  }

  /** One event leaves the core its messages lead to, whether it returns or throws. */
  lemma {:induction false} StepFollows(s: State, event: Event)
    ensures var next := Step(s, event).core;
            if event.Drain? then next == s.core.(completed := []) else next == Fold(OnItem, s.core, NewItems(s, event))
  {
    hide OnItem, OnRequest, OnReply, ReadMessage, Parse, ThrowsAt, MalformedAt;
    match event
    case ClientData(chunk) => FoldAsked(s.core, Parse(ReadMessage, s.clientBuffer + chunk).values);
    case ServerData(chunk) => FoldReplied(s.core, Parse(ReadMessage, s.serverBuffer + chunk).values);
    case Drain =>
  }

  /**
   * A run leaves the pending map, and has recorded the interactions, that its messages call for one after the other.
   */
  lemma {:induction false} RunFollowsTrace(events: seq<Event>)
    ensures Fold(OnItem, EMPTY, Trace(events)) == Core(Run(events).state.core.pending, Recorded(events))
    decreases |events|
  {
    hide OnItem, Step, NewItems;
    if events != [] {
      var before, event := events[..|events| - 1], events[|events| - 1];
      RunFollowsTrace(before);
      var r, items := Run(before), NewItems(Run(before).state, event);
      StepFollows(r.state, event);
      FoldAppend(OnItem, EMPTY, Trace(before), items);
      Forgetful(r.state.core, r.drained, items);
      if event.Drain? {
        NoNewItems(r.state, event);
        assert r.drained + r.state.core.completed + [] == Recorded(events);
      }
    }
  }

  lemma {:induction false} NoNewItems(s: State, event: Event)
    requires event.Drain?
    ensures NewItems(s, event) == []
  {
  }

  /** The messages of one side: the client's requests, or the server's replies. */
  function Sent(trace: seq<Item>, asked: bool): seq<Message> {
    if trace == [] then []
    else (if trace[0].Asked? == asked then [trace[0].message] else []) + Sent(trace[1..], asked)
  }

  lemma {:induction false} SentAppend(xs: seq<Item>, ys: seq<Item>, asked: bool)
    ensures Sent(xs + ys, asked) == Sent(xs, asked) + Sent(ys, asked)
    decreases |xs|
  {
    if xs == [] {
      assert xs + ys == ys;
    } else {
      assert (xs + ys)[1..] == xs[1..] + ys && (xs + ys)[0] == xs[0];
      SentAppend(xs[1..], ys, asked);
      var head := if xs[0].Asked? == asked then [xs[0].message] else [];
      assert Sent(xs + ys, asked) == head + (Sent(xs[1..], asked) + Sent(ys, asked));
      assert Sent(xs, asked) == head + Sent(xs[1..], asked);
    }
  }

  lemma {:induction false} SentAll(messages: seq<Message>)
    ensures Sent(AllAsked(messages), true) == messages && Sent(AllAsked(messages), false) == []
    ensures Sent(AllReplied(messages), false) == messages && Sent(AllReplied(messages), true) == []
    decreases |messages|
  {
    if messages != [] {
      SentAll(messages[1..]);
      assert AllAsked(messages)[1..] == AllAsked(messages[1..]);
      assert AllReplied(messages)[1..] == AllReplied(messages[1..]);
    }
  }

  function ClientBytes(events: seq<Event>): Bytes {
    if events == [] then []
    else
      var event := events[|events| - 1];
      ClientBytes(events[..|events| - 1]) + (if event.ClientData? then event.chunk else [])
  }

  function ServerBytes(events: seq<Event>): Bytes {
    if events == [] then []
    else
      var event := events[|events| - 1];
      ServerBytes(events[..|events| - 1]) + (if event.ServerData? then event.chunk else [])
  }

  lemma {:induction false} CalmBefore(events: seq<Event>)
    requires events != [] && Calm(events)
    ensures Calm(events[..|events| - 1])
    ensures EndingOf(Run(events[..|events| - 1]).state, events[|events| - 1]) == Returned
  {
    hide Run, EndingOf;
    var before := events[..|events| - 1];
    forall n | 0 <= n < |before| ensures EndingAt(before, n) == Returned {
      assert before[..n] == events[..n] && EndingAt(events, n) == Returned;
    }
    assert EndingAt(events, |before|) == Returned;
  }

  /**
   * The messages of a run in which nothing throws are those of its two byte streams read as a whole, and the buffers
   * hold what is left.
   */
  lemma {:induction false} TraceIsStreams(events: seq<Event>)
    requires Calm(events)
    ensures Parse(ReadMessage, ClientBytes(events))
            == Parsed(Sent(Trace(events), true), Run(events).state.clientBuffer)
    ensures Parse(ReadMessage, ServerBytes(events))
            == Parsed(Sent(Trace(events), false), Run(events).state.serverBuffer)
    decreases |events|
  {
    hide ReadMessage, OnRequest, OnReply, Parse, Sent, Fold, Calm, ThrowsAt, MalformedAt;
    if events == [] {
      NothingRead();
    } else {
      var before, event := events[..|events| - 1], events[|events| - 1];
      CalmBefore(events);
      TraceIsStreams(before);
      var s := Run(before).state;
      StreamGrows(ClientBytes(before), if event.ClientData? then event.chunk else []);
      StreamGrows(ServerBytes(before), if event.ServerData? then event.chunk else []);
      SentAppend(Trace(before), NewItems(s, event), true);
      SentAppend(Trace(before), NewItems(s, event), false);
      match event
      case ClientData(chunk) => SentAll(Parse(ReadMessage, s.clientBuffer + chunk).values);
      case ServerData(chunk) => SentAll(Parse(ReadMessage, s.serverBuffer + chunk).values);
      case Drain => NothingRead();
    }
  }

  lemma {:induction false} NothingRead()
    ensures Parse(ReadMessage, []) == Parsed([], [])
    ensures Sent([], true) == [] && Sent([], false) == []
  {
  }

  lemma {:induction false} StreamGrows(stream: Bytes, chunk: Bytes)
    ensures var p := Parse(ReadMessage, stream);
            && Parse(ReadMessage, stream + chunk)
               == Parsed(p.values + Parse(ReadMessage, p.rest + chunk).values, Parse(ReadMessage, p.rest + chunk).rest)
            && (chunk == [] ==> Parse(ReadMessage, stream + chunk) == p)
  {
    hide ReadMessage, Parse;
    ReadMessageIsStable();
    ParseSplit(ReadMessage, stream, chunk);
    if chunk == [] {
      assert stream + [] == stream;
    }
  }

  // ----- pairing by id -----

  predicate Asks(item: Item, id: int) {
    item.Asked? && item.message.requestId == id
  }

  predicate Answers(item: Item, id: int) {
    item.Replied? && item.message.responseTo == id
  }

  ghost predicate AnsweredAfter(trace: seq<Item>, i: nat, id: int) {
    exists k :: i < k < |trace| && Answers(trace[k], id)
  }

  /** The request with this id that still waits at the end of the trace. */
  function Waiting(trace: seq<Item>, id: int): (at: Option<nat>)
    ensures at.Some? ==> at.value < |trace| && Asks(trace[at.value], id)
    ensures at.Some? ==> forall k | at.value < k < |trace| :: !Asks(trace[k], id) && !Answers(trace[k], id)
    ensures at.None? ==> forall i | 0 <= i < |trace| && Asks(trace[i], id) :: AnsweredAfter(trace, i, id)
  {
    if trace == [] then None
    else
      var before, last := trace[..|trace| - 1], trace[|trace| - 1];
      if Asks(last, id) then Some(|trace| - 1)
      else if Answers(last, id) then None
      else
        var at := Waiting(before, id);
        assert at.None? ==> forall i | 0 <= i < |trace| && Asks(trace[i], id) :: AnsweredAfter(trace, i, id) by {
          forall i | at.None? && 0 <= i < |trace| && Asks(trace[i], id) ensures AnsweredAfter(trace, i, id) {
            assert Asks(before[i], id) && AnsweredAfter(before, i, id);
          }
        }
        at
  }

  /** Request `i` is answered by reply `j`: the reply names it, and no request or reply in between has its id. */
  ghost predicate Answered(trace: seq<Item>, i: nat, j: nat) {
    && i < j < |trace| && trace[i].Asked? && Answers(trace[j], trace[i].message.requestId)
    && forall k | i < k < j ::
          !Asks(trace[k], trace[i].message.requestId) && !Answers(trace[k], trace[i].message.requestId)
  }

  /** The answered requests, each with its reply, in the order of the replies. */
  function Matched(trace: seq<Item>): (pairs: seq<(nat, nat)>)
    ensures forall p | 0 <= p < |pairs| :: pairs[p].0 < pairs[p].1 < |trace|
    ensures forall p, q | 0 <= p < q < |pairs| :: pairs[p].1 < pairs[q].1
  {
    if trace == [] then []
    else
      var before, last := trace[..|trace| - 1], trace[|trace| - 1];
      var at := if last.Replied? then Waiting(before, last.message.responseTo) else None;
      Matched(before) + (if at.Some? then [(at.value, |trace| - 1)] else [])
  }

  function Interactions(trace: seq<Item>, pairs: seq<(nat, nat)>): (all: seq<Interaction>)
    requires forall p | 0 <= p < |pairs| :: pairs[p].0 < pairs[p].1 < |trace|
    ensures |all| == |pairs|
  {
    seq(|pairs|, p requires 0 <= p < |pairs| => Pair(trace[pairs[p].0].message.body, trace[pairs[p].1].message.body))
  }

  /** The pending map holds exactly the requests that still wait. */
  ghost predicate Pending(pending: map<int, Document>, trace: seq<Item>) {
    && (forall id :: id in pending <==> Waiting(trace, id).Some?)
    && (forall id | id in pending :: pending[id] == trace[Waiting(trace, id).value].message.body)
  }

  lemma {:induction false} HeldAfter(core: Core, before: seq<Item>, item: Item)
    requires Pending(core.pending, before)
    ensures Pending(OnItem(core, item).pending, before + [item])
  {
    var trace := before + [item];
    assert trace[..|before|] == before && trace[|before|] == item;
    forall id ensures Waiting(trace, id) == if Asks(item, id) then Some(|before|)
                                            else if Answers(item, id) then None else Waiting(before, id) {
    }
  }

  lemma {:induction false} MatchedGrows(before: seq<Item>, last: Item)
    ensures var at := if last.Replied? then Waiting(before, last.message.responseTo) else None;
            Interactions(before + [last], Matched(before + [last]))
            == Interactions(before, Matched(before))
               + (if at.Some? then [Pair(before[at.value].message.body, last.message.body)] else [])
  {
  }

  /** Over any messages, with any ids: what waits is pending, and what is answered is recorded, in reply order. */
  lemma {:induction false} PairedById(trace: seq<Item>)
    ensures Pending(Fold(OnItem, EMPTY, trace).pending, trace)
    ensures Fold(OnItem, EMPTY, trace).completed == Interactions(trace, Matched(trace))
    decreases |trace|
  {
    hide Waiting, Pair, Interactions, Matched;
    if trace != [] {
      var before, last := trace[..|trace| - 1], trace[|trace| - 1];
      PairedById(before);
      var core := Fold(OnItem, EMPTY, before);
      FoldAppend(OnItem, EMPTY, before, [last]);
      assert trace == before + [last];
      assert Fold(OnItem, EMPTY, trace) == OnItem(core, last);
      HeldAfter(core, before, last);
      MatchedGrows(before, last);
    } else {
      assert forall id :: Waiting([], id).None?;
      NoneMatched();
    }
  }

  lemma {:induction false} NoneMatched()
    ensures Interactions([], Matched([])) == []
  {
  }

  lemma {:induction false} MatchedAppends(before: seq<Item>, last: Item)
    ensures var at := if last.Replied? then Waiting(before, last.message.responseTo) else None;
            Matched(before + [last]) == Matched(before) + (if at.Some? then [(at.value, |before|)] else [])
  {
  }

  lemma {:induction false} WaitingIs(trace: seq<Item>, i: nat, id: int)
    ensures Waiting(trace, id) == Some(i) <==>
            && i < |trace| && Asks(trace[i], id)
            && forall k | i < k < |trace| :: !Asks(trace[k], id) && !Answers(trace[k], id)
  {
  }

  lemma {:induction false} AnsweredBefore(before: seq<Item>, last: Item, i: nat, j: nat)
    requires j < |before|
    ensures Answered(before + [last], i, j) <==> Answered(before, i, j)
  {
    var trace := before + [last];
    forall k | 0 <= k < |before| ensures trace[k] == before[k] {
    }
  }

  lemma {:induction false} AnsweredLast(before: seq<Item>, last: Item, i: nat)
    ensures Answered(before + [last], i, |before|) <==>
            last.Replied? && Waiting(before, last.message.responseTo) == Some(i)
  {
    hide Waiting;
    var trace := before + [last];
    forall k | 0 <= k < |before| ensures trace[k] == before[k] {
    }
    if last.Replied? {
      WaitingIs(before, i, last.message.responseTo);
    }
  }

  /** Exactly the answered requests are matched, each with the first reply that names it. */
  lemma {:induction false} MatchedIsAnswered(trace: seq<Item>, i: nat, j: nat)
    ensures (i, j) in Matched(trace) <==> Answered(trace, i, j)
    decreases |trace|
  {
    hide Waiting, Answered;
    if trace == [] {
      NeverAnswered(i, j);
    } else {
      var before, last := trace[..|trace| - 1], trace[|trace| - 1];
      assert trace == before + [last];
      MatchedIsAnswered(before, i, j);
      MatchedAppends(before, last);
      hide Matched;
      if j < |before| {
        AnsweredBefore(before, last, i, j);
      } else {
        AnsweredLast(before, last, i);
        TooLate(trace, i, j);
      }
    }
  }

  lemma {:induction false} NeverAnswered(i: nat, j: nat)
    ensures !Answered([], i, j)
  {
  }

  lemma {:induction false} TooLate(trace: seq<Item>, i: nat, j: nat)
    ensures j >= |trace| ==> !Answered(trace, i, j)
  {
  }

  // ----- conservation -----

  function Requests(trace: seq<Item>): nat {
    if trace == [] then 0
    else Requests(trace[..|trace| - 1]) + (if trace[|trace| - 1].Asked? then 1 else 0)
  }

  /** How many requests took an id that was still waiting: the earlier request is forgotten. */
  function Reused(trace: seq<Item>): nat {
    if trace == [] then 0
    else
      var before, last := trace[..|trace| - 1], trace[|trace| - 1];
      Reused(before) + (if last.Asked? && Waiting(before, last.message.requestId).Some? then 1 else 0)
  }

  lemma {:induction false} KeysAdded(m: map<int, Document>, id: int, d: Document)
    ensures |m[id := d]| == |m| + (if id in m then 0 else 1)
    ensures id in m ==> |m - {id}| == |m| - 1
  {
  }

  /** Conservation: every request is pending, recorded once, or was displaced by a request that reused its id. */
  lemma {:induction false} Conserved(trace: seq<Item>)
    ensures var end := Fold(OnItem, EMPTY, trace);
            Requests(trace) == |end.pending| + |end.completed| + Reused(trace)
    decreases |trace|
  {
    hide Waiting, Pair;
    if trace != [] {
      var before, last := trace[..|trace| - 1], trace[|trace| - 1];
      Conserved(before);
      PairedById(before);
      var core := Fold(OnItem, EMPTY, before);
      FoldAppend(OnItem, EMPTY, before, [last]);
      assert trace == before + [last];
      assert Fold(OnItem, EMPTY, trace) == OnItem(core, last);
      if last.Asked? {
        KeysAdded(core.pending, last.message.requestId, last.message.body);
      } else {
        KeysAdded(core.pending, last.message.responseTo, []);
      }
    }
  }

  /** No request takes an id that is still waiting for its reply. */
  ghost predicate Fresh(trace: seq<Item>) {
    forall n | 0 <= n < |trace| && trace[n].Asked? :: Waiting(trace[..n], trace[n].message.requestId).None?
  }

  lemma {:induction false} NoneReused(trace: seq<Item>)
    ensures Reused(trace) == 0 <==> Fresh(trace)
    decreases |trace|
  {
    hide Waiting;
    if trace != [] {
      var before := trace[..|trace| - 1];
      NoneReused(before);
      forall n | 0 <= n < |before| ensures before[..n] == trace[..n] && before[n] == trace[n] {
      }
    }
  }

  /**
   * Over any run, also one in which reading throws: the recorded interactions are exactly the answered requests with
   * their first replies, in reply order, whatever was drained when; and no request is lost exactly when no id is reused
   * while it waits.
   */
  lemma {:induction false} RunPairs(events: seq<Event>)
    requires Modelled(events)
    ensures Recorded(events) == Interactions(Trace(events), Matched(Trace(events)))
    ensures Pending(Run(events).state.core.pending, Trace(events))
    ensures Requests(Trace(events)) == |Run(events).state.core.pending| + |Recorded(events)| <==> Fresh(Trace(events))
  {
    hide Run, Recorded, Trace, Pending, Fresh, Interactions, Matched;
    RunFollowsTrace(events);
    PairedById(Trace(events));
    Conserved(Trace(events));
    NoneReused(Trace(events));
  }
}
