/**
 * Answering MongoDB commands from a recording: src/replay/mongoReplayServer.ts.
 */
module MongoReplays {
  import opened Wire
  import opened Streams
  import opened Words
  import opened Playback
  import opened Documents
  import opened MongoMessages
  import opened MongoRecorders
  import opened BsonWriter
  import Doubles

  /** Commands a driver negotiates with, and commands it sends on its own behalf. */
  const HANDSHAKE := {Ascii("hello"), Ascii("ismaster"), Ascii("isMaster"), Ascii("ping"), Ascii("buildInfo"),
      Ascii("buildinfo")}

  const HOUSEKEEPING := {Ascii("endSessions"), Ascii("killCursors"), Ascii("logout"), Ascii("abortTransaction"),
                         Ascii("getFreeMonitoringStatus"), Ascii("saslStart"), Ascii("saslContinue")}

  /** A command that is answered from the recording. */
  predicate IsLookup(document: Document) {
    CommandNameOf(document) !in HANDSHAKE && CommandNameOf(document) !in HOUSEKEEPING
  }

  function Field(name: string, v: Value): Entry {
    Entry(Ascii(name), v)
  }

  function Number(n: int): Value {
    Num(Doubles.Int(n))
  }

  /** A standalone server every current driver accepts. */
  function HandshakeReply(now: int): Document {
    [Field("ok", Number(1)), Field("isWritablePrimary", Bool(true)), Field("ismaster", Bool(true)),
     Field("maxBsonObjectSize", Number(16777216)), Field("maxMessageSizeBytes", Number(48000000)),
     Field("maxWriteBatchSize", Number(100000)), Field("localTime", Date(now)),
     Field("logicalSessionTimeoutMinutes", Number(30)), Field("minWireVersion", Number(0)),
     Field("maxWireVersion", Number(17)), Field("readOnly", Bool(false))]
  }

  function Acknowledged(): Document {
    [Field("ok", Number(1))]
  }

  function NoRecording(key: Text): Document {
    [Field("ok", Number(0)), Field("code", Number(59)),
     Field("errmsg", Str(Ascii("cognivox has no recording for: ") + key))]
  }

  /** JavaScript's truth of a value. */
  predicate Truthy(v: Value) {
    match v
    case Null => false
    case Bool(b) => b
    case Num(n) => n != Doubles.Int(0) && n != Doubles.NegativeZero && n != Doubles.NotANumber
    case Str(text) => text != []
    case _ => true
  }

  function Lookup(document: Document, key: Text): Option<Value> {
    match Find(document, key)
    case None => None
    case Some(at) => Some(document[at].value)
  }

  /** `JSON.stringify`. */
  type Stringify = Value -> Text

  /** The collection a command targets. */
  function TargetText(document: Document): Text {
    var target := Lookup(document, CommandNameOf(document));
    if target.Some? && target.value.Str? then target.value.text else []
  }

  function FilterText(stringify: Stringify, document: Document): Text {
    var filter := Lookup(document, Ascii("filter"));
    if filter.Some? && Truthy(filter.value) then stringify(filter.value) else []
  }

  /** The command, the collection it targets, and its filter. Distinct commands may share a signature. */
  function SignatureOf(stringify: Stringify, document: Document): Text {
    TrimEnd(TrimStart(CommandNameOf(document) + [SPACE] + TargetText(document) + [SPACE]
                      + FilterText(stringify, document)))
  }

  datatype Shelf = Shelf(byCommand: map<Text, seq<Document>>, matched: nat, missing: set<Text>)

  datatype Answer = Answer(shelf: Shelf, reply: Document)

  function ReplyTo(stringify: Stringify, s: Shelf, document: Document, now: int): Answer {
    var command, key := CommandNameOf(document), SignatureOf(stringify, document);
    if command in HANDSHAKE then Answer(s, HandshakeReply(now))
    else if command in HOUSEKEEPING then Answer(s, Acknowledged())
    else if !Holds(s.byCommand, key) then Answer(s.(missing := s.missing + {key}), NoRecording(key))
    else
      Answer(s.(matched := s.matched + 1, byCommand := Take(s.byCommand, key)), s.byCommand[key][0])
  }

  /** One line of a recording; a request without a document stands for the empty one. */
  datatype Line = Mongo(document: Document, response: Document) | OtherProtocol

  function LogOf(stringify: Stringify, lines: seq<Line>): seq<(Text, Document)> {
    if lines == [] then []
    else
      var last := lines[|lines| - 1];
      LogOf(stringify, lines[..|lines| - 1])
      + (if last.Mongo? then [(SignatureOf(stringify, last.document), last.response)] else [])
  }

  function Load(log: seq<(Text, Document)>): Shelf {
    if log == [] then Shelf(map[], 0, {})
    else
      var s, last := Load(log[..|log| - 1]), log[|log| - 1];
      s.(byCommand := Push(s.byCommand, last.0, last.1))
  }

  class MongoReplay {
    const stringify: Stringify
    var byCommand: map<Text, seq<Document>>
    var matchedCount: nat
    var missing: set<Text>

    function Now(): Shelf
      reads this
    {
      Shelf(byCommand, matchedCount, missing)
    }

    constructor (stringify: Stringify, lines: seq<Line>)
      ensures this.stringify == stringify && Now() == Load(LogOf(stringify, lines))
    {
      hide SignatureOf;
      this.stringify := stringify;
      byCommand, matchedCount, missing := map[], 0, {};
      new;
      for i := 0 to |lines|
        invariant Now() == Load(LogOf(stringify, lines[..i]))
        modifies this
      {
        assert lines[..i + 1][..i] == lines[..i];
        ghost var log := LogOf(stringify, lines[..i]);
        if lines[i].Mongo? {
          var key := SignatureOf(stringify, lines[i].document);
          assert (log + [(key, lines[i].response)])[..|log|] == log;
          byCommand := Push(byCommand, key, lines[i].response);
        } else {
          assert log + [] == log;
        }
      }
      assert lines[..|lines|] == lines;
    }

    method FindReply(document: Document, now: int) returns (reply: Document)
      modifies this
      ensures Answer(Now(), reply) == ReplyTo(stringify, old(Now()), document, now)
    {
      var command := CommandNameOf(document);
      if command in HANDSHAKE {
        return HandshakeReply(now);
      }
      if command in HOUSEKEEPING {
        return Acknowledged();
      }
      var key := SignatureOf(stringify, document);
      if !Holds(byCommand, key) {
        missing := missing + {key};
        return NoRecording(key);
      }
      matchedCount := matchedCount + 1;
      reply := byCommand[key][0];
      byCommand := Take(byCommand, key);
    }
  }

  // ----- replay never guesses -----

  /** A command, and the time at which it is answered. */
  datatype Call = Call(document: Document, now: int)

  datatype Session = Session(shelf: Shelf, replies: seq<Document>)

  function Ask(stringify: Stringify, s: Shelf, calls: seq<Call>): (end: Session)
    ensures |end.replies| == |calls|
  {
    if calls == [] then Session(s, [])
    else
      var before, last := Ask(stringify, s, calls[..|calls| - 1]), calls[|calls| - 1];
      var a := ReplyTo(stringify, before.shelf, last.document, last.now);
      Session(a.shelf, before.replies + [a.reply])
  }

  /** The signatures looked up by a run of calls, oldest first. */
  function Lookups(stringify: Stringify, calls: seq<Call>): seq<Text> {
    if calls == [] then []
    else
      var last := calls[|calls| - 1].document;
      Lookups(stringify, calls[..|calls| - 1]) + (if IsLookup(last) then [SignatureOf(stringify, last)] else [])
  }

  /** What a call must be answered after the lookups before it, from the recording alone. */
  function Expected(stringify: Stringify, log: seq<(Text, Document)>, before: seq<Text>, call: Call): Document {
    var command, key := CommandNameOf(call.document), SignatureOf(stringify, call.document);
    if command in HANDSHAKE then HandshakeReply(call.now)
    else if command in HOUSEKEEPING then Acknowledged()
    else if Filed(log, key) == [] then NoRecording(key)
    else Nth(Filed(log, key), Count(before, key))
  }

  function Misses(log: seq<(Text, Document)>, keys: seq<Text>): nat {
    if keys == [] then 0
    else Misses(log, keys[..|keys| - 1]) + (if Filed(log, keys[|keys| - 1]) == [] then 1 else 0)
  }

  lemma {:induction false} Loaded(log: seq<(Text, Document)>)
    ensures Stocked(Load(log).byCommand, log, [])
    ensures Load(log).matched == 0 && Load(log).missing == {}
  {
    if log != [] {
      var before, last := log[..|log| - 1], log[|log| - 1];
      Loaded(before);
      Pushed(Load(before).byCommand, before, last.0, last.1);
      assert before + [last] == log;
    }
  }

  /** One lookup: the reply the recording calls for, and a store that is still in step. */
  lemma {:induction false} LookedUp(stringify: Stringify, s: Shelf, log: seq<(Text, Document)>, taken: seq<Text>,
          call: Call)
    requires Stocked(s.byCommand, log, taken)
    ensures var a, key := ReplyTo(stringify, s, call.document, call.now), SignatureOf(stringify, call.document);
            && a.reply == Expected(stringify, log, taken, call)
            && Stocked(a.shelf.byCommand, log, if IsLookup(call.document) then taken + [key] else taken)
            && a.shelf.matched == s.matched + (if IsLookup(call.document) && Filed(log, key) != [] then 1 else 0)
            && a.shelf.missing == s.missing + (if IsLookup(call.document) && Filed(log, key) == [] then {key} else {})
  {
    hide Filed, Count, SignatureOf, Stocked, HandshakeReply, NoRecording, Acknowledged, CommandNameOf;
    var key := SignatureOf(stringify, call.document);
    if IsLookup(call.document) {
      if Filed(log, key) != [] {
        Taken(s.byCommand, log, taken, key);
      } else {
        Passed(s.byCommand, log, taken, key);
      }
    }
  }

  /**
   * Over any run of calls on any recording: a lookup of a recorded signature gets its next recorded reply (the last one
   * again once they run out), any other lookup gets an error naming its signature, the missing set is exactly the
   * unrecorded signatures looked up, matched and missed lookups add up, and handshakes and housekeeping take nothing.
   */
  lemma {:induction false} NeverGuesses(stringify: Stringify, log: seq<(Text, Document)>, calls: seq<Call>)
    ensures var end, keys := Ask(stringify, Load(log), calls), Lookups(stringify, calls);
            && Stocked(end.shelf.byCommand, log, keys)
            && (forall i | 0 <= i < |calls| ::
                  end.replies[i] == Expected(stringify, log, Lookups(stringify, calls[..i]), calls[i]))
            && (forall key :: key in end.shelf.missing <==> key in keys && Filed(log, key) == [])
            && end.shelf.matched + Misses(log, keys) == |keys|
    decreases |calls|
  {
    hide Filed, Count, Load, Stocked, SignatureOf, ReplyTo, Expected, IsLookup;
    Loaded(log);
    if calls != [] {
      var before, last := calls[..|calls| - 1], calls[|calls| - 1];
      NeverGuesses(stringify, log, before);
      var end := Ask(stringify, Load(log), before);
      var keys := Lookups(stringify, before);
      LookedUp(stringify, end.shelf, log, keys, last);
      assert (keys + [SignatureOf(stringify, last.document)])[..|keys|] == keys;
      assert keys + [] == keys;
      forall i | 0 <= i < |calls|
        ensures Ask(stringify, Load(log), calls).replies[i]
                == Expected(stringify, log, Lookups(stringify, calls[..i]), calls[i])
      {
        assert i < |before| ==> calls[..i] == before[..i] && calls[i] == before[i];
      }
    }
  }

  // ----- the server loop -----

  /** What a connection changes: the shared replay, the shared counter of reply ids, and the bytes written back. */
  datatype Work = Work(shelf: Shelf, nextRequestId: int, written: Bytes)

  /** Everything outside the model that an answer depends on: JSON, and the clock as each reply is built. */
  datatype World = World(stringify: Stringify, clock: int -> int)

  /**
   * How far a connection has come. Thrown: a field of a reply did not fit. Unfollowed: a reply held an object on which
   * the writer is not followed.
   */
  datatype Progress = On(work: Work) | Thrown | Unfollowed

  predicate IsFollowed(reply: Document) {
    IsObject(reply) && FollowedElements(reply)
  }

  function OnMessage(world: World, p: Progress, m: Message): Progress {
    if !p.On? then p
    else
      var id := p.work.nextRequestId + 1;
      var a := ReplyTo(world.stringify, p.work.shelf, m.body, world.clock(id));
      if FitsReply(m.requestId, id, a.reply, m.opCode) then
        On(Work(a.shelf, id, p.work.written + EncodeReply(m.requestId, id, a.reply, m.opCode)))
      else if IsFollowed(a.reply) then Thrown
      else Unfollowed
  }

  function Handler(world: World): (Progress, Message) -> Progress {
    (p, m) => OnMessage(world, p, m)
  }

  /** How handling a chunk ends: it throws on a reply that does not fit, and on a message that cannot be read. */
  function EndingAfter(next: Lane<Progress>): Ending {
    if next.state.Thrown? then Threw
    else if next.state.Unfollowed? then Unmodelled
    else if ThrowsAt(next.buffered, 0) then Threw
    else if MalformedAt(next.buffered, 0) then Unmodelled
    else Returned
  }

  class Server {
    const world: World
    const replay: MongoReplay
    var nextRequestId: int

    constructor (world: World, replay: MongoReplay)
      requires replay.stringify == world.stringify
      ensures this.world == world && this.replay == replay && nextRequestId == 1
    {
      this.world, this.replay, nextRequestId := world, replay, 1;
    }
  }

  class Connection {
    const server: Server
    var buffered: Bytes
    var written: Bytes

    ghost predicate Valid() {
      server.replay.stringify == server.world.stringify
    }

    ghost function WorkNow(): Work
      reads this, server, server.replay
    {
      Work(server.replay.Now(), server.nextRequestId, written)
    }

    constructor (server: Server)
      requires server.replay.stringify == server.world.stringify
      ensures this.server == server && Valid() && buffered == [] && written == []
    {
      this.server := server;
      buffered, written := [], [];
    }

    method OnData(chunk: Bytes) returns (ending: Ending)
      requires Valid()
      modifies this, server, server.replay
      ensures Valid()
      ensures var next := Feed(ReadMessage, Handler(server.world), Lane(old(buffered), On(old(WorkNow()))), chunk);
              ending == EndingAfter(next) && (ending == Returned ==> Lane(buffered, On(WorkNow())) == next)
    {
      hide ReadMessageAt, ThrowsAt, MalformedAt, Finish, ReplyTo, FitsReply, EncodeReply, IsFollowed;
      buffered := buffered + chunk;
      var offset := 0;
      ghost var step := Handler(server.world);
      ghost var end := Finish(ReadMessage, step, On(WorkNow()), buffered);
      assert buffered[0..] == buffered;
      while true
        invariant offset <= |buffered| && buffered == old(buffered) + chunk
        invariant Finish(ReadMessage, step, On(WorkNow()), buffered[offset..]) == end
        decreases |buffered| - offset
      {
        MessageAtOffset(buffered, offset);
        FinishStep(ReadMessage, step, On(WorkNow()), buffered[offset..]);
        var message := ReadMessageAt(buffered, offset);
        if !message.Done? {
          break;
        }
        assert buffered[offset..][message.bytes..] == buffered[offset + message.bytes..];
        offset := offset + message.bytes;
        var m := message.value;
        server.nextRequestId := server.nextRequestId + 1;
        var reply := server.replay.FindReply(m.body, server.world.clock(server.nextRequestId));
        if !FitsReply(m.requestId, server.nextRequestId, reply, m.opCode) {
          ghost var stop := if IsFollowed(reply) then Thrown else Unfollowed;
          StopStays(server.world, stop, buffered[offset..]);
          return if IsFollowed(reply) then Threw else Unmodelled;
        }
        written := written + EncodeReply(m.requestId, server.nextRequestId, reply, m.opCode);
      }
      if ThrowsAt(buffered, offset) {
        return Threw;
      }
      if MalformedAt(buffered, offset) {
        return Unmodelled;
      }
      buffered := buffered[offset..];
      return Returned;
    }
  }

  lemma {:induction false} FoldStopped(world: World, stop: Progress, messages: seq<Message>)
    requires !stop.On?
    ensures Fold(Handler(world), stop, messages) == stop
    decreases |messages|
  {
    if messages != [] {
      FoldStopped(world, stop, messages[1..]);
    }
  }

  lemma {:induction false} StopStays(world: World, stop: Progress, b: Bytes)
    requires !stop.On?
    ensures Finish(ReadMessage, Handler(world), stop, b).state == stop
  {
    FoldStopped(world, stop, Parse(ReadMessage, b).values);
  }
}
