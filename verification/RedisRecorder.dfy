/**
 * Pairing Redis commands with their replies as they cross the proxy: src/record/protocols/redisRecorder.ts.
 *
 * Redis answers in order, so a queue is the whole matching strategy. The laws are about whole runs: any interleaving
 * of client chunks, server chunks and drains.
 */
module RedisRecorders {
  import opened Wire
  import opened Streams
  import Resp

  datatype Interaction = Interaction(request: Resp.Command, response: Resp.Reply)

  datatype Core = Core(pending: seq<Resp.Command>, completed: seq<Interaction>)

  /** A value the client sent: a command starts waiting for its reply. */
  function OnRequest(core: Core, value: Resp.Value): Core {
    match Resp.ToCommand(value)
    case Some(command) => core.(pending := core.pending + [command])
    case None => core
  }

  /** A value the server sent: it answers the oldest waiting command, and is dropped when there is none. */
  function OnReply(core: Core, value: Resp.Value): Core {
    if core.pending == [] then core
    else Core(core.pending[1..], core.completed + [Interaction(core.pending[0], Resp.Describe(value))])
  }

  datatype State = State(clientBuffer: Bytes, serverBuffer: Bytes, core: Core)

  const INITIAL := State([], [], Core([], []))

  datatype Event = ClientData(chunk: Bytes) | ServerData(chunk: Bytes) | Drain

  function Step(s: State, event: Event): State {
    match event
    case ClientData(chunk) =>
      var lane := Feed(Resp.Read, OnRequest, Lane(s.clientBuffer, s.core), chunk);
      State(lane.buffered, s.serverBuffer, lane.state)
    case ServerData(chunk) =>
      var lane := Feed(Resp.Read, OnReply, Lane(s.serverBuffer, s.core), chunk);
      State(s.clientBuffer, lane.buffered, lane.state)
    case Drain => s.(core := s.core.(completed := []))
  }

  class RedisRecorder {
    var clientBuffer: Bytes
    var serverBuffer: Bytes
    var pending: seq<Resp.Command>
    var completed: seq<Interaction>

    function Now(): State
      reads this
    {
      State(clientBuffer, serverBuffer, Core(pending, completed))
    }

    constructor ()
      ensures Now() == INITIAL
    {
      clientBuffer, serverBuffer, pending, completed := [], [], [], [];
    }

    method OnClientData(chunk: Bytes)
      modifies this
      ensures Now() == Step(old(Now()), ClientData(chunk))
    {
      hide Resp.Decode, Resp.ToCommand, Finish;
      var buffer := clientBuffer + chunk;
      var offset := 0;
      ghost var end := Finish(Resp.Read, OnRequest, Core(pending, completed), buffer);
      assert buffer[0..] == buffer;
      while true
        invariant offset <= |buffer| && serverBuffer == old(serverBuffer)
        invariant Finish(Resp.Read, OnRequest, Core(pending, completed), buffer[offset..]) == end
        decreases |buffer| - offset
      {
        Resp.DecodeAtOffset(buffer, offset);
        FinishStep(Resp.Read, OnRequest, Core(pending, completed), buffer[offset..]);
        var decoded := Resp.Decode(buffer, offset);
        if !decoded.Done? {
          break;
        }
        var command := Resp.ToCommand(decoded.value);
        if command.Some? {
          pending := pending + [command.value];
        }
        assert buffer[offset..][decoded.bytes..] == buffer[offset + decoded.bytes..];
        offset := offset + decoded.bytes;
      }
      clientBuffer := buffer[offset..];
    }

    method OnServerData(chunk: Bytes)
      modifies this
      ensures Now() == Step(old(Now()), ServerData(chunk))
    {
      hide Resp.Decode, Resp.Describe, Finish;
      var buffer := serverBuffer + chunk;
      var offset := 0;
      ghost var end := Finish(Resp.Read, OnReply, Core(pending, completed), buffer);
      assert buffer[0..] == buffer;
      while true
        invariant offset <= |buffer| && clientBuffer == old(clientBuffer)
        invariant Finish(Resp.Read, OnReply, Core(pending, completed), buffer[offset..]) == end
        decreases |buffer| - offset
      {
        Resp.DecodeAtOffset(buffer, offset);
        FinishStep(Resp.Read, OnReply, Core(pending, completed), buffer[offset..]);
        var decoded := Resp.Decode(buffer, offset);
        if !decoded.Done? {
          break;
        }
        if pending != [] {
          var awaiting := pending[0];
          pending := pending[1..];
          completed := completed + [Interaction(awaiting, Resp.Describe(decoded.value))];
        }
        assert buffer[offset..][decoded.bytes..] == buffer[offset + decoded.bytes..];
        offset := offset + decoded.bytes;
      }
      serverBuffer := buffer[offset..];
    }

    method DrainCompleted() returns (done: seq<Interaction>)
      modifies this
      ensures done == old(completed) && Now() == Step(old(Now()), Drain)
    {
      done := completed;
      completed := [];
    }
  }

  // ----- whole runs -----

  /** A run's end: the recorder's state, and everything drained from it so far. */
  datatype Ran = Ran(state: State, drained: seq<Interaction>)

  function Run(events: seq<Event>): Ran {
    if events == [] then Ran(INITIAL, [])
    else
      var r := Run(events[..|events| - 1]);
      var event := events[|events| - 1];
      Ran(Step(r.state, event), r.drained + (if event.Drain? then r.state.core.completed else []))
  }

  /** Every interaction the run produced, drained or not. */
  function Recorded(events: seq<Event>): seq<Interaction> {
    Run(events).drained + Run(events).state.core.completed
  }

  function ClientBytes(events: seq<Event>): Bytes {
    if events == [] then []
    else
      var event := events[|events| - 1];
      ClientBytes(events[..|events| - 1]) + (if event.ClientData? then event.chunk else [])
  }

  function ServerBytes(events: seq<Event>): Bytes {
    if events == [] then []
    else
      var event := events[|events| - 1];
      ServerBytes(events[..|events| - 1]) + (if event.ServerData? then event.chunk else [])
  }

  function CommandsIn(values: seq<Resp.Value>): seq<Resp.Command> {
    if values == [] then []
    else
      var command := Resp.ToCommand(values[0]);
      (if command.Some? then [command.value] else []) + CommandsIn(values[1..])
  }

  /** The commands and the replies the run has carried in full, read from the two byte streams as a whole. */
  function Commands(events: seq<Event>): seq<Resp.Command> {
    CommandsIn(Parse(Resp.Read, ClientBytes(events)).values)
  }

  function Replies(events: seq<Event>): seq<Resp.Value> {
    Parse(Resp.Read, ServerBytes(events)).values
  }

  function Pairs(commands: seq<Resp.Command>, replies: seq<Resp.Value>): (pairs: seq<Interaction>)
    requires |commands| == |replies|
    ensures |pairs| == |commands|
  {
    seq(|commands|, i requires 0 <= i < |commands| => Interaction(commands[i], Resp.Describe(replies[i])))
  }

  function Requests(interactions: seq<Interaction>): (requests: seq<Resp.Command>)
    ensures |requests| == |interactions|
  {
    seq(|interactions|, i requires 0 <= i < |interactions| => interactions[i].request)
  }

  /** No reply completes before its command: at every moment of the run there are at least as many commands. */
  ghost predicate Causal(events: seq<Event>) {
    forall n | 0 <= n <= |events| :: InOrder(events, n)
  }

  predicate InOrder(events: seq<Event>, n: nat)
    requires n <= |events|
  {
    |Replies(events[..n])| <= |Commands(events[..n])|
  }

  // ----- what one chunk does -----

  lemma {:induction false} FoldRequests(core: Core, values: seq<Resp.Value>)
    ensures Fold(OnRequest, core, values) == core.(pending := core.pending + CommandsIn(values))
    decreases |values|
  {
    if values == [] {
      assert core.pending + [] == core.pending;
    } else {
      var next := OnRequest(core, values[0]);
      FoldRequests(next, values[1..]);
      var command := Resp.ToCommand(values[0]);
      if command.Some? {
        assert core.pending + ([command.value] + CommandsIn(values[1..])) == next.pending + CommandsIn(values[1..]);
      } else {
        assert [] + CommandsIn(values[1..]) == CommandsIn(values[1..]);
      }
    }
  }

  lemma {:induction false} FoldReplies(core: Core, values: seq<Resp.Value>)
    ensures var k := Min(|core.pending|, |values|);
            Fold(OnReply, core, values)
            == Core(core.pending[k..], core.completed + Pairs(core.pending[..k], values[..k]))
    decreases |values|
  {
    var k := Min(|core.pending|, |values|);
    var pairs := Pairs(core.pending[..k], values[..k]);
    if values == [] || core.pending == [] {
      assert core.completed + pairs == core.completed;
      if values != [] {
        assert OnReply(core, values[0]) == core;
        FoldReplies(core, values[1..]);
        assert core.completed + Pairs(core.pending[..0], values[1..][..0]) == core.completed;
      }
    } else {
      var next := OnReply(core, values[0]);
      FoldReplies(next, values[1..]);
      var later := Pairs(next.pending[..k - 1], values[1..][..k - 1]);
      assert pairs == [Interaction(core.pending[0], Resp.Describe(values[0]))] + later;
      assert core.completed + pairs == next.completed + later;
      assert next.pending[k - 1..] == core.pending[k..];
    }
  }

  lemma {:induction false} CommandsInAppend(xs: seq<Resp.Value>, ys: seq<Resp.Value>)
    ensures CommandsIn(xs + ys) == CommandsIn(xs) + CommandsIn(ys)
    decreases |xs|
  {
    hide Resp.ToCommand;
    if xs == [] {
      assert xs + ys == ys;
    } else {
      assert (xs + ys)[1..] == xs[1..] + ys && (xs + ys)[0] == xs[0];
      CommandsInAppend(xs[1..], ys);
      var command := Resp.ToCommand(xs[0]);
      var head := if command.Some? then [command.value] else [];
      assert CommandsIn(xs + ys) == head + (CommandsIn(xs[1..]) + CommandsIn(ys));
      assert CommandsIn(xs) == head + CommandsIn(xs[1..]);
    }
  }

  // ----- whole runs -----

  /** At every moment the buffers hold exactly the bytes no whole value covers. */
  lemma {:induction false} Buffers(events: seq<Event>)
    ensures Run(events).state.clientBuffer == Parse(Resp.Read, ClientBytes(events)).rest
    ensures Run(events).state.serverBuffer == Parse(Resp.Read, ServerBytes(events)).rest
    decreases |events|
  {
    hide Resp.Read, OnRequest, OnReply;
    Resp.ReadIsStable();
    if events == [] {
      hide *;
      assert Parse(Resp.Read, []).rest == [];
    } else {
      var before, event := events[..|events| - 1], events[|events| - 1];
      Buffers(before);
      ParseSplit(Resp.Read, ClientBytes(before), if event.ClientData? then event.chunk else []);
      ParseSplit(Resp.Read, ServerBytes(before), if event.ServerData? then event.chunk else []);
      ParseRest(Resp.Read, ClientBytes(before));
      ParseRest(Resp.Read, ServerBytes(before));
      assert Run(before).state.clientBuffer + [] == Run(before).state.clientBuffer;
      assert Run(before).state.serverBuffer + [] == Run(before).state.serverBuffer;
    }
  }

  /** The values one event completes, on either side. */
  function NewRequests(s: State, event: Event): seq<Resp.Value> {
    if event.ClientData? then Parse(Resp.Read, s.clientBuffer + event.chunk).values else []
  }

  function NewReplies(s: State, event: Event): seq<Resp.Value> {
    if event.ServerData? then Parse(Resp.Read, s.serverBuffer + event.chunk).values else []
  }

  /** One more event: the values it completes are appended to the values of the stream, and only those. */
  lemma {:induction false} Grown(events: seq<Event>)
    requires events != []
    ensures var before, event := events[..|events| - 1], events[|events| - 1];
            var s := Run(before).state;
            && Commands(events) == Commands(before) + CommandsIn(NewRequests(s, event))
            && Replies(events) == Replies(before) + NewReplies(s, event)
  {
    hide Resp.Read, Run, Parse, CommandsIn;
    var before, event := events[..|events| - 1], events[|events| - 1];
    Resp.ReadIsStable();
    Buffers(before);
    var s := Run(before).state;
    ParseSplit(Resp.Read, ClientBytes(before), if event.ClientData? then event.chunk else []);
    ParseSplit(Resp.Read, ServerBytes(before), if event.ServerData? then event.chunk else []);
    ParseRest(Resp.Read, ClientBytes(before));
    ParseRest(Resp.Read, ServerBytes(before));
    assert s.clientBuffer + [] == s.clientBuffer && s.serverBuffer + [] == s.serverBuffer;
    CommandsInAppend(Parse(Resp.Read, ClientBytes(before)).values, NewRequests(s, event));
  }

  /** One more event, seen from the queue: commands join it at the back, and replies take them from the front. */
  lemma {:induction false} Moved(events: seq<Event>)
    requires events != []
    ensures var before, event := events[..|events| - 1], events[|events| - 1];
            var s := Run(before).state;
            var queue, values := s.core.pending, NewReplies(s, event);
            var k := Min(|queue|, |values|);
            && Recorded(events) == Recorded(before) + Pairs(queue[..k], values[..k])
            && Run(events).state.core.pending == queue[k..] + CommandsIn(NewRequests(s, event))
  {
    hide Resp.Read, Parse, Fold;
    var before, event := events[..|events| - 1], events[|events| - 1];
    var s := Run(before).state;
    var queue, values := s.core.pending, NewReplies(s, event);
    var k := Min(|queue|, |values|);
    FoldRequests(s.core, NewRequests(s, event));
    FoldReplies(s.core, values);
    assert queue[0..] == queue && queue + [] == queue;
    var pairs := Pairs(queue[..k], values[..k]);
    assert event.ServerData? || pairs == [];
    assert Run(before).drained + (s.core.completed + pairs) == Recorded(before) + pairs;
    assert Recorded(before) + [] == Recorded(before);
  }

  /**
   * Conservation, over every run: each command carried in full is waiting or is the request of exactly one
   * interaction, and reading the interactions and then the queue gives the commands in the order they were sent.
   */
  lemma {:induction false} NothingLost(events: seq<Event>)
    ensures Requests(Recorded(events)) + Run(events).state.core.pending == Commands(events)
    decreases |events|
  {
    hide Resp.Read, Step, Parse, CommandsIn, Commands, NewReplies, NewRequests;
    if events == [] {
      Empty();
    } else {
      var before, event := events[..|events| - 1], events[|events| - 1];
      NothingLost(before);
      Grown(events);
      Moved(events);
      var s := Run(before).state;
      RequestsGrow(Recorded(before), s.core.pending, NewReplies(s, event), CommandsIn(NewRequests(s, event)));
    }
  }

  lemma {:induction false} RequestsGrow(done: seq<Interaction>, queue: seq<Resp.Command>, values: seq<Resp.Value>,
          more: seq<Resp.Command>)
    ensures var k := Min(|queue|, |values|);
            Requests(done + Pairs(queue[..k], values[..k])) + (queue[k..] + more) == Requests(done) + queue + more
  {
  }

  lemma {:induction false} Empty()
    ensures Commands([]) == [] && Replies([]) == []
  {
  }

  /** Replies are dropped one by one and never come back: a run that has lost none at its end never lost any. */
  lemma {:induction false} NoneGained(events: seq<Event>, n: nat)
    requires n <= |events|
    ensures |Recorded(events)| <= |Replies(events)|
    ensures |Replies(events[..n])| - |Recorded(events[..n])| <= |Replies(events)| - |Recorded(events)|
    decreases |events|
  {
    hide Step, Commands, Replies;
    if n == |events| {
      assert events[..n] == events;
    }
    if events == [] {
      Empty();
    } else {
      var before := events[..|events| - 1];
      NoneGained(before, if n < |events| then n else |before|);
      Grown(events);
      Moved(events);
      assert n < |events| ==> before[..n] == events[..n];
    }
  }

  /** In a causal run the k-th reply is paired with the k-th command, and the rest of the commands wait. */
  lemma {:induction false} PairedInOrder(events: seq<Event>)
    requires Causal(events)
    ensures |Replies(events)| <= |Commands(events)|
    ensures Recorded(events) == Pairs(Commands(events)[..|Replies(events)|], Replies(events))
    ensures Run(events).state.core.pending == Commands(events)[|Replies(events)|..]
    decreases |events|
  {
    hide Step, Commands, Replies, Parse;
    assert InOrder(events, |events|) && events[..|events|] == events;
    if events == [] {
      Empty();
    } else {
      var before, event := events[..|events| - 1], events[|events| - 1];
      forall n | 0 <= n <= |before| ensures InOrder(before, n) {
        assert InOrder(events, n) && before[..n] == events[..n];
      }
      PairedInOrder(before);
      Grown(events);
      Moved(events);
      hide Run, Recorded;
      PairsGrow(Commands(before), Replies(before), CommandsIn(NewRequests(Run(before).state, event)),
                NewReplies(Run(before).state, event));
    }
  }

  lemma {:induction false} PairsGrow(commands: seq<Resp.Command>, replies: seq<Resp.Value>, more: seq<Resp.Command>,
          values: seq<Resp.Value>)
    requires |replies| <= |commands| && |replies| + |values| <= |commands| + |more|
    requires more == [] || values == []
    ensures var queue := commands[|replies|..];
            var k := Min(|queue|, |values|);
            && Pairs(commands[..|replies|], replies) + Pairs(queue[..k], values[..k])
               == Pairs((commands + more)[..|replies| + |values|], replies + values)
            && queue[k..] + more == (commands + more)[|replies| + |values|..]
  {
  }

  /** Exactly the causal runs record every reply; any other run drops at least one. */
  lemma {:induction false} LosslessIffCausal(events: seq<Event>)
    ensures |Recorded(events)| == |Replies(events)| <==> Causal(events)
  {
    hide Run, Recorded, Commands, Replies;
    if Causal(events) {
      PairedInOrder(events);
    } else {
      var n :| 0 <= n <= |events| && !InOrder(events, n);
      NothingLost(events[..n]);
      NoneGained(events, n);
    }
  }

  /**
   * Chunk boundaries do not matter: delivering `a + b` in one event or in two leaves the same buffers, the same queue
   * and the same interactions, from any state.
   */
  lemma {:induction false} ChunksMerge(s: State, a: Bytes, b: Bytes)
    ensures Step(s, ClientData(a + b)) == Step(Step(s, ClientData(a)), ClientData(b))
    ensures Step(s, ServerData(a + b)) == Step(Step(s, ServerData(a)), ServerData(b))
  {
    Resp.ReadIsStable();
    FeedSplit(Resp.Read, OnRequest, Lane(s.clientBuffer, s.core), a, b);
    FeedSplit(Resp.Read, OnReply, Lane(s.serverBuffer, s.core), a, b);
  }
}
