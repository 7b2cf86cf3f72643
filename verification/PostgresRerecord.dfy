/**
 * The run-level law: a recorder that watches a client talk to the replay server records the recording again.
 *
 * The session runs in lock step, one leg at a time: the client's bytes of the leg, then the server's answer. Within a
 * leg each direction is cut into chunks freely, and the server need not see the cuts the recorder sees.
 */
module PostgresRerecord {
  import opened Wire
  import opened Streams
  import opened PostgresMessages
  import opened PostgresEncoder
  import opened PostgresReplays
  import opened PostgresFixpoint
  import Server = PostgresServers
  import Shape = PostgresShape
  import Recorder = PostgresRecorders

  /** The chunks of one leg: as the recorder sees the client send them, as they reach the server, and the answer. */
  datatype Leg = Leg(sent: seq<Bytes>, arrived: seq<Bytes>, answered: seq<Bytes>)

  function ClientAll(v: Recorder.State, chunks: seq<Bytes>): Recorder.State
    decreases |chunks|
  {
    if chunks == [] then v else ClientAll(Recorder.Step(v, Recorder.ClientData(chunks[0])), chunks[1..])
  }

  function ServerAll(v: Recorder.State, chunks: seq<Bytes>): Recorder.State
    decreases |chunks|
  {
    if chunks == [] then v else ServerAll(Recorder.Step(v, Recorder.ServerData(chunks[0])), chunks[1..])
  }

  /** What the recorder makes of a session. */
  function Watch(v: Recorder.State, legs: seq<Leg>): Recorder.State
    decreases |legs|
  {
    if legs == [] then v else Watch(ServerAll(ClientAll(v, legs[0].sent), legs[0].answered), legs[1..])
  }

  /**
   * The bytes of every leg are relayed unchanged: to the server, and what it writes, as long as it does not throw,
   * back.
   */
  ghost predicate Relayed(lane: Lane<Option<Server.Work>>, legs: seq<Leg>)
    requires lane.state.Some?
    decreases |legs|
  {
    legs != [] ==>
      var next := Shape.ServeAll(lane, legs[0].arrived);
      && Concat(legs[0].sent) == Concat(legs[0].arrived)
      && (next.state.Some? ==>
            && next.state.value.written == lane.state.value.written + Concat(legs[0].answered)
            && Relayed(next, legs[1..]))
  }

  /** The server answers every leg: no frame makes it throw. */
  ghost predicate Survives(lane: Lane<Option<Server.Work>>, legs: seq<Leg>)
    decreases |legs|
  {
    legs != [] ==>
      var next := Shape.ServeAll(lane, legs[0].arrived);
      next.state.Some? && Survives(next, legs[1..])
  }

  /** The client opens with a plain startup packet and sends nothing else in that leg. */
  predicate Opens(leg: Leg) {
    ReadStartup(Concat(leg.sent)) == Plain(|Concat(leg.sent)|)
  }

  predicate Takes(leg: Leg, t: Turn)
    requires Playable(t)
  {
    Concat(leg.sent) == Messages(ClientFrames(t))
  }

  function Interactions(turns: seq<Turn>): (all: seq<Recorder.Interaction>)
    ensures |all| == |turns|
  {
    seq(|turns|, i requires 0 <= i < |turns| => Recorded(turns[i]))
  }

  // ----- the chunks of one leg -----

  lemma {:induction false} StartupPrefix(a: Bytes, b: Bytes)
    requires SaneStartup(a + b)
    ensures SaneStartup(a)
  {
  }

  /** The client's chunks may be taken as one, on a recorder that has read all it can. */
  lemma {:induction false} ClientMerged(v: Recorder.State, chunks: seq<Bytes>)
    requires Recorder.Step(v, Recorder.ClientData([])) == v
    requires v.phase == Recorder.Initial ==> SaneStartup(v.client + Concat(chunks))
    ensures ClientAll(v, chunks) == Recorder.Step(v, Recorder.ClientData(Concat(chunks)))
    decreases |chunks|
  {
    hide Recorder.Step, SaneStartup;
    if chunks != [] {
      var a, rest := chunks[0], Concat(chunks[1..]);
      var next := Recorder.Step(v, Recorder.ClientData(a));
      assert v.client + (a + rest) == v.client + a + rest && a + [] == a;
      assert v.client + a + [] == v.client + a;
      if v.phase == Recorder.Initial {
        StartupPrefix(v.client + a, rest);
        SaneKeepsRest(v.client + a, rest);
        SaneKeepsRest(v.client + a, []);
      }
      Recorder.ClientChunksMerge(v, a, rest);
      Recorder.ClientChunksMerge(v, a, []);
      StillInitial(v, a);
      ClientMerged(next, chunks[1..]);
    }
  }

  lemma {:induction false} StillInitial(v: Recorder.State, a: Bytes)
    ensures var next := Recorder.Step(v, Recorder.ClientData(a));
            next.phase == Recorder.Initial ==> v.phase == Recorder.Initial && next.client == v.client + a
  {
  }

  lemma {:induction false} ServerMerged(v: Recorder.State, chunks: seq<Bytes>)
    requires Recorder.Step(v, Recorder.ServerData([])) == v && v.phase == Recorder.Running
    ensures ServerAll(v, chunks) == Recorder.Step(v, Recorder.ServerData(Concat(chunks)))
    decreases |chunks|
  {
    hide Parse, Finish;
    if chunks != [] {
      var a, rest := chunks[0], Concat(chunks[1..]);
      assert a + [] == a;
      Recorder.ServerChunksMerge(v, a, rest);
      Recorder.ServerChunksMerge(v, a, []);
      ServerMerged(Recorder.Step(v, Recorder.ServerData(a)), chunks[1..]);
    }
  }

  /** A recorder with both buffers empty, past the startup packet. */
  predicate Idle(v: Recorder.State) {
    v.client == [] && v.server == [] && v.phase == Recorder.Running
  }

  /** Whole client messages, in any chunks, are handled one after the other. */
  lemma {:induction false} ClientLeg(v: Recorder.State, chunks: seq<Bytes>, frames: seq<Frame>)
    requires Idle(v) && Shape.Sendable(frames) && Concat(chunks) == Messages(frames)
    ensures ClientAll(v, chunks) == v.(core := Fold(Recorder.OnClientFrame, v.core, frames))
  {
    hide Parse, Messages, Writable, Recorder.OnClientFrame;
    EmptyStream();
    ParseMessages(frames);
    assert [] + Concat(chunks) == Concat(chunks);
    ClientMerged(v, chunks);
  }

  lemma {:induction false} ServerLeg(v: Recorder.State, chunks: seq<Bytes>, frames: seq<Frame>)
    requires Idle(v) && Shape.Sendable(frames) && Concat(chunks) == Messages(frames)
    ensures ServerAll(v, chunks) == v.(core := Fold(Recorder.OnServerFrame, v.core, frames))
  {
    hide Parse, Messages, Writable, Recorder.OnServerFrame;
    EmptyStream();
    ParseMessages(frames);
    assert [] + Concat(chunks) == Concat(chunks);
    ServerMerged(v, chunks);
  }

  /** A replay server with nothing buffered, past the startup packet, serves whole messages one after the other. */
  lemma {:induction false} ServedLeg(w: Server.Work, chunks: seq<Bytes>, frames: seq<Frame>)
    requires w.session.started && Shape.Sendable(frames) && Concat(chunks) == Messages(frames)
    ensures Shape.ServeAll(Lane([], Some(w)), chunks) == Lane([], Fold(Server.OnFrame, Some(w), frames))
  {
    hide Parse, Messages, Writable, Server.OnFrame, ReadStartup;
    EmptyStream();
    ParseMessages(frames);
    assert [] + Concat(chunks) == Concat(chunks);
    Shape.ServedWhole(Lane([], Some(w)), chunks);
  }

  // ----- one leg -----

  /** The recorder after `i` turns: idle, with every turn so far recorded and nothing half recorded. */
  ghost predicate Caught(v: Recorder.State, turns: seq<Turn>, i: nat)
    requires i <= |turns|
  {
    && Idle(v) && v.core.Some? && v.core.value.columns == [] && v.core.value.rows == []
    && v.core.value.prepared == Prepared(turns[..i])
    && v.core.value.completed == Interactions(turns[..i])
  }

  /** One turn, answered from the recording and recorded again. */
  lemma {:induction false} TurnLeg(v: Recorder.State, w: Server.Work, turns: seq<Turn>, i: nat, leg: Leg)
    requires i < |turns| && Undisturbed(turns) && Playable(turns[i]) && Knows(Prepared(turns[..i]), turns[i])
    requires Caught(v, turns, i) && Reached(w, turns, i) && Takes(leg, turns[i])
    requires Relayed(Lane([], Some(w)), [leg])
    ensures Caught(ServerAll(ClientAll(v, leg.sent), leg.answered), turns, i + 1)
    ensures var next := Shape.ServeAll(Lane([], Some(w)), leg.arrived);
            next.buffered == [] && next.state.Some? && Reached(next.state.value, turns, i + 1)
  {
    hide ServerFrames, ClientFrames, Messages, Undisturbed, AllCalls, FitsResult, Run, Load, Recorded, Prepared;
    hide Writable, Shape.ServeAll, Knows;
    var t := turns[i];
    ServedLeg(w, leg.arrived, ClientFrames(t));
    PreparedGrows(turns, i);
    TurnServed(w, turns, i);
    SameSuffix(w.written, Messages(ServerFrames(t)), Concat(leg.answered));
    ClientLeg(v, leg.sent, ClientFrames(t));
    ClientHandled(v.core.value, t);
    var asked := ClientAll(v, leg.sent);
    ServerLeg(asked, leg.answered, ServerFrames(t));
    ServerHandled(asked.core.value, t);
    assert turns[..i + 1] == turns[..i] + [t];
    assert Interactions(turns[..i + 1]) == Interactions(turns[..i]) + [Recorded(t)];
  }

  lemma {:induction false} SameSuffix(written: Bytes, a: Bytes, b: Bytes)
    requires written + a == written + b
    ensures a == b
  {
    assert (written + a)[|written|..] == a && (written + b)[|written|..] == b;
  }

  /** The handshake leaves nothing in the recorder. */
  lemma {:induction false} HandshakeIgnored(core: Recorder.Core)
    ensures Fold(Recorder.OnServerFrame, Some(core), Server.Handshake()) == Some(core)
  {
  }

  /** The server answers a plain startup packet with the handshake. */
  lemma {:induction false} OpeningServed(shelf: Shelf, arrived: seq<Bytes>)
    requires ReadStartup(Concat(arrived)) == Plain(|Concat(arrived)|)
    ensures Shape.ServeAll(Shape.Fresh(shelf), arrived)
            == Lane([], Some(Server.Started(Server.Work(Server.FRESH, shelf, []))))
  {
    hide Server.Handshake, Messages, Writable, ReadFrame, Server.OnFrame, ReadInt32BE;
    PacketSane(Concat(arrived));
    EmptyStream();
    Shape.ServedFresh(shelf, arrived);
    var w := Server.Started(Server.Work(Server.FRESH, shelf, []));
    assert Fold(Server.OnFrame, Some(w), []) == Some(w);
  }

  lemma {:induction false} OpeningLeg(shelf: Shelf, leg: Leg)
    requires Opens(leg) && Relayed(Shape.Fresh(shelf), [leg])
    ensures var v := ServerAll(ClientAll(Recorder.INITIAL, leg.sent), leg.answered);
            Idle(v) && v.core == Recorder.INITIAL.core
    ensures Shape.ServeAll(Shape.Fresh(shelf), leg.arrived)
            == Lane([], Some(Server.Started(Server.Work(Server.FRESH, shelf, []))))
  {
    hide Server.Handshake, Messages, Writable, ReadFrame, Server.OnFrame, ReadInt32BE;
    var packet := Concat(leg.sent);
    PacketSane(packet);
    EmptyStream();
    assert [] + packet == packet;
    OpeningServed(shelf, leg.arrived);
    ClientMerged(Recorder.INITIAL, leg.sent);
    var begun := ClientAll(Recorder.INITIAL, leg.sent);
    assert begun == Recorder.INITIAL.(phase := Recorder.Running);
    SameSuffix([], Messages(Server.Handshake()), Concat(leg.answered));
    ServerLeg(begun, leg.answered, Server.Handshake());
    HandshakeIgnored(begun.core.value);
  }

  lemma {:induction false} PacketSane(packet: Bytes)
    requires ReadStartup(packet) == Plain(|packet|)
    ensures SaneStartup(packet) && From(packet, |packet|) == []
  {
  }

  // ----- the session -----

  lemma {:induction false} FirstLeg(lane: Lane<Option<Server.Work>>, legs: seq<Leg>)
    requires lane.state.Some? && legs != [] && Relayed(lane, legs)
    ensures Relayed(lane, [legs[0]])
  {
    hide Shape.ServeAll;
    var next := Shape.ServeAll(lane, legs[0].arrived);
    assert next.state.Some? ==> Relayed(next, [legs[0]][1..]);
  }

  /** Every turn that binds without parsing binds a statement some earlier turn prepared, and none replaced. */
  ghost predicate AllKnown(turns: seq<Turn>) {
    forall i | 0 <= i < |turns| :: Knows(Prepared(turns[..i]), turns[i])
  }

  ghost predicate Session(turns: seq<Turn>, legs: seq<Leg>) {
    && |legs| == |turns|
    && (forall i | 0 <= i < |turns| :: Playable(turns[i]))
    && (forall i | 0 <= i < |turns| :: Takes(legs[i], turns[i]))
  }

  lemma {:induction false} TurnLegs(v: Recorder.State, w: Server.Work, turns: seq<Turn>, i: nat, legs: seq<Leg>)
    requires i <= |turns| && Undisturbed(turns) && AllKnown(turns) && Session(turns[i..], legs)
    requires Caught(v, turns, i) && Reached(w, turns, i) && Relayed(Lane([], Some(w)), legs)
    ensures Caught(Watch(v, legs), turns, |turns|) && Survives(Lane([], Some(w)), legs)
    decreases |legs|
  {
    hide Caught, Reached, Takes, Playable, Undisturbed, Shape.ServeAll, ClientAll, ServerAll, Knows, Prepared;
    if legs != [] {
      assert turns[i..][0] == turns[i] && turns[i..][1..] == turns[i + 1..];
      FirstLeg(Lane([], Some(w)), legs);
      TurnLeg(v, w, turns, i, legs[0]);
      TurnLegs(ServerAll(ClientAll(v, legs[0].sent), legs[0].answered),
               Shape.ServeAll(Lane([], Some(w)), legs[0].arrived).state.value, turns, i + 1, legs[1..]);
    }
  }

  /**
   * Watching a replay of a recording records it again: for any turns in the simple or the extended protocol, with any
   * rows, errors and parameters, parsed or bound by name, in any chunks, and however many turns share a signature, as
   * long as no Describe gives one of them another's result. The server throws on none of them.
   */
  lemma {:induction false} ReplayRerecorded(turns: seq<Turn>, legs: seq<Leg>)
    requires Undisturbed(turns) && AllKnown(turns) && legs != [] && Opens(legs[0]) && Session(turns, legs[1..])
    requires Relayed(Shape.Fresh(Load(EntriesOf(turns))), legs)
    ensures Survives(Shape.Fresh(Load(EntriesOf(turns))), legs)
    ensures var v := Watch(Recorder.INITIAL, legs);
            v.core.Some? && v.core.value.completed == Interactions(turns)
  {
    hide Undisturbed, Shape.ServeAll, ClientAll, ServerAll, Opens, Session, Load, Server.Handshake, Messages;
    var shelf := Load(EntriesOf(turns));
    FirstLeg(Shape.Fresh(shelf), legs);
    OpeningLeg(shelf, legs[0]);
    assert turns[0..] == turns && turns[..0] == [] && turns[..|turns|] == turns;
    var w := Server.Started(Server.Work(Server.FRESH, shelf, []));
    TurnLegs(ServerAll(ClientAll(Recorder.INITIAL, legs[0].sent), legs[0].answered), w, turns, 0, legs[1..]);
  }

  // ----- such sessions exist -----

  /** A turn with one chunk each way. */
  function LegOf(t: Turn): (leg: Leg)
    requires Playable(t)
    ensures leg.arrived == leg.sent && Concat(leg.sent) == Messages(ClientFrames(t))
    ensures Concat(leg.answered) == Messages(ServerFrames(t))
  {
    var asked, answered := Messages(ClientFrames(t)), Messages(ServerFrames(t));
    ConcatOne(asked);
    ConcatOne(answered);
    Leg([asked], [asked], [answered])
  }

  function LegsOf(turns: seq<Turn>): (legs: seq<Leg>)
    requires forall i | 0 <= i < |turns| :: Playable(turns[i])
    ensures |legs| == |turns|
  {
    seq(|turns|, i requires 0 <= i < |turns| => LegOf(turns[i]))
  }

  lemma {:induction false} ConcatOne(b: Bytes)
    ensures Concat([b]) == b
  {
    assert [b][1..] == [] && b + [] == b;
  }

  /** The server answers every turn with exactly its recorded frames, one turn after the other. */
  lemma {:induction false} TurnsRelay(w: Server.Work, turns: seq<Turn>, i: nat)
    requires i <= |turns| && Undisturbed(turns) && AllKnown(turns) && Reached(w, turns, i)
    requires forall k | 0 <= k < |turns| :: Playable(turns[k])
    ensures Relayed(Lane([], Some(w)), LegsOf(turns[i..]))
    decreases |turns| - i
  {
    hide Reached, Undisturbed, ClientFrames, ServerFrames, Messages, Shape.ServeAll, Writable, Server.OnFrame;
    hide LegOf, FitsResult;
    var legs := LegsOf(turns[i..]);
    if i < |turns| {
      var t := turns[i];
      assert LegsOf(turns[i..])[1..] == LegsOf(turns[i + 1..]);
      ReachedStarted(w, turns, i);
      ServedLeg(w, legs[0].arrived, ClientFrames(t));
      TurnServed(w, turns, i);
      TurnsRelay(Fold(Server.OnFrame, Some(w), ClientFrames(t)).value, turns, i + 1);
    }
  }

  lemma {:induction false} ReachedStarted(w: Server.Work, turns: seq<Turn>, i: nat)
    requires i <= |turns| && Reached(w, turns, i)
    ensures w.session.started
  {
    hide Run, Load;
  }

  /** For any playable turns, the session with one chunk each way takes place and records the recording. */
  lemma {:induction false} PlainSession(packet: Bytes, turns: seq<Turn>)
    requires ReadStartup(packet) == Plain(|packet|) && Undisturbed(turns) && AllKnown(turns)
    requires forall k | 0 <= k < |turns| :: Playable(turns[k])
    ensures var opening := Leg([packet], [packet], [Messages(Server.Handshake())]);
            var v := Watch(Recorder.INITIAL, [opening] + LegsOf(turns));
            v.core.Some? && v.core.value.completed == Interactions(turns)
  {
    hide Playable, Undisturbed, ClientFrames, ServerFrames, Messages, Shape.ServeAll, Server.Handshake, Watch, Load;
    hide LegOf;
    var opening := Leg([packet], [packet], [Messages(Server.Handshake())]);
    var legs, shelf := [opening] + LegsOf(turns), Load(EntriesOf(turns));
    ConcatOne(packet);
    ConcatOne(Messages(Server.Handshake()));
    assert legs[1..] == LegsOf(turns) && turns[0..] == turns && turns[..0] == [];
    OpeningServed(shelf, [packet]);
    assert [] + Messages(Server.Handshake()) == Messages(Server.Handshake());
    TurnsRelay(Server.Started(Server.Work(Server.FRESH, shelf, [])), turns, 0);
    ReplayRerecorded(turns, legs);
  }

  // ----- the fixpoint -----

  /** Loading a recorded interaction for replay. */
  function Reloaded(i: Recorder.Interaction): Entry {
    match i.response
    case Result(columns, rows, tag) => Postgres(i.sql, i.params, RecordedResult(columns, rows, tag, None))
    case Failure(error) => Postgres(i.sql, i.params, RecordedResult([], [], [], Some(error)))
  }

  function ReloadedAll(all: seq<Recorder.Interaction>): (entries: seq<Entry>)
    ensures |entries| == |all|
  {
    seq(|all|, i requires 0 <= i < |all| => Reloaded(all[i]))
  }

  /**
   * A result that is recorded again as it is: rows under columns that all have a type OID, or an error whose text is
   * the severity.
   */
  predicate SelfRecording(r: RecordedResult) {
    if Errs(r) then r == RecordedResult([], [], [], Some(Ascii("ERROR"))) else r.error.None? && AllTyped(r.columns)
  }

  /** The second recording equals the first exactly when each of its results is recorded again as it is. */
  lemma {:induction false} Fixpoint(turns: seq<Turn>)
    ensures ReloadedAll(Interactions(turns)) == EntriesOf(turns)
            <==> forall i | 0 <= i < |turns| :: SelfRecording(turns[i].result)
  {
    forall i | 0 <= i < |turns|
      ensures ReloadedAll(Interactions(turns))[i] == EntriesOf(turns)[i] <==> SelfRecording(turns[i].result)
    {
      TypedIsSame(turns[i].result.columns);
    }
  }

  predicate AllTyped(columns: seq<Column>) {
    forall j | 0 <= j < |columns| :: columns[j].typeOid.Some?
  }

  lemma {:induction false} TypedIsSame(columns: seq<Column>)
    ensures Typed(columns) == columns <==> AllTyped(columns)
  {
  }
}
