/**
 * Pairing SQL statements with their results: src/record/protocols/postgresRecorder.ts.
 *
 * The recorder is a state machine over two framed streams, with a phase that decides how bytes are read. A core of
 * None means that a field reader threw on a malformed payload; the relay swallows that, and `After` is where it leaves
 * the recorder.
 */
module PostgresRecorders {
  import opened Wire
  import opened Streams
  import opened PostgresMessages

  datatype Phase = Initial | AwaitingSslReply | Running | Encrypted

  datatype Response = Result(columns: seq<Column>, rows: seq<Row>, tag: Text) | Failure(error: Text)

  datatype Interaction = Interaction(sql: Text, params: Row, response: Response)

  /** The statement being answered, what has arrived of its result, and the finished interactions. */
  datatype Core = Core(
    prepared: map<Text, Text>, sql: Text, params: Row,
    columns: seq<Column>, rows: seq<Row>, completed: seq<Interaction>)

  // ----- frames -----

  function HandleClientFrame(core: Core, f: Frame): Option<Core> {
    if f.kind == QUERY then
      Some(core.(sql := ReadCString(f.payload, 0).text, params := []))
    else if f.kind == PARSE then
      var s := ReadParse(f.payload);
      Some(core.(prepared := core.prepared[s.name := s.sql], sql := s.sql))
    else if f.kind == BIND then
      match ReadBindParameters(f.payload)
      case None => None
      case Some(params) => Some(Bound(core, f).(params := params))
    else Some(core)
  }

  /** A Bind names its statement before its parameters are read, so also where reading them throws. */
  function Bound(core: Core, f: Frame): Core {
    var statement := ReadBindStatement(f.payload);
    core.(sql := if statement in core.prepared then core.prepared[statement] else core.sql)
  }

  /** Close the statement, unless there is none. */
  function Emit(core: Core, response: Response): Core {
    if core.sql == [] then core
    else core.(
         completed := core.completed + [Interaction(core.sql, core.params, response)],
         columns := [], rows := [])
  }

  function HandleServerFrame(core: Core, f: Frame): Option<Core> {
    if f.kind == ROW_DESCRIPTION then
      match ReadRowDescription(f.payload)
      case None => None
      case Some(columns) => Some(core.(columns := columns))
    else if f.kind == DATA_ROW then
      match ReadDataRow(f.payload)
      case None => None
      case Some(row) => Some(core.(rows := core.rows + [row]))
    else if f.kind == COMMAND_COMPLETE then
      Some(Emit(core, Result(core.columns, core.rows, ReadCString(f.payload, 0).text)))
    else if f.kind == ERROR_RESPONSE then
      Some(Emit(core, Failure(ReadCString(f.payload, 1).text)))
    else Some(core)
  }

  function OnClientFrame(core: Option<Core>, f: Frame): Option<Core> {
    if core.None? then None else HandleClientFrame(core.value, f)
  }

  function OnServerFrame(core: Option<Core>, f: Frame): Option<Core> {
    if core.None? then None else HandleServerFrame(core.value, f)
  }

  // ----- chunks -----

  datatype State = State(client: Bytes, server: Bytes, phase: Phase, core: Option<Core>)

  const INITIAL := State([], [], Initial, Some(Core(map[], [], [], [], [], [])))

  datatype Event = ClientData(chunk: Bytes) | ServerData(chunk: Bytes)

  function ClientFrames(s: State, buffer: Bytes): State {
    var lane := Finish(ReadFrame, OnClientFrame, s.core, buffer);
    s.(client := lane.buffered, core := lane.state)
  }

  function ServerFrames(s: State, buffer: Bytes): State {
    var lane := Finish(ReadFrame, OnServerFrame, s.core, buffer);
    s.(server := lane.buffered, core := lane.state)
  }

  /** 'S' accepts a TLS request. */
  const ACCEPTED: byte := 83

  function Step(s: State, event: Event): State {
    if s.phase == Encrypted then s
    else
      match event
      case ClientData(chunk) =>
        var buffer := s.client + chunk;
        if s.phase == AwaitingSslReply then s.(client := buffer)
        else if s.phase == Running then ClientFrames(s, buffer)
        else
          (match ReadStartup(buffer)
           case Incomplete => s.(client := buffer)
           case SslRequest(bytes) => s.(client := From(buffer, bytes), phase := AwaitingSslReply)
           case Plain(bytes) => ClientFrames(s.(phase := Running), From(buffer, bytes)))
      case ServerData(chunk) =>
        if s.phase != AwaitingSslReply then ServerFrames(s, s.server + chunk)
        else if chunk == [] then s
        else if chunk[0] == ACCEPTED then s.(phase := Encrypted)
        else s.(phase := Running, server := chunk[1..])
  }

  // ----- where an exception leaves the recorder -----

  /** How far a run of frames is handled: to its end, or to the first frame that throws. */
  datatype Stop = Stop(core: Core, threw: bool)

  function ClientUntil(core: Core, frames: seq<Frame>): Stop
    decreases |frames|
  {
    if frames == [] then Stop(core, false)
    else
      match HandleClientFrame(core, frames[0])
      case None => Stop(Bound(core, frames[0]), true)
      case Some(next) => ClientUntil(next, frames[1..])
  }

  function ServerUntil(core: Core, frames: seq<Frame>): Stop
    decreases |frames|
  {
    if frames == [] then Stop(core, false)
    else
      match HandleServerFrame(core, frames[0])
      case None => Stop(core, true)
      case Some(next) => ServerUntil(next, frames[1..])
  }

  /** The client bytes that are read as frames when `chunk` has arrived. */
  function ToRead(s: State, chunk: Bytes): Bytes {
    var buffer := s.client + chunk;
    if s.phase != Initial || ReadStartup(buffer).Incomplete? then buffer else From(buffer, ReadStartup(buffer).bytes)
  }

  /** Frames before one that throws are handled, and the buffer is left whole. */
  function Poisoned(s: State, event: Event): (next: State)
    requires s.core.Some?
    ensures next.core.Some?
  {
    match event
    case ClientData(chunk) =>
      var buffer := ToRead(s, chunk);
      s.(client := buffer, phase := Running,
      core := Some(ClientUntil(s.core.value, Parse(ReadFrame, buffer).values).core))
    case ServerData(chunk) =>
      var buffer := s.server + chunk;
      s.(server := buffer, core := Some(ServerUntil(s.core.value, Parse(ReadFrame, buffer).values).core))
  }

  predicate Throws(s: State, event: Event) {
    Step(s, event).core.None?
  }

  /** The recorder after an event, whether it threw or not. */
  function After(s: State, event: Event): (next: State)
    requires s.core.Some?
    ensures next.core.Some?
  {
    if Throws(s, event) then Poisoned(s, event) else Step(s, event)
  }

  class PostgresRecorder {
    var clientBuffer: Bytes
    var serverBuffer: Bytes
    var phase: Phase
    var prepared: map<Text, Text>
    var currentSql: Text
    var currentParams: Row
    var columns: seq<Column>
    var rows: seq<Row>
    var completed: seq<Interaction>
    var encrypted: bool

    function CoreNow(): Core
      reads this
    {
      Core(prepared, currentSql, currentParams, columns, rows, completed)
    }

    function Now(): State
      reads this
    {
      State(clientBuffer, serverBuffer, phase, Some(CoreNow()))
    }

    /** The flag the summary reports is set exactly on connections that became unreadable. */
    predicate Valid()
      reads this
    {
      encrypted <==> phase == Encrypted
    }

    constructor ()
      ensures Now() == INITIAL && Valid()
    {
      clientBuffer, serverBuffer, phase := [], [], Initial;
      prepared, currentSql, currentParams := map[], [], [];
      columns, rows, completed, encrypted := [], [], [], false;
    }

    method TakeClientFrame(f: Frame) returns (threw: bool)
      modifies `prepared, `currentSql, `currentParams
      ensures var next := HandleClientFrame(old(CoreNow()), f);
              threw == next.None? && CoreNow() == if next.Some? then next.value else Bound(old(CoreNow()), f)
    {
      threw := false;
      if f.kind == QUERY {
        currentSql := ReadCString(f.payload, 0).text;
        currentParams := [];
        return;
      }
      if f.kind == PARSE {
        var s := ReadParse(f.payload);
        prepared := prepared[s.name := s.sql];
        currentSql := s.sql;
        return;
      }
      if f.kind == BIND {
        var statement := ReadBindStatement(f.payload);
        currentSql := if statement in prepared then prepared[statement] else currentSql;
        var params := ReadBindParameters(f.payload);
        if params.None? {
          threw := true;
          return;
        }
        currentParams := params.value;
      }
    }

    method EmitInteraction(response: Response)
      modifies `completed, `columns, `rows
      ensures CoreNow() == Emit(old(CoreNow()), response)
    {
      if currentSql == [] {
        return;
      }
      completed := completed + [Interaction(currentSql, currentParams, response)];
      columns := [];
      rows := [];
    }

    method TakeServerFrame(f: Frame) returns (threw: bool)
      modifies `completed, `columns, `rows
      ensures var next := HandleServerFrame(old(CoreNow()), f);
              threw == next.None? && CoreNow() == if next.Some? then next.value else old(CoreNow())
    {
      threw := false;
      if f.kind == ROW_DESCRIPTION {
        var read := ReadRowDescription(f.payload);
        if read.None? {
          threw := true;
          return;
        }
        columns := read.value;
      } else if f.kind == DATA_ROW {
        var read := ReadDataRow(f.payload);
        if read.None? {
          threw := true;
          return;
        }
        rows := rows + [read.value];
      } else if f.kind == COMMAND_COMPLETE {
        EmitInteraction(Result(columns, rows, ReadCString(f.payload, 0).text));
      } else if f.kind == ERROR_RESPONSE {
        EmitInteraction(Failure(ReadCString(f.payload, 1).text));
      }
    }

    method OnClientData(chunk: Bytes) returns (threw: bool)
      requires Valid()
      modifies this
      ensures threw == Throws(old(Now()), ClientData(chunk)) && Now() == After(old(Now()), ClientData(chunk))
      ensures Valid()
    {
      hide Finish, ReadStartup, From, ClientUntil, ReadFrame, Parse;
      threw := false;
      if phase == Encrypted {
        return;
      }
      clientBuffer := clientBuffer + chunk;
      if phase == Initial {
        var startup := ReadStartup(clientBuffer);
        if startup.Incomplete? {
          return;
        }
        clientBuffer := From(clientBuffer, startup.bytes);
        phase := if startup.SslRequest? then AwaitingSslReply else Running;
      }
      if phase != Running {
        return;
      }
      threw := ReadClientBuffer();
    }

    /** The frame loop over the client's bytes. */
    method ReadClientBuffer() returns (threw: bool)
      modifies `clientBuffer, `prepared, `currentSql, `currentParams
      ensures var next := ClientFrames(old(Now()), old(clientBuffer));
              var until := ClientUntil(old(CoreNow()), Parse(ReadFrame, old(clientBuffer)).values);
              && threw == next.core.None?
              && (!threw ==> Now() == next)
              && (threw ==> clientBuffer == old(clientBuffer) && CoreNow() == until.core)
    {
      hide HandleClientFrame, Finish, ReadFrame, ReadFrameAt, ClientUntil, Bound;
      threw := false;
      var offset := 0;
      ghost var end := Finish(ReadFrame, OnClientFrame, Some(CoreNow()), clientBuffer);
      ghost var until := ClientUntil(CoreNow(), Parse(ReadFrame, clientBuffer).values);
      assert clientBuffer[0..] == clientBuffer;
      while true
        invariant offset <= |clientBuffer|
        invariant Finish(ReadFrame, OnClientFrame, Some(CoreNow()), clientBuffer[offset..]) == end
        invariant ClientUntil(CoreNow(), Parse(ReadFrame, clientBuffer[offset..]).values) == until
        invariant clientBuffer == old(clientBuffer)
        decreases |clientBuffer| - offset
        modifies `prepared, `currentSql, `currentParams
      {
        FrameAtOffset(clientBuffer, offset);
        FinishStep(ReadFrame, OnClientFrame, Some(CoreNow()), clientBuffer[offset..]);
        ClientUntilStep(CoreNow(), clientBuffer[offset..]);
        var frame := ReadFrameAt(clientBuffer, offset);
        if !frame.Done? {
          break;
        }
        assert clientBuffer[offset..][frame.bytes..] == clientBuffer[offset + frame.bytes..];
        threw := TakeClientFrame(frame.value);
        if threw {
          ThrownStays(clientBuffer[offset + frame.bytes..]);
          return;
        }
        offset := offset + frame.bytes;
      }
      clientBuffer := clientBuffer[offset..];
    }

    method OnServerData(chunk: Bytes) returns (threw: bool)
      requires Valid()
      modifies this
      ensures threw == Throws(old(Now()), ServerData(chunk)) && Now() == After(old(Now()), ServerData(chunk))
      ensures Valid()
    {
      hide Finish, ReadStartup, From, ServerUntil, ReadFrame, Parse;
      threw := false;
      if phase == Encrypted {
        return;
      }
      if phase == AwaitingSslReply {
        if |chunk| == 0 {
          return;
        }
        var accepted := chunk[0] == ACCEPTED;
        phase := if accepted then Encrypted else Running;
        encrypted := accepted;
        if accepted {
          return;
        }
        serverBuffer := chunk[1..];
        return;
      }
      serverBuffer := serverBuffer + chunk;
      threw := ReadServerBuffer();
    }

    /** The frame loop over the server's bytes. */
    method ReadServerBuffer() returns (threw: bool)
      modifies `serverBuffer, `completed, `columns, `rows
      ensures var next := ServerFrames(old(Now()), old(serverBuffer));
              var until := ServerUntil(old(CoreNow()), Parse(ReadFrame, old(serverBuffer)).values);
              && threw == next.core.None?
              && (!threw ==> Now() == next)
              && (threw ==> serverBuffer == old(serverBuffer) && CoreNow() == until.core)
    {
      hide HandleServerFrame, Finish, ReadFrame, ReadFrameAt, ServerUntil;
      threw := false;
      var offset := 0;
      ghost var end := Finish(ReadFrame, OnServerFrame, Some(CoreNow()), serverBuffer);
      ghost var until := ServerUntil(CoreNow(), Parse(ReadFrame, serverBuffer).values);
      assert serverBuffer[0..] == serverBuffer;
      while true
        invariant offset <= |serverBuffer|
        invariant Finish(ReadFrame, OnServerFrame, Some(CoreNow()), serverBuffer[offset..]) == end
        invariant ServerUntil(CoreNow(), Parse(ReadFrame, serverBuffer[offset..]).values) == until
        invariant serverBuffer == old(serverBuffer)
        decreases |serverBuffer| - offset
        modifies `completed, `columns, `rows
      {
        FrameAtOffset(serverBuffer, offset);
        FinishStep(ReadFrame, OnServerFrame, Some(CoreNow()), serverBuffer[offset..]);
        ServerUntilStep(CoreNow(), serverBuffer[offset..]);
        var frame := ReadFrameAt(serverBuffer, offset);
        if !frame.Done? {
          break;
        }
        assert serverBuffer[offset..][frame.bytes..] == serverBuffer[offset + frame.bytes..];
        threw := TakeServerFrame(frame.value);
        if threw {
          ThrownStays(serverBuffer[offset + frame.bytes..]);
          return;
        }
        offset := offset + frame.bytes;
      }
      serverBuffer := serverBuffer[offset..];
    }

    method Drain() returns (done: seq<Interaction>)
      modifies `completed
      ensures done == old(completed) && completed == []
    {
      done := completed;
      completed := [];
    }
  }

  /** One turn of the frame loop. */
  lemma {:induction false} ClientUntilStep(core: Core, b: Bytes)
    ensures ReadFrame(b).Done? ==>
              var f, rest := ReadFrame(b).value, Parse(ReadFrame, b[ReadFrame(b).bytes..]).values;
              ClientUntil(core, Parse(ReadFrame, b).values)
              == match HandleClientFrame(core, f)
                 case None => Stop(Bound(core, f), true)
                 case Some(next) => ClientUntil(next, rest)
  {
    hide HandleClientFrame, Bound;
  }

  lemma {:induction false} ServerUntilStep(core: Core, b: Bytes)
    ensures ReadFrame(b).Done? ==>
              var f, rest := ReadFrame(b).value, Parse(ReadFrame, b[ReadFrame(b).bytes..]).values;
              ServerUntil(core, Parse(ReadFrame, b).values)
              == match HandleServerFrame(core, f)
                 case None => Stop(core, true)
                 case Some(next) => ServerUntil(next, rest)
  {
    hide HandleServerFrame;
  }

  lemma {:induction false} FoldThrown(frames: seq<Frame>)
    ensures Fold(OnClientFrame, None, frames) == None
    ensures Fold(OnServerFrame, None, frames) == None
    decreases |frames|
  {
    if frames != [] {
      FoldThrown(frames[1..]);
    }
  }

  lemma {:induction false} ThrownStays(b: Bytes)
    ensures Finish(ReadFrame, OnClientFrame, None, b).state.None?
    ensures Finish(ReadFrame, OnServerFrame, None, b).state.None?
  {
    FoldThrown(Parse(ReadFrame, b).values);
  }

  // ----- where the chunks are cut -----

  lemma {:induction false} ClientFramesSplit(s: State, a: Bytes, b: Bytes)
    ensures var next := ClientFrames(s, s.client + a);
            ClientFrames(s, s.client + (a + b)) == ClientFrames(next, next.client + b)
  {
    hide ReadFrame, OnClientFrame, Finish;
    ReadFrameIsStable();
    FeedSplit(ReadFrame, OnClientFrame, Lane(s.client, s.core), a, b);
  }

  lemma {:induction false} ServerFramesSplit(s: State, a: Bytes, b: Bytes)
    ensures var next := ServerFrames(s, s.server + a);
            ServerFrames(s, s.server + (a + b)) == ServerFrames(next, next.server + b)
  {
    hide ReadFrame, OnServerFrame, Finish;
    ReadFrameIsStable();
    FeedSplit(ReadFrame, OnServerFrame, Lane(s.server, s.core), a, b);
  }

  /** The startup packet is complete: what follows it is read as frames. */
  lemma {:induction false} StartupSplits(s: State, buffer: Bytes, b: Bytes)
    requires KeepsRest(buffer, b) && ReadStartup(buffer).Plain?
    ensures var running := s.(phase := Running);
            var next := ClientFrames(running, From(buffer, ReadStartup(buffer).bytes));
            && ReadStartup(buffer + b) == ReadStartup(buffer)
            && ClientFrames(running, From(buffer + b, ReadStartup(buffer).bytes)) == ClientFrames(next, next.client + b)
  {
    hide ReadStartup, From, KeepsRest, ClientFrames, ReadInt32BE;
    StartupGrows(buffer, b);
    var rest := From(buffer, ReadStartup(buffer).bytes);
    var empty := State([], s.server, Running, s.core);
    ClientFramesSplit(empty, rest, b);
    assert [] + (rest + b) == rest + b && [] + rest == rest;
    ClientIgnored(s.(phase := Running), empty, rest);
    ClientIgnored(s.(phase := Running), empty, rest + b);
  }

  /**
   * Client bytes: in every phase, delivering `a + b` at once or in two parts leaves the same state, as long as what
   * follows the startup packet stays where it is. At a TLS request it does so exactly then.
   */
  lemma {:induction false} ClientChunksMerge(s: State, a: Bytes, b: Bytes)
    ensures (s.phase == Initial ==> KeepsRest(s.client + a, b)) ==>
              Step(s, ClientData(a + b)) == Step(Step(s, ClientData(a)), ClientData(b))
    ensures s.phase == Initial && ReadStartup(s.client + a).SslRequest? ==>
              (Step(s, ClientData(a + b)) == Step(Step(s, ClientData(a)), ClientData(b))
               <==> KeepsRest(s.client + a, b))
  {
    hide ReadStartup, From, Finish, KeepsRest;
    var buffer := s.client + a;
    assert s.client + (a + b) == buffer + b;
    match s.phase
    case Encrypted =>
    case AwaitingSslReply =>
    case Running =>
      ClientFramesSplit(s, a, b);
    case Initial =>
      match ReadStartup(buffer)
      case Incomplete =>
        assert Step(s, ClientData(a)) == s.(client := buffer);
      case SslRequest(_) =>
        StartupGrows(buffer, b);
      case Plain(_) =>
        if KeepsRest(buffer, b) {
          StartupSplits(s, buffer, b);
        }
  }

  /** A startup packet of length -1: whole, the last byte is kept; cut before it, one byte more is. */
  lemma {:induction false} NegativeLengthCut()
    ensures var packet, last := [255, 255, 255, 255, 0, 0, 0, 0], [7];
            && Step(INITIAL, ClientData(packet + last)).client == [7]
            && Step(Step(INITIAL, ClientData(packet)), ClientData(last)).client == [0, 7]
  {
    hide Step, ReadStartup, From, ReadInt32BE;
    var packet, last: Bytes := [255, 255, 255, 255, 0, 0, 0, 0], [7];
    NegativeStartup(packet);
    StartupGrows(packet, last);
    LastOf(packet, [0]);
    LastOf(packet + last, [7]);
    Started(packet);
    Started(packet + last);
    var cut := Step(INITIAL, ClientData(packet));
    assert [0] + last == [0, 7];
    StaysBuffered(cut, last);
  }

  /** A startup packet whose rest is too short for a frame. */
  lemma {:induction false} Started(packet: Bytes)
    requires ReadStartup(packet).Plain? && |From(packet, ReadStartup(packet).bytes)| < 5
    ensures Step(INITIAL, ClientData(packet))
            == INITIAL.(phase := Running, client := From(packet, ReadStartup(packet).bytes))
  {
    hide ReadStartup, From, ReadFrame, OnClientFrame;
    assert [] + packet == packet;
    NoFrame(From(packet, ReadStartup(packet).bytes));
  }

  lemma {:induction false} StaysBuffered(s: State, chunk: Bytes)
    requires s.phase == Running && |s.client + chunk| < 5
    ensures Step(s, ClientData(chunk)).client == s.client + chunk
  {
    hide ReadFrame, OnClientFrame;
    NoFrame(s.client + chunk);
  }

  lemma {:induction false} NegativeStartup(packet: Bytes)
    requires packet == [255, 255, 255, 255, 0, 0, 0, 0]
    ensures ReadStartup(packet) == Plain(-1)
  {
    hide ReadInt32BE;
    MinusOne(packet);
    assert SSL_REQUEST_CODE != 0;
  }

  lemma {:induction false} MinusOne(packet: Bytes)
    requires packet == [255, 255, 255, 255, 0, 0, 0, 0]
    ensures ReadInt32BE(packet, 0) == -1 && ReadInt32BE(packet, 4) == 0
  {
    hide Join32;
    assert packet[0] == 255 && packet[1] == 255 && packet[2] == 255 && packet[3] == 255;
    assert packet[4] == 0 && packet[5] == 0 && packet[6] == 0 && packet[7] == 0;
    Joined();
  }

  lemma {:induction false} Joined()
    ensures Join32(255, 255, 255, 255) == 0xffff_ffff && Join32(0, 0, 0, 0) == 0
  {
  }

  lemma {:induction false} LastOf(b: Bytes, last: Bytes)
    requires |last| == 1 && b != [] && b[|b| - 1] == last[0]
    ensures From(b, -1) == last
  {
  }

  lemma {:induction false} NoFrame(b: Bytes)
    requires |b| < 5
    ensures Parse(ReadFrame, b) == Parsed([], b)
  {
  }

  lemma {:induction false} ClientIgnored(s: State, t: State, buffer: Bytes)
    requires s.(client := []) == t.(client := [])
    ensures ClientFrames(s, buffer) == ClientFrames(t, buffer)
  {
  }

  /** A server chunk that answers a TLS request with anything but 'S'. */
  predicate Refuses(s: State, chunk: Bytes) {
    s.phase == AwaitingSslReply && chunk != [] && chunk[0] != ACCEPTED
  }

  /**
   * Server bytes: cutting a chunk in two changes nothing, except at a refused TLS request, where the frames that
   * arrive in the same chunk as the refusal are left unread. There it changes something exactly when such a frame
   * exists.
   */
  lemma {:induction false} ServerChunksMerge(s: State, a: Bytes, b: Bytes)
    ensures Step(s, ServerData(a + b)) == Step(Step(s, ServerData(a)), ServerData(b))
            <==> (Refuses(s, a) ==> Parse(ReadFrame, a[1..] + b).values == [])
  {
    hide ReadFrame, OnServerFrame;
    assert s.server + (a + b) == (s.server + a) + b;
    ServerFramesSplit(s, a, b);
    if Refuses(s, a) {
      assert (a + b)[1..] == a[1..] + b;
      var rest := a[1..] + b;
      ReadFrameIsStable();
      ParseShrinks(rest);
      var p := Parse(ReadFrame, rest);
      assert Step(s, ServerData(a + b)).server == rest;
      assert Step(Step(s, ServerData(a)), ServerData(b)).server == p.rest;
    } else if s.phase == AwaitingSslReply && a == [] {
      assert a + b == b;
    }
  }

  /** Reading frames uses up bytes: what is left is the whole buffer exactly when no frame was read. */
  lemma {:induction false} ParseShrinks(b: Bytes)
    ensures Parse(ReadFrame, b).rest == b <==> Parse(ReadFrame, b).values == []
  {
  }

  // ----- after a refused TLS request -----

  /** A protocol 3.x startup packet: its own length, the version, and parameters. */
  predicate IsStartupPacket(packet: Bytes) {
    && 8 <= |packet| < 0x80_0000
    && ReadInt32BE(packet, 0) == |packet|
    && packet[4] == 0
  }

  /** The recorder after a TLS request and its refusal. */
  function Refused(request: Bytes, refusal: Bytes): State {
    Step(Step(INITIAL, ClientData(request)), ServerData(refusal))
  }

  lemma {:induction false} RefusedRuns(request: Bytes, refusal: Bytes)
    requires ReadStartup(request) == SslRequest(|request|) && refusal != [] && refusal[0] != ACCEPTED
    ensures Refused(request, refusal) == INITIAL.(phase := Running, server := refusal[1..])
  {
    hide ReadStartup, ClientFrames, ServerFrames;
    assert [] + request == request && From(request, |request|) == [];
  }

  /** A startup packet read as a typed frame: type 0, and a length 256 times the packet's. */
  lemma {:induction false} PacketAsFrame(packet: Bytes, more: Bytes)
    requires IsStartupPacket(packet)
    ensures ReadFrame(packet + more).Done? <==> |packet + more| >= 256 * |packet| + 1
  {
    var buffer := packet + more;
    assert ReadInt32BE(buffer, 0) == ReadInt32BE(packet, 0) == |packet|;
    assert buffer[0] == 0 by {
      assert Join32(buffer[0], buffer[1], buffer[2], buffer[3]) < 0x8000_0000;
    }
    assert ReadInt32BE(buffer, 1) == 256 * |packet|;
  }

  /**
   * A client whose TLS request is refused sends its untyped startup packet next, and the recorder, already running,
   * takes it for a typed frame 256 times as long. Everything the client sends waits unread exactly until 256 bytes for
   * every byte of the packet, and one, have arrived: queries sent before that are not recorded.
   */
  lemma {:induction false} DeafAfterRefusal(request: Bytes, refusal: Bytes, packet: Bytes, more: Bytes)
    requires ReadStartup(request) == SslRequest(|request|) && refusal != [] && refusal[0] != ACCEPTED
    requires IsStartupPacket(packet)
    ensures var s := Refused(request, refusal);
            && s.phase == Running && s.client == []
            && (Step(s, ClientData(packet + more)) == s.(client := packet + more)
                <==> |packet + more| < 256 * |packet| + 1)
  {
    hide ReadFrame, OnClientFrame, Refused;
    var s, buffer := Refused(request, refusal), packet + more;
    RefusedRuns(request, refusal);
    PacketAsFrame(packet, more);
    assert [] + buffer == buffer;
    ParseShrinks(buffer);
    assert Parse(ReadFrame, buffer).values == [] <==> !ReadFrame(buffer).Done? by {
      ReadFrameIsStable();
      assert Settled(ReadFrame, buffer, []);
    }
  }
}
