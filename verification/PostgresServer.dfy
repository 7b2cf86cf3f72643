/**
 * Speaking the backend protocol from a recording: the session and the server loop of
 * src/replay/postgresReplayServer.ts.
 *
 * None as the outcome of handling a frame means that the source throws: a Bind it cannot read, or a recorded result
 * whose counts or sizes do not fit their fields.
 */
module PostgresServers {
  import opened Wire
  import opened Streams
  import opened Words
  import opened PostgresMessages
  import opened PostgresEncoder
  import opened PostgresReplays

  datatype Session = Session(prepared: map<Text, Text>, sql: Text, params: Row, started: bool)

  const FRESH := Session(map[], [], [], false)

  // ----- answers -----

  function RowFrames(rows: seq<Row>): (frames: seq<Frame>)
    requires forall i | 0 <= i < |rows| :: FitsRow(rows[i])
    ensures |frames| == |rows|
  {
    seq(|rows|, i requires 0 <= i < |rows| => DataRow(rows[i]))
  }

  function NotRecorded(sql: Text): Frame {
    ErrorResponse(Ascii("cognivox has no recording for: ") + Normalise(sql))
  }

  /** The messages answering one statement. */
  function AnswerFor(result: Option<RecordedResult>, sql: Text, withDescription: bool): Option<seq<Frame>> {
    if result.None? then Some([NotRecorded(sql)])
    else
      var r := result.value;
      var described := withDescription && r.columns != [];
      if r.error.Some? && r.error.value != [] then Some([ErrorResponse(r.error.value)])
      else if (described && !FitsColumns(r.columns)) || exists i :: 0 <= i < |r.rows| && !FitsRow(r.rows[i]) then None
      else Some((if described then [RowDescription(r.columns)] else []) + RowFrames(r.rows) + [CommandComplete(r.tag)])
  }

  datatype Replied = Replied(session: Session, shelf: Shelf, frames: seq<Frame>)

  function AllWritable(r: Option<Replied>): Option<Replied> {
    if r.Some? && forall i | 0 <= i < |r.value.frames| :: Writable(r.value.frames[i]) then r else None
  }

  function DescriptionOf(result: Option<RecordedResult>): Option<Frame> {
    if result.None? || result.value.columns == [] then Some(NoData())
    else if FitsColumns(result.value.columns) then Some(RowDescription(result.value.columns))
    else None
  }

  /** What one client frame does to the session and the replay, and the frames written back. */
  function Handle(session: Session, shelf: Shelf, f: Frame): Option<Replied> {
    if f.kind == QUERY then
      var next := session.(sql := ReadCString(f.payload, 0).text, params := []);
      var found := ResultFor(shelf, next.sql, next.params);
      match AnswerFor(found.result, next.sql, true)
      case None => None
      case Some(frames) => Some(Replied(next, found.shelf, frames + [ReadyForQuery()]))
    else if f.kind == PARSE then
      var s := ReadParse(f.payload);
      Some(Replied(session.(prepared := session.prepared[s.name := s.sql], sql := s.sql), shelf, [ParseComplete()]))
    else if f.kind == BIND then
      var statement := ReadBindStatement(f.payload);
      var sql := if statement in session.prepared then session.prepared[statement] else session.sql;
      match ReadBindParameters(f.payload)
      case None => None
      case Some(params) => Some(Replied(session.(sql := sql, params := params), shelf, [BindComplete()]))
    else if f.kind == DESCRIBE then
      var found := Peek(shelf, session.sql, session.params);
      match DescriptionOf(found.result)
      case None => None
      case Some(frame) => Some(Replied(session, found.shelf, [frame]))
    else if f.kind == EXECUTE then
      var found := ResultFor(shelf, session.sql, session.params);
      match AnswerFor(found.result, session.sql, false)
      case None => None
      case Some(frames) => Some(Replied(session, found.shelf, frames))
    else if f.kind == SYNC then Some(Replied(session, shelf, [ReadyForQuery()]))
    else Some(Replied(session, shelf, []))
  }

  function Reply(session: Session, shelf: Shelf, f: Frame): (r: Option<Replied>)
    ensures r.Some? ==> forall i | 0 <= i < |r.value.frames| :: Writable(r.value.frames[i])
  {
    AllWritable(Handle(session, shelf, f))
  }

  /** The handshake a driver waits for before it sends anything. */
  function Handshake(): (frames: seq<Frame>)
    ensures forall i | 0 <= i < |frames| :: Writable(frames[i])
  {
    [AuthenticationOk(), ParameterStatus(Ascii("server_version"), Ascii("16.0")),
     ParameterStatus(Ascii("client_encoding"), Ascii("UTF8")), BackendKeyData(), ReadyForQuery()]
  }

  // ----- the connection -----

  datatype Work = Work(session: Session, shelf: Shelf, written: Bytes)

  function OnFrame(w: Option<Work>, f: Frame): Option<Work> {
    if w.None? then None
    else
      match Reply(w.value.session, w.value.shelf, f)
      case None => None
      case Some(r) => Some(Work(r.session, r.shelf, w.value.written + Messages(r.frames)))
  }

  const REFUSED: Bytes := [78]

  /** One chunk: the startup packet first, then frames. A refused TLS request waits for the next chunk. */
  function Serve(lane: Lane<Option<Work>>, chunk: Bytes): Lane<Option<Work>> {
    var buffer := lane.buffered + chunk;
    if lane.state.None? || lane.state.value.session.started then Finish(ReadFrame, OnFrame, lane.state, buffer)
    else
      var w := lane.state.value;
      match ReadStartup(buffer)
      case Incomplete => Lane(buffer, Some(w))
      case SslRequest(bytes) => Lane(From(buffer, bytes), Some(w.(written := w.written + REFUSED)))
      case Plain(bytes) => Finish(ReadFrame, OnFrame, Some(Started(w)), From(buffer, bytes))
  }

  function Started(w: Work): Work {
    Work(w.session.(started := true), w.shelf, w.written + Messages(Handshake()))
  }

  /** The connection at the end of its frames, or at the first frame that throws. */
  function Until(w: Work, frames: seq<Frame>): Work
    decreases |frames|
  {
    if frames == [] then w
    else
      match OnFrame(Some(w), frames[0])
      case None => w
      case Some(next) => Until(next, frames[1..])
  }

  /** What has been written when a chunk has been handled, whether a frame of it throws or not. */
  function WrittenAfter(w: Work, buffered: Bytes, chunk: Bytes): Bytes {
    var buffer := buffered + chunk;
    if w.session.started then Until(w, Parse(ReadFrame, buffer).values).written
    else
      match ReadStartup(buffer)
      case Incomplete => w.written
      case SslRequest(_) => w.written + REFUSED
      case Plain(bytes) => Until(Started(w), Parse(ReadFrame, From(buffer, bytes)).values).written
  }

  class Connection {
    const replay: PostgresReplay
    var prepared: map<Text, Text>
    var sql: Text
    var params: Row
    var started: bool
    var buffered: Bytes
    var written: Bytes

    ghost function WorkNow(): Work
      reads this, replay
    {
      Work(Session(prepared, sql, params, started), replay.Now(), written)
    }

    constructor (replay: PostgresReplay)
      ensures this.replay == replay && buffered == []
      ensures WorkNow() == Work(FRESH, replay.Now(), [])
    {
      this.replay := replay;
      prepared, sql, params, started := map[], [], [], false;
      buffered, written := [], [];
    }

    /** Write frames back, unless one does not fit. */
    method Write(frames: seq<Frame>) returns (threw: bool)
      modifies `written
      ensures threw <==> !forall i | 0 <= i < |frames| :: Writable(frames[i])
      ensures written == if threw then old(written) else old(written) + Messages(frames)
    {
      threw := exists i :: 0 <= i < |frames| && !Writable(frames[i]);
      if !threw {
        written := written + Messages(frames);
      }
    }

    method HandleFrame(f: Frame) returns (threw: bool)
      modifies this, replay, replay.tracker
      ensures buffered == old(buffered)
      ensures var next := OnFrame(Some(old(WorkNow())), f);
              threw == next.None? && (!threw ==> WorkNow() == next.value)
      ensures threw ==> written == old(written)
    {
      hide Messages, ReadCString, ReadBindParameters, ReadBindStatement, ReadParse, ResultFor, Peek;
      hide AnswerFor, DescriptionOf, Writable;
      if f.kind == QUERY {
        sql := ReadCString(f.payload, 0).text;
        params := [];
        var result := replay.FindResult(sql, params);
        var frames := AnswerFor(result, sql, true);
        if frames.None? {
          return true;
        }
        threw := Write(frames.value + [ReadyForQuery()]);
      } else if f.kind == PARSE {
        var s := ReadParse(f.payload);
        prepared := prepared[s.name := s.sql];
        sql := s.sql;
        threw := Write([ParseComplete()]);
      } else if f.kind == BIND {
        var statement := ReadBindStatement(f.payload);
        sql := if statement in prepared then prepared[statement] else sql;
        var read := ReadBindParameters(f.payload);
        if read.None? {
          return true;
        }
        params := read.value;
        threw := Write([BindComplete()]);
      } else if f.kind == DESCRIBE {
        var result := replay.PeekResult(sql, params);
        var frame := DescriptionOf(result);
        if frame.None? {
          return true;
        }
        threw := Write([frame.value]);
      } else if f.kind == EXECUTE {
        var result := replay.FindResult(sql, params);
        var frames := AnswerFor(result, sql, false);
        if frames.None? {
          return true;
        }
        threw := Write(frames.value);
      } else if f.kind == SYNC {
        threw := Write([ReadyForQuery()]);
      } else {
        threw := Write([]);
      }
    }

    /** The frame loop. */
    method ReadBuffer() returns (threw: bool)
      modifies this, replay, replay.tracker
      ensures var next := Finish(ReadFrame, OnFrame, Some(old(WorkNow())), old(buffered));
              threw == next.state.None? && (!threw ==> Lane(buffered, Some(WorkNow())) == next)
      ensures written == Until(old(WorkNow()), Parse(ReadFrame, old(buffered)).values).written
    {
      hide OnFrame, Finish, ReadFrame, ReadFrameAt, Until, Parse;
      var offset := 0;
      ghost var until := Until(WorkNow(), Parse(ReadFrame, buffered).values);
      ghost var end := Finish(ReadFrame, OnFrame, Some(WorkNow()), buffered);
      assert buffered[0..] == buffered;
      while true
        invariant offset <= |buffered| && buffered == old(buffered)
        invariant Finish(ReadFrame, OnFrame, Some(WorkNow()), buffered[offset..]) == end
        invariant Until(WorkNow(), Parse(ReadFrame, buffered[offset..]).values) == until
        decreases |buffered| - offset
      {
        FrameAtOffset(buffered, offset);
        FinishStep(ReadFrame, OnFrame, Some(WorkNow()), buffered[offset..]);
        UntilStep(WorkNow(), buffered[offset..]);
        var frame := ReadFrameAt(buffered, offset);
        if !frame.Done? {
          break;
        }
        assert buffered[offset..][frame.bytes..] == buffered[offset + frame.bytes..];
        threw := HandleFrame(frame.value);
        if threw {
          ThrownStays(buffered[offset + frame.bytes..]);
          return;
        }
        offset := offset + frame.bytes;
      }
      threw := false;
      buffered := buffered[offset..];
    }

    method OnData(chunk: Bytes) returns (threw: bool)
      modifies this, replay, replay.tracker
      ensures var next := Serve(Lane(old(buffered), Some(old(WorkNow()))), chunk);
              threw == next.state.None? && (!threw ==> Lane(buffered, Some(WorkNow())) == next)
      ensures written == WrittenAfter(old(WorkNow()), old(buffered), chunk)
    {
      hide Finish, ReadStartup, From, Messages, Handshake, Until, ReadFrame, Parse;
      threw := false;
      buffered := buffered + chunk;
      if !started {
        var startup := ReadStartup(buffered);
        if startup.Incomplete? {
          return;
        }
        if startup.SslRequest? {
          written := written + REFUSED;
          buffered := From(buffered, startup.bytes);
          return;
        }
        written := written + Messages(Handshake());
        started := true;
        buffered := From(buffered, startup.bytes);
      }
      threw := ReadBuffer();
    }
  }

  /** One turn of the frame loop. */
  lemma {:induction false} UntilStep(w: Work, b: Bytes)
    ensures ReadFrame(b).Done? ==>
              var rest := Parse(ReadFrame, b[ReadFrame(b).bytes..]).values;
              Until(w, Parse(ReadFrame, b).values)
              == match OnFrame(Some(w), ReadFrame(b).value)
                 case None => w
                 case Some(next) => Until(next, rest)
    ensures !ReadFrame(b).Done? ==> Until(w, Parse(ReadFrame, b).values) == w
  {
    hide OnFrame;
  }

  lemma {:induction false} FoldThrown(frames: seq<Frame>)
    ensures Fold(OnFrame, None, frames) == None
    decreases |frames|
  {
    if frames != [] {
      FoldThrown(frames[1..]);
    }
  }

  lemma {:induction false} ThrownStays(b: Bytes)
    ensures Finish(ReadFrame, OnFrame, None, b).state.None?
  {
    FoldThrown(Parse(ReadFrame, b).values);
  }
}
