/**
 * What each frame of the PostgreSQL protocol does, by its bytes: to the replay server
 * (src/replay/postgresReplayServer.ts) and to the recorder (src/record/protocols/postgresRecorder.ts).
 */
module PostgresAnswers {
  import opened Wire
  import opened Streams
  import opened Words
  import opened Playback
  import opened Statements
  import opened PostgresMessages
  import opened PostgresEncoder
  import opened PostgresLayout
  import opened PostgresReplays
  import Server = PostgresServers
  import Recorder = PostgresRecorders

  // ----- texts without zeros -----

  /** No statement of a session holds a zero byte. */
  ghost predicate IsClean(s: Server.Session) {
    NoZero(s.sql) && forall name | name in s.prepared :: NoZero(s.prepared[name])
  }

  lemma {:induction false} ReadsNoZero(payload: Bytes, offset: nat)
    ensures NoZero(ReadCString(payload, offset).text)
  {
    NoZeroUpTo(payload, offset);
  }

  lemma {:induction false} NoZeroUpTo(b: Bytes, offset: nat)
    ensures match ZeroAt(b, offset)
            case Some(end) => forall i | offset <= i < end :: b[i] != 0
            case None => forall i | offset <= i < |b| :: b[i] != 0
    decreases |b| - offset
  {
    if offset < |b| && b[offset] != 0 {
      NoZeroUpTo(b, offset + 1);
    }
  }

  /** A session that starts out clean stays so, whatever the client sends. */
  lemma {:induction false} StaysClean(s: Server.Session, shelf: Shelf, f: Frame)
    requires IsClean(s)
    ensures IsClean(Server.FRESH)
    ensures var r := Server.Reply(s, shelf, f); r.Some? ==> IsClean(r.value.session)
  {
    hide ReadCString, NoZero, ReadBindParameters, Server.AnswerFor, Server.DescriptionOf, ResultFor, Peek;
    ReadsNoZero(f.payload, 0);
    ReadsNoZero(f.payload, ReadCString(f.payload, 0).next);
    NothingIsClean();
  }

  lemma {:induction false} NothingIsClean()
    ensures NoZero([])
  {
  }

  lemma {:induction false} JoinIsClean(words: seq<Text>)
    requires forall i | 0 <= i < |words| :: NoZero(words[i])
    ensures NoZero(Join(words))
    decreases |words|
  {
    if |words| > 1 {
      JoinIsClean(words[1..]);
    }
  }

  lemma {:induction false} WordsAreClean(t: Text)
    requires NoZero(t)
    ensures forall i | 0 <= i < |WordsOf(t)| :: NoZero(WordsOf(t)[i])
    decreases |t|
  {
    hide SpaceEnd, WordEnd;
    if t != [] {
      if IsSpace(t[0]) {
        WordsAreClean(t[SpaceEnd(t)..]);
      } else {
        WordsAreClean(t[WordEnd(t)..]);
      }
    }
  }

  // ----- answers to a statement -----

  /** One error whose message is `message`. */
  predicate IsError(g: seq<Frame>, message: Text) {
    |g| == 1 && g[0].kind == 69 && FieldIn(g[0].payload, 77, 0) == Some(message)
  }

  /** The columns as they are told: the recorded names and type OIDs, 25 where none was recorded. */
  predicate IsDescription(f: Frame, columns: seq<Column>) {
    && f.kind == 84
    && var told := ReadRowDescription(f.payload);
       && told.Some? && |told.value| == |columns|
       && forall i | 0 <= i < |columns| ::
            && told.value[i].name == columns[i].name
            && told.value[i].typeOid == Some(if columns[i].typeOid.Some? then columns[i].typeOid.value else 25)
  }

  /** The recorded rows, in order, and then the recorded tag. */
  predicate AreRows(g: seq<Frame>, r: RecordedResult) {
    && |g| == |r.rows| + 1
    && (forall i | 0 <= i < |r.rows| :: g[i].kind == 68 && ReadDataRow(g[i].payload) == Some(r.rows[i]))
    && g[|r.rows|] == Frame(67, r.tag + [0])
  }

  predicate IsResult(g: seq<Frame>, r: RecordedResult, described: bool) {
    if described && r.columns != [] then g != [] && IsDescription(g[0], r.columns) && AreRows(g[1..], r)
    else AreRows(g, r)
  }

  /** What a statement is answered from the result that is due to it, if one is. */
  predicate IsDue(g: seq<Frame>, due: Option<RecordedResult>, sql: Text, described: bool) {
    if due.None? then IsError(g, Ascii("cognivox has no recording for: ") + Join(WordsOf(sql)))
    else if due.value.error.Some? && due.value.error.value != [] then IsError(g, due.value.error.value)
    else IsResult(g, due.value, described)
  }

  /** The names of columns, and the text of an error, hold no zero byte. */
  predicate HasCleanTexts(r: RecordedResult) {
    && (forall i | 0 <= i < |r.columns| :: NoZero(r.columns[i].name))
    && (r.error.Some? ==> NoZero(r.error.value))
  }

  lemma {:induction false} ErrorIsError(text: Text)
    requires NoZero(text)
    ensures IsError([ErrorResponse(text)], text)
  {
    hide ErrorResponse, FieldIn;
    ErrorIs(text, 77);
  }

  lemma {:induction false} DescriptionIsTold(columns: seq<Column>)
    requires FitsColumns(columns) && forall i | 0 <= i < |columns| :: NoZero(columns[i].name)
    ensures IsDescription(RowDescription(columns), columns)
  {
    hide ReadRowDescription, FitsColumn, ColumnsBytes, NoZero;
    RowDescriptionRoundTrip(columns);
  }

  lemma {:induction false} RowsAreRows(r: RecordedResult)
    requires forall i | 0 <= i < |r.rows| :: FitsRow(r.rows[i])
    ensures AreRows(Server.RowFrames(r.rows) + [CommandComplete(r.tag)], r)
  {
    hide ReadDataRow, FitsRow;
    forall i | 0 <= i < |r.rows|
      ensures var f := DataRow(r.rows[i]); f.kind == 68 && ReadDataRow(f.payload) == Some(r.rows[i])
    {
      DataRowRoundTrip(r.rows[i]);
    }
  }

  lemma {:induction false} ResultIsResult(r: RecordedResult, described: bool)
    requires described && r.columns != [] ==> FitsColumns(r.columns)
    requires HasCleanTexts(r) && forall i | 0 <= i < |r.rows| :: FitsRow(r.rows[i])
    ensures var head := if described && r.columns != [] then [RowDescription(r.columns)] else [];
            IsResult(head + Server.RowFrames(r.rows) + [CommandComplete(r.tag)], r, described)
  {
    hide AreRows, IsDescription, FitsRow, FitsColumns, NoZero, Server.RowFrames;
    RowsAreRows(r);
    var rows := Server.RowFrames(r.rows) + [CommandComplete(r.tag)];
    if described && r.columns != [] {
      DescriptionIsTold(r.columns);
      var g := [RowDescription(r.columns)] + Server.RowFrames(r.rows) + [CommandComplete(r.tag)];
      assert g[1..] == rows;
    } else {
      assert [] + Server.RowFrames(r.rows) + [CommandComplete(r.tag)] == rows;
    }
  }

  lemma {:induction false} AnswerIsDue(due: Option<RecordedResult>, sql: Text, described: bool)
    requires NoZero(sql) && (due.Some? ==> HasCleanTexts(due.value))
    ensures var a := Server.AnswerFor(due, sql, described); a.Some? ==> IsDue(a.value, due, sql, described)
    ensures due.None? ==> Server.AnswerFor(due, sql, described).Some?
  {
    hide IsError, IsResult, Normalise, WordsOf, Join, ErrorResponse, FitsRow, FitsColumns, Server.RowFrames;
    if due.None? {
      NormaliseJoins(sql);
      WordsAreClean(sql);
      JoinIsClean(WordsOf(sql));
      PrefixIsClean(Join(WordsOf(sql)));
      ErrorIsError(Ascii("cognivox has no recording for: ") + Join(WordsOf(sql)));
    } else if due.value.error.Some? && due.value.error.value != [] {
      ErrorIsError(due.value.error.value);
    } else if Server.AnswerFor(due, sql, described).Some? {
      ResultIsResult(due.value, described);
    }
  }

  lemma {:induction false} PrefixIsClean(t: Text)
    requires NoZero(t)
    ensures NoZero(Ascii("cognivox has no recording for: ") + t)
  {
    var s := "cognivox has no recording for: ";
    assert forall i | 0 <= i < |s| :: s[i] as int != 0;
  }

  /** The statement a Query or an Execute asks to be run. */
  function AskedBy(s: Server.Session, f: Frame): Call {
    if f.kind == 81 then Execute(ReadCString(f.payload, 0).text, []) else Execute(s.sql, s.params)
  }

  /** The frames that answer the statement: those of a Query are followed by readiness. */
  function AnswerIn(f: Frame, frames: seq<Frame>): seq<Frame> {
    if f.kind == 81 && frames != [] then frames[..|frames| - 1] else frames
  }

  ghost predicate AreClean(entries: seq<Entry>) {
    forall i | 0 <= i < |entries| && entries[i].Postgres? :: HasCleanTexts(entries[i].result)
  }

  lemma {:induction false} CleanLogs(entries: seq<Entry>)
    requires AreClean(entries)
    ensures forall i | 0 <= i < |SignatureLog(entries)| :: HasCleanTexts(SignatureLog(entries)[i].1)
    ensures forall i | 0 <= i < |SqlLog(entries)| :: HasCleanTexts(SqlLog(entries)[i].1)
    decreases |entries|
  {
    hide HasCleanTexts, SignatureOf, Normalise;
    if entries != [] {
      CleanLogs(entries[..|entries| - 1]);
    }
  }

  lemma {:induction false} DueIsClean(entries: seq<Entry>, calls: seq<Call>, call: Call)
    requires AreClean(entries)
    ensures var due := Expected(entries, calls, call); due.Some? ==> HasCleanTexts(due.value)
  {
    hide HasCleanTexts, SignatureOf, Normalise, Count, SignatureLog, SqlLog, Filed, AreClean;
    CleanLogs(entries);
    var exact, loose := SignatureLog(entries), SqlLog(entries);
    var key := if Filed(exact, SignatureOfCall(call)) != [] then SignatureOfCall(call) else Normalise(call.sql);
    if Filed(exact, SignatureOfCall(call)) != [] {
      NthIsFiled(exact, key, Count(Signatures(calls), key));
    } else if Filed(loose, key) != [] {
      NthIsFiled(loose, key, Count(Fallbacks(entries, calls), key));
    }
  }

  lemma {:induction false} NthIsFiled(log: seq<(Text, RecordedResult)>, key: Text, k: nat)
    requires Filed(log, key) != []
    ensures exists i :: 0 <= i < |log| && log[i].1 == Nth(Filed(log, key), k)
  {
    hide Filed;
    var n := |Filed(log, key)|;
    var i := FiledFrom(log, key, if k < n then k else n - 1);
  }

  lemma {:induction false} ExecuteFinds(entries: seq<Entry>, calls: seq<Call>, call: Call)
    requires call.Execute?
    ensures var found := ResultFor(Run(Load(entries), calls).shelf, call.sql, call.params);
            && found.result == Expected(entries, calls, call)
            && found.shelf == Run(Load(entries), calls + [call]).shelf
  {
    hide Load, Expected, ResultFor, InStep;
    ExecuteGets(entries, calls, call);
    assert (calls + [call])[..|calls|] == calls;
  }

  lemma {:induction false} DescribeFinds(entries: seq<Entry>, calls: seq<Call>, call: Call)
    requires call.Describe?
    ensures var found := Peek(Run(Load(entries), calls).shelf, call.sql, call.params);
            && found.result == Expected(entries, calls, call)
            && found.shelf == Run(Load(entries), calls + [call]).shelf
  {
    hide Load, Expected, Peek, InStep;
    ExecuteGets(entries, calls, call);
    assert (calls + [call])[..|calls|] == calls;
  }

  /**
   * Over any calls on any recording: a Query and an Execute are answered with what is due to their statement. That is
   * its recorded rows and tag, or its recorded error; and where nothing is due it is one error that quotes the
   * statement, and never rows or a tag. Nothing due is always answered, unless the statement fills a whole message.
   */
  lemma {:induction false} StatementIsAnswered(entries: seq<Entry>, calls: seq<Call>, s: Server.Session, f: Frame)
    requires f.kind in {81, 69} && IsClean(s) && AreClean(entries)
    ensures var call, shelf := AskedBy(s, f), Run(Load(entries), calls).shelf;
            var due, r := Expected(entries, calls, call), Server.Reply(s, shelf, f);
            && (r.Some? ==>
                  && IsDue(AnswerIn(f, r.value.frames), due, call.sql, f.kind == 81)
                  && r.value.shelf == Run(Load(entries), calls + [call]).shelf
                  && (f.kind == 81 ==> r.value.frames == AnswerIn(f, r.value.frames) + [Frame(90, [73])]))
            && (due.None? && |Join(WordsOf(call.sql))| < 0x7fff_ff00 ==> r.Some?)
  {
    hide Load, Expected, IsDue, ReadCString, Server.AnswerFor, ResultFor, Run, AreClean, NoZero, WordsOf, Join;
    hide Writable;
    var call, shelf := AskedBy(s, f), Run(Load(entries), calls).shelf;
    var due := Expected(entries, calls, call);
    ReadsNoZero(f.payload, 0);
    ExecuteFinds(entries, calls, call);
    DueIsClean(entries, calls, call);
    AnswerIsDue(due, call.sql, f.kind == 81);
    var a := Server.AnswerFor(due, call.sql, f.kind == 81);
    if a.Some? {
      assert (a.value + [ReadyForQuery()])[..|a.value|] == a.value;
    }
    if due.None? && |Join(WordsOf(call.sql))| < 0x7fff_ff00 {
      RefusalFits(call.sql, f.kind == 81);
    }
  }

  lemma {:induction false} RefusalFits(sql: Text, described: bool)
    requires |Join(WordsOf(sql))| < 0x7fff_ff00
    ensures var a := Server.AnswerFor(None, sql, described);
            a.Some? && |a.value| == 1 && Writable(a.value[0]) && Writable(ReadyForQuery())
  {
    NormaliseJoins(sql);
    hide Normalise, WordsOf, Join;
  }

  /** A Describe tells the columns of the result that is due to its statement, or that there are none. */
  lemma {:induction false} DescribeIsAnswered(entries: seq<Entry>, calls: seq<Call>, s: Server.Session, f: Frame)
    requires f.kind == 68 && AreClean(entries)
    ensures var call, shelf := Describe(s.sql, s.params), Run(Load(entries), calls).shelf;
            var due, r := Expected(entries, calls, call), Server.Reply(s, shelf, f);
            r.Some? ==>
              && |r.value.frames| == 1 && r.value.session == s
              && (if due.None? || due.value.columns == [] then r.value.frames[0] == Frame(110, [])
                  else IsDescription(r.value.frames[0], due.value.columns))
              && r.value.shelf == Run(Load(entries), calls + [call]).shelf
  {
    hide Load, Expected, IsDescription, Peek, Run, AreClean, NoZero, Writable, FitsColumns, RowDescription;
    var call := Describe(s.sql, s.params);
    var due := Expected(entries, calls, call);
    DescribeFinds(entries, calls, call);
    DueIsClean(entries, calls, call);
    if due.Some? && due.value.columns != [] && Server.DescriptionOf(due).Some? {
      DescriptionIsTold(due.value.columns);
    }
  }

  /**
   * A Parse names its statement, a Bind takes a named statement, or keeps the last where the name is unknown, with its
   * parameters, and both are acknowledged; a Sync is answered with readiness, and any other frame with nothing.
   */
  lemma {:induction false} OthersAreAnswered(s: Server.Session, shelf: Shelf, name: Text, sql: Text, portal: Text,
          formats: Bytes, codes: Bytes, count: Bytes, b: Bytes, params: Row, rest: Bytes, f: Frame)
    requires NoZero(name) && NoZero(sql) && NoZero(portal) && |formats| == 2 && |codes| == 2 * Place16(formats)
    requires |count| == 2 && Place16(count) == |params| && AreValues(b, params)
    ensures Server.Reply(s, shelf, Frame(80, name + [0] + sql + [0] + rest))
            == Some(Server.Replied(s.(prepared := s.prepared[name := sql], sql := sql), shelf, [Frame(49, [])]))
    ensures Server.Reply(s, shelf, Frame(66, portal + [0] + name + [0] + formats + codes + count + b + rest))
            == Some(Server.Replied(s.(sql := if name in s.prepared then s.prepared[name] else s.sql, params := params),
                                   shelf, [Frame(50, [])]))
    ensures f.kind == 83 ==> Server.Reply(s, shelf, f) == Some(Server.Replied(s, shelf, [Frame(90, [73])]))
    ensures f.kind !in {81, 80, 66, 68, 69, 83} ==> Server.Reply(s, shelf, f) == Some(Server.Replied(s, shelf, []))
  {
    hide ReadParse, ReadBindStatement, ReadBindParameters, ReadCString, AreValues, Place16, NoZero;
    TextsAre(name, sql, rest);
    BindIs(portal, name, formats, codes, count, b, params, rest);
  }

  // ----- what the recorder takes from a frame -----

  /** What a client frame leaves: the statement being run, its parameters, and the statements prepared. */
  lemma {:induction false} ClientFrameIs(core: Recorder.Core, name: Text, sql: Text, portal: Text, formats: Bytes,
          codes: Bytes, count: Bytes, b: Bytes, params: Row, rest: Bytes, f: Frame)
    requires NoZero(name) && NoZero(sql) && NoZero(portal) && |formats| == 2 && |codes| == 2 * Place16(formats)
    requires |count| == 2 && Place16(count) == |params| && AreValues(b, params)
    ensures Recorder.HandleClientFrame(core, Frame(81, sql + [0] + rest)) == Some(core.(sql := sql, params := []))
    ensures Recorder.HandleClientFrame(core, Frame(80, name + [0] + sql + [0] + rest))
            == Some(core.(prepared := core.prepared[name := sql], sql := sql))
    ensures Recorder.HandleClientFrame(core, Frame(66, portal + [0] + name + [0] + formats + codes + count + b + rest))
            == Some(core.(sql := if name in core.prepared then core.prepared[name] else core.sql, params := params))
    ensures f.kind !in {81, 80, 66} ==> Recorder.HandleClientFrame(core, f) == Some(core)
  {
    hide ReadParse, ReadBindStatement, ReadBindParameters, ReadCString, AreValues, Place16, NoZero;
    TextsAre(name, sql, rest);
    BindIs(portal, name, formats, codes, count, b, params, rest);
  }

  /** A result that ends while a statement is being run is recorded with it, and one that ends before any is not. */
  function Ended(core: Recorder.Core, response: Recorder.Response): Recorder.Core {
    if core.sql == [] then core
    else Recorder.Core(core.prepared, core.sql, core.params, [], [],
                       core.completed + [Recorder.Interaction(core.sql, core.params, response)])
  }

  /** What a server frame leaves: columns, one more row, a finished result, a failure, or nothing. */
  lemma {:induction false} ServerFrameIs(core: Recorder.Core, count: Bytes, parts: seq<Bytes>, columns: seq<Column>,
          b: Bytes, row: Row, text: Text, field: byte, rest: Bytes, f: Frame)
    requires |count| == 2 && NoZero(text)
    ensures Place16(count) == |columns| && AreColumns(parts, columns) ==>
              Recorder.HandleServerFrame(core, Frame(84, count + Concat(parts) + rest))
              == Some(core.(columns := columns))
    ensures Place16(count) == |row| && AreValues(b, row) ==>
              Recorder.HandleServerFrame(core, Frame(68, count + b + rest)) == Some(core.(rows := core.rows + [row]))
    ensures Recorder.HandleServerFrame(core, Frame(67, text + [0] + rest))
            == Some(Ended(core, Recorder.Result(core.columns, core.rows, text)))
    ensures Recorder.HandleServerFrame(core, Frame(69, [field] + text + [0] + rest))
            == Some(Ended(core, Recorder.Failure(text)))
    ensures f.kind !in {84, 68, 67, 69} ==> Recorder.HandleServerFrame(core, f) == Some(core)
  {
    hide ReadRowDescription, ReadDataRow, ReadCString, AreValues, AreColumns, Place16, NoZero, Concat;
    if Place16(count) == |columns| && AreColumns(parts, columns) {
      DescriptionIs(count, parts, columns, rest);
    }
    if Place16(count) == |row| && AreValues(b, row) {
      RowIs(count, b, row, rest);
    }
    ReadCStringOf([], text, rest);
    assert [] + CStringOf(text) + rest == text + [0] + rest;
    ReadCStringOf([field], text, rest);
    assert [field] + CStringOf(text) + rest == [field] + text + [0] + rest;
  }

  /** After a TLS request the server's next byte decides: `S`, and nothing more is read; else frames follow. */
  lemma {:induction false} TlsIs(s: Recorder.State, answer: byte, more: Bytes, event: Recorder.Event)
    requires s.phase == Recorder.AwaitingSslReply
    ensures var next := Recorder.Step(s, Recorder.ServerData([answer] + more));
            if answer == 83 then next == s.(phase := Recorder.Encrypted) && Recorder.Step(next, event) == next
            else next == s.(phase := Recorder.Running, server := more)
  {
    hide Recorder.ClientFrames, Recorder.ServerFrames;
    assert ([answer] + more)[1..] == more;
  }

  /**
   * The server's side of opening a connection. A TLS request is refused with one byte, and what follows it waits for
   * the next chunk; any other first packet is greeted, and what follows it is read as frames.
   */
  lemma {:induction false} OpeningIs(shelf: Shelf, size: Bytes, code: Bytes, rest: Bytes)
    requires |size| == 4 && |code| == 4 && 8 <= Place32(size) <= 8 + |rest|
    ensures var start, b := Server.Work(Server.FRESH, shelf, []), size + code + rest;
            var next := Server.Serve(Lane([], Some(start)), b);
            if code == [4, 210, 22, 47] then next == Lane(b[Place32(size)..], Some(start.(written := [78])))
            else next == Finish(ReadFrame, Server.OnFrame,
                                Some(Server.Work(Server.FRESH.(started := true), shelf, Messages(Server.Handshake()))),
                                b[Place32(size)..])
  {
    hide Finish, ReadStartup, Server.Handshake, Messages, Place32;
    var b := size + code + rest;
    assert [] + b == b;
    assert [] + Server.REFUSED == [78] && [] + Messages(Server.Handshake()) == Messages(Server.Handshake());
    StartupIs(size, code, rest);
  }
}
