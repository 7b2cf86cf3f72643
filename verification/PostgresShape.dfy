/**
 * The shape of everything the Postgres replay server writes, for any client stream in any chunks.
 */
module PostgresShape {
  import opened Wire
  import opened Streams
  import opened PostgresMessages
  import opened PostgresEncoder
  import opened PostgresReplays
  import opened PostgresServers

  // ----- where the chunks are cut -----

  function ServeAll(lane: Lane<Option<Work>>, chunks: seq<Bytes>): Lane<Option<Work>>
    decreases |chunks|
  {
    if chunks == [] then lane else ServeAll(Serve(lane, chunks[0]), chunks[1..])
  }

  /** A connection past its startup packet. */
  predicate Open(lane: Lane<Option<Work>>) {
    lane.state.Some? ==> lane.state.value.session.started
  }

  /** The stream opens, or has opened, with a startup packet that does not ask for TLS. */
  predicate OpensPlainly(lane: Lane<Option<Work>>, more: Bytes) {
    !Open(lane) ==> SaneStartup(lane.buffered + more) && !ReadStartup(lane.buffered + more).SslRequest?
  }

  lemma {:induction false} HandleKeepsStarted(session: Session, shelf: Shelf, f: Frame)
    ensures var r := Reply(session, shelf, f); r.Some? ==> r.value.session.started == session.started
  {
    hide ReadCString, ReadBindParameters, ReadBindStatement, ReadParse, AnswerFor, DescriptionOf, ResultFor, Peek;
  }

  lemma {:induction false} FoldKeepsOpen(w: Option<Work>, frames: seq<Frame>)
    requires w.Some? ==> w.value.session.started
    ensures var end := Fold(OnFrame, w, frames); end.Some? ==> end.value.session.started
    decreases |frames|
  {
    hide Reply;
    if frames != [] {
      if w.Some? {
        HandleKeepsStarted(w.value.session, w.value.shelf, frames[0]);
      }
      FoldKeepsOpen(OnFrame(w, frames[0]), frames[1..]);
    }
  }

  /** Reading frames keeps an open connection open, and reads `buffer + b` as `buffer`, then `b`. */
  lemma {:induction false} FinishSplit(w: Option<Work>, buffer: Bytes, b: Bytes)
    requires w.Some? ==> w.value.session.started
    ensures var next := Finish(ReadFrame, OnFrame, w, buffer);
            Open(next) && Finish(ReadFrame, OnFrame, w, buffer + b) == Serve(next, b)
  {
    hide ReadFrame, OnFrame;
    ReadFrameIsStable();
    FeedSplit(ReadFrame, OnFrame, Lane([], w), buffer, b);
    assert [] + (buffer + b) == buffer + b && [] + buffer == buffer;
    FoldKeepsOpen(w, Parse(ReadFrame, buffer).values);
  }

  lemma {:induction false} ServeSplit(lane: Lane<Option<Work>>, a: Bytes, b: Bytes)
    requires OpensPlainly(lane, a + b)
    ensures Serve(lane, a + b) == Serve(Serve(lane, a), b)
    ensures OpensPlainly(Serve(lane, a), b)
  {
    hide Finish, ReadStartup, From, SaneStartup;
    var buffer := lane.buffered + a;
    assert lane.buffered + (a + b) == buffer + b;
    if Open(lane) {
      FinishSplit(lane.state, buffer, b);
    } else if ReadStartup(buffer).Incomplete? {
      assert Serve(lane, a) == Lane(buffer, lane.state);
    } else {
      SaneKeepsRest(buffer, b);
      StartupGrows(buffer, b);
      FinishSplit(Some(Started(lane.state.value)), From(buffer, ReadStartup(buffer).bytes), b);
    }
  }

  lemma {:induction false} NothingToServe(lane: Lane<Option<Work>>, a: Bytes)
    requires OpensPlainly(lane, a)
    ensures Serve(Serve(lane, a), []) == Serve(lane, a)
  {
    hide Serve;
    assert a + [] == a;
    ServeSplit(lane, a, []);
  }

  /** A stream that opens plainly is served alike however it is cut. */
  lemma {:induction false} ServedWhole(lane: Lane<Option<Work>>, chunks: seq<Bytes>)
    requires Serve(lane, []) == lane && OpensPlainly(lane, Concat(chunks))
    ensures ServeAll(lane, chunks) == Serve(lane, Concat(chunks))
    decreases |chunks|
  {
    hide Serve, OpensPlainly;
    if chunks != [] {
      var rest := Concat(chunks[1..]);
      ServeSplit(lane, chunks[0], rest);
      OpensPlainlyPrefix(lane, chunks[0], rest);
      NothingToServe(lane, chunks[0]);
      ServedWhole(Serve(lane, chunks[0]), chunks[1..]);
    }
  }

  lemma {:induction false} OpensPlainlyPrefix(lane: Lane<Option<Work>>, a: Bytes, b: Bytes)
    requires OpensPlainly(lane, a + b)
    ensures OpensPlainly(lane, a)
  {
  }

  // ----- what is written -----

  /** Any number of rows, then the command tag. */
  predicate IsRows(g: seq<Frame>) {
    g != [] && g[|g| - 1].kind == COMMAND_COMPLETE && forall i | 0 <= i < |g| - 1 :: g[i].kind == DATA_ROW
  }

  /** An error alone, or rows, behind their description if it is wanted and there is one. */
  predicate IsAnswer(g: seq<Frame>, withDescription: bool) {
    || (|g| == 1 && g[0].kind == ERROR_RESPONSE)
    || IsRows(g)
    || (withDescription && g != [] && g[0].kind == ROW_DESCRIPTION && IsRows(g[1..]))
  }

  /** What one client frame is answered with. */
  predicate Answers(kind: byte, g: seq<Frame>) {
    if kind == QUERY then g != [] && g[|g| - 1].kind == READY_FOR_QUERY && IsAnswer(g[..|g| - 1], true)
    else if kind == PARSE then g == [ParseComplete()]
    else if kind == BIND then g == [BindComplete()]
    else if kind == DESCRIBE then |g| == 1 && (g[0].kind == ROW_DESCRIPTION || g[0].kind == NO_DATA)
    else if kind == EXECUTE then IsAnswer(g, false)
    else if kind == SYNC then g == [ReadyForQuery()]
    else g == []
  }

  function Flat(groups: seq<seq<Frame>>): seq<Frame> {
    if groups == [] then [] else groups[0] + Flat(groups[1..])
  }

  predicate Sendable(frames: seq<Frame>) {
    forall i | 0 <= i < |frames| :: Writable(frames[i])
  }

  lemma {:induction false} AnswerShape(result: Option<RecordedResult>, sql: Text, withDescription: bool)
    ensures var a := AnswerFor(result, sql, withDescription);
            a.Some? ==> IsAnswer(a.value, withDescription)
  {
  }

  lemma {:induction false} ReplyShape(session: Session, shelf: Shelf, f: Frame)
    ensures var r := Reply(session, shelf, f); r.Some? ==> Answers(f.kind, r.value.frames)
  {
    hide ReadCString, ReadBindParameters, ReadBindStatement, ReadParse, AnswerFor, ResultFor, Peek;
    var r := Reply(session, shelf, f);
    if r.Some? && f.kind == QUERY {
      var next := session.(sql := ReadCString(f.payload, 0).text, params := []);
      var found := ResultFor(shelf, next.sql, next.params);
      AnswerShape(found.result, next.sql, true);
      var frames := AnswerFor(found.result, next.sql, true).value;
      assert r.value.frames == frames + [ReadyForQuery()];
      assert (frames + [ReadyForQuery()])[..|frames|] == frames;
    } else if r.Some? && f.kind == EXECUTE {
      AnswerShape(ResultFor(shelf, session.sql, session.params).result, session.sql, false);
    }
  }

  /** The answers of a run of client frames, one group for each, and their bytes. */
  lemma {:induction false} Conversation(w: Work, frames: seq<Frame>) returns (groups: seq<seq<Frame>>)
    requires Fold(OnFrame, Some(w), frames).Some?
    ensures |groups| == |frames| && Sendable(Flat(groups))
    ensures forall i | 0 <= i < |frames| :: Answers(frames[i].kind, groups[i])
    ensures Fold(OnFrame, Some(w), frames).value.written == w.written + Messages(Flat(groups))
    decreases |frames|
  {
    hide Reply, Answers, Writable, Messages;
    if frames == [] {
      groups := [];
      NoMessages();
      assert w.written + [] == w.written;
    } else {
      var next := OnFrame(Some(w), frames[0]);
      if next.None? {
        FoldThrown(frames[1..]);
      }
      var r := Reply(w.session, w.shelf, frames[0]).value;
      ReplyShape(w.session, w.shelf, frames[0]);
      var rest := Conversation(next.value, frames[1..]);
      groups := [r.frames] + rest;
      assert groups[1..] == rest;
      MessagesAppend(r.frames, Flat(rest));
      forall i | 0 <= i < |frames| ensures Answers(frames[i].kind, groups[i]) {
        assert 0 < i ==> frames[i] == frames[1..][i - 1] && groups[i] == rest[i - 1];
      }
    }
  }

  lemma {:induction false} NoMessages()
    ensures Messages([]) == []
  {
  }

  /** The groups of a conversation make up everything written after the handshake. */
  ghost predicate Spoken(frames: seq<Frame>, groups: seq<seq<Frame>>, written: Bytes) {
    && |groups| == |frames|
    && (forall i | 0 <= i < |frames| :: Answers(frames[i].kind, groups[i]))
    && Parse(ReadFrame, written) == Parsed(Handshake() + Flat(groups), [])
  }

  /** The connection as it starts out, and the frames of a stream after its startup packet. */
  function Fresh(shelf: Shelf): Lane<Option<Work>> {
    Lane([], Some(Work(FRESH, shelf, [])))
  }

  predicate PlainStream(stream: Bytes) {
    SaneStartup(stream) && ReadStartup(stream).Plain?
  }

  function FramesAfterStartup(stream: Bytes): seq<Frame>
    requires PlainStream(stream)
  {
    Parse(ReadFrame, From(stream, ReadStartup(stream).bytes)).values
  }

  lemma {:induction false} FreshWaits(shelf: Shelf)
    ensures Serve(Fresh(shelf), []) == Fresh(shelf)
  {
    hide ReadStartup, From, Finish, Started;
    NoStartup();
    assert Fresh(shelf).buffered + [] == [];
  }

  lemma {:induction false} FreshOpens(shelf: Shelf, stream: Bytes)
    requires PlainStream(stream)
    ensures OpensPlainly(Fresh(shelf), stream)
    ensures Serve(Fresh(shelf), stream)
            == Finish(ReadFrame, OnFrame, Some(Started(Fresh(shelf).state.value)),
                      From(stream, ReadStartup(stream).bytes))
  {
    hide ReadStartup, From, Finish, Started, SaneStartup;
    assert Fresh(shelf).buffered + stream == stream;
  }

  lemma {:induction false} ServedFresh(shelf: Shelf, chunks: seq<Bytes>)
    requires PlainStream(Concat(chunks))
    ensures ServeAll(Fresh(shelf), chunks)
            == Lane(Parse(ReadFrame, From(Concat(chunks), ReadStartup(Concat(chunks)).bytes)).rest,
                    Fold(OnFrame, Some(Started(Fresh(shelf).state.value)), FramesAfterStartup(Concat(chunks))))
  {
    hide ReadStartup, From, ServeAll, OnFrame, Started, OpensPlainly, PlainStream, Serve, Fresh, Parse, Fold;
    FreshWaits(shelf);
    FreshOpens(shelf, Concat(chunks));
    ServedWhole(Fresh(shelf), chunks);
  }

  // ----- up to a frame that throws -----

  /** How many frames are answered: all of them, or those before the first that throws. */
  function Handled(w: Work, frames: seq<Frame>): (n: nat)
    ensures n <= |frames|
    decreases |frames|
  {
    if frames == [] then 0
    else
      match OnFrame(Some(w), frames[0])
      case None => 0
      case Some(next) => 1 + Handled(next, frames[1..])
  }

  lemma {:induction false} UntilIsFold(w: Work, frames: seq<Frame>)
    ensures Fold(OnFrame, Some(w), frames[..Handled(w, frames)]) == Some(Until(w, frames))
    ensures Handled(w, frames) == |frames| <==> Fold(OnFrame, Some(w), frames).Some?
    decreases |frames|
  {
    hide OnFrame;
    if frames != [] {
      var next := OnFrame(Some(w), frames[0]);
      if next.None? {
        StopsHere(frames[1..]);
      } else {
        UntilIsFold(next.value, frames[1..]);
        var n := Handled(next.value, frames[1..]);
        assert frames[..1 + n][1..] == frames[1..][..n];
      }
    }
  }

  lemma {:induction false} StopsHere(frames: seq<Frame>)
    ensures Fold(OnFrame, None, frames).None?
  {
    FoldThrown(frames);
  }

  lemma {:induction false} UntilAppend(w: Work, xs: seq<Frame>, ys: seq<Frame>)
    ensures var end := Fold(OnFrame, Some(w), xs);
            Until(w, xs + ys) == if end.Some? then Until(end.value, ys) else Until(w, xs)
    decreases |xs|
  {
    hide OnFrame;
    if xs == [] {
      assert xs + ys == ys;
    } else {
      assert (xs + ys)[1..] == xs[1..] + ys;
      var next := OnFrame(Some(w), xs[0]);
      if next.None? {
        StopsHere(xs[1..]);
      } else {
        UntilAppend(next.value, xs[1..], ys);
      }
    }
  }

  /** Reading `buffer + b`, or `buffer` and then `b` behind its rest: what has been written is the same. */
  lemma {:induction false} UntilSplit(w: Work, buffer: Bytes, b: Bytes)
    requires w.session.started
    ensures var next, all := Finish(ReadFrame, OnFrame, Some(w), buffer), Until(w, Parse(ReadFrame, buffer + b).values);
            && (next.state.Some? ==>
                  && next.state.value.session.started
                  && all.written == WrittenAfter(next.state.value, next.buffered, b))
            && (next.state.None? ==> all == Until(w, Parse(ReadFrame, buffer).values))
  {
    hide ReadFrame, OnFrame, Until;
    ReadFrameIsStable();
    ParseSplit(ReadFrame, buffer, b);
    var p := Parse(ReadFrame, buffer);
    UntilAppend(w, p.values, Parse(ReadFrame, p.rest + b).values);
    FoldKeepsOpen(Some(w), p.values);
  }

  /** The same from any state of a stream that opens plainly. */
  lemma {:induction false} WrittenSplit(w: Work, buffered: Bytes, a: Bytes, b: Bytes)
    requires OpensPlainly(Lane(buffered, Some(w)), a + b)
    ensures var next := Serve(Lane(buffered, Some(w)), a);
            WrittenAfter(w, buffered, a + b)
            == if next.state.Some? then WrittenAfter(next.state.value, next.buffered, b)
               else WrittenAfter(w, buffered, a)
  {
    hide Finish, ReadStartup, From, SaneStartup, Until, ReadFrame, Parse;
    var buffer := buffered + a;
    assert buffered + (a + b) == buffer + b;
    if w.session.started {
      UntilSplit(w, buffer, b);
    } else if ReadStartup(buffer).Incomplete? {
      assert Serve(Lane(buffered, Some(w)), a) == Lane(buffer, Some(w));
    } else {
      SaneKeepsRest(buffer, b);
      StartupGrows(buffer, b);
      UntilSplit(Started(w), From(buffer, ReadStartup(buffer).bytes), b);
    }
  }

  /** Everything a connection has written when the chunks have arrived, a frame that throws in them or not. */
  function StreamWritten(w: Work, buffered: Bytes, chunks: seq<Bytes>): Bytes
    decreases |chunks|
  {
    if chunks == [] then w.written
    else
      var next := Serve(Lane(buffered, Some(w)), chunks[0]);
      if next.state.None? then WrittenAfter(w, buffered, chunks[0])
      else StreamWritten(next.state.value, next.buffered, chunks[1..])
  }

  /** While nothing throws, that is what the connection has written. */
  lemma {:induction false} WrittenIsServed(w: Work, buffered: Bytes, chunks: seq<Bytes>)
    ensures var end := ServeAll(Lane(buffered, Some(w)), chunks);
            end.state.Some? ==> StreamWritten(w, buffered, chunks) == end.state.value.written
    decreases |chunks|
  {
    hide Serve, WrittenAfter;
    if chunks != [] {
      var next := Serve(Lane(buffered, Some(w)), chunks[0]);
      if next.state.Some? {
        WrittenIsServed(next.state.value, next.buffered, chunks[1..]);
      } else {
        NeverServed(next, chunks[1..]);
      }
    }
  }

  lemma {:induction false} NeverServed(lane: Lane<Option<Work>>, chunks: seq<Bytes>)
    requires lane.state.None?
    ensures ServeAll(lane, chunks).state.None?
    decreases |chunks|
  {
    hide ReadFrame, OnFrame;
    if chunks != [] {
      FoldThrown(Parse(ReadFrame, lane.buffered + chunks[0]).values);
      NeverServed(Serve(lane, chunks[0]), chunks[1..]);
    }
  }

  /** However the stream is cut, the same bytes have been written. */
  lemma {:induction false} WrittenWhole(w: Work, buffered: Bytes, chunks: seq<Bytes>)
    requires Serve(Lane(buffered, Some(w)), []) == Lane(buffered, Some(w))
    requires WrittenAfter(w, buffered, []) == w.written
    requires OpensPlainly(Lane(buffered, Some(w)), Concat(chunks))
    ensures StreamWritten(w, buffered, chunks) == WrittenAfter(w, buffered, Concat(chunks))
    decreases |chunks|
  {
    hide Serve, OpensPlainly, WrittenAfter;
    if chunks != [] {
      var lane, rest := Lane(buffered, Some(w)), Concat(chunks[1..]);
      var next := Serve(lane, chunks[0]);
      WrittenSplit(w, buffered, chunks[0], rest);
      if next.state.Some? {
        ServeSplit(lane, chunks[0], rest);
        OpensPlainlyPrefix(lane, chunks[0], rest);
        NothingToServe(lane, chunks[0]);
        NothingWritten(next);
        WrittenWhole(next.state.value, next.buffered, chunks[1..]);
      }
    }
  }

  lemma {:induction false} NothingWritten(lane: Lane<Option<Work>>)
    requires lane.state.Some? && Serve(lane, []) == lane
    ensures WrittenAfter(lane.state.value, lane.buffered, []) == lane.state.value.written
  {
    hide ReadStartup, From, ReadFrame, OnFrame, Parse, Handshake, Messages;
    var w, buffer := lane.state.value, lane.buffered + [];
    if w.session.started {
      UntilIsFold(w, Parse(ReadFrame, buffer).values);
      var frames := Parse(ReadFrame, buffer).values;
      assert frames[..|frames|] == frames;
    } else if ReadStartup(buffer).Plain? {
      FoldKeepsOpen(Some(Started(w)), Parse(ReadFrame, From(buffer, ReadStartup(buffer).bytes)).values);
    }
  }

  /**
   * For any recording and any client stream that opens with a plain startup packet, in any chunks: everything written
   * parses into whole messages, the handshake and then one well-shaped answer for each client frame, in order, up to
   * the first frame that makes the source throw, if there is one.
   */
  lemma {:induction false} StreamShape(shelf: Shelf, chunks: seq<Bytes>)
    requires PlainStream(Concat(chunks))
    ensures var frames := FramesAfterStartup(Concat(chunks));
            var n := Handled(Started(Work(FRESH, shelf, [])), frames);
            var written := StreamWritten(Work(FRESH, shelf, []), [], chunks);
            && (exists groups :: Spoken(frames[..n], groups, written))
            && (n == |frames| <==> ServeAll(Fresh(shelf), chunks).state.Some?)
            && (n == |frames| ==> written == ServeAll(Fresh(shelf), chunks).state.value.written)
  {
    hide Handshake, PlainStream, FramesAfterStartup, Messages, OnFrame, ReadFrame, Answers, ServeAll, Parse, Handled;
    hide Serve, WrittenAfter, StreamWritten, Until, ReadStartup, From;
    var w, stream := Work(FRESH, shelf, []), Concat(chunks);
    var start, frames := Started(w), FramesAfterStartup(stream);
    var n := Handled(start, frames);
    ServedFresh(shelf, chunks);
    UntilIsFold(start, frames);
    WrittenIsServed(w, [], chunks);
    FreshWaits(shelf);
    NothingWritten(Fresh(shelf));
    FreshOpens(shelf, stream);
    WrittenWhole(w, [], chunks);
    FreshWrites(w, stream);
    var groups := Conversation(start, frames[..n]);
    MessagesAppend(Handshake(), Flat(groups));
    assert [] + Messages(Handshake()) == Messages(Handshake());
    ParseMessages(Handshake() + Flat(groups));
    assert Spoken(frames[..n], groups, StreamWritten(w, [], chunks));
  }

  lemma {:induction false} FreshWrites(w: Work, stream: Bytes)
    requires PlainStream(stream) && !w.session.started
    ensures WrittenAfter(w, [], stream) == Until(Started(w), FramesAfterStartup(stream)).written
  {
    hide ReadStartup, From, Until, ReadFrame, SaneStartup;
    assert [] + stream == stream;
  }

  lemma {:induction false} NoStartup()
    ensures ReadStartup([]).Incomplete?
  {
  }

  // ----- ReadyForQuery -----

  function CountKind(frames: seq<Frame>, kind: byte): nat {
    if frames == [] then 0 else (if frames[0].kind == kind then 1 else 0) + CountKind(frames[1..], kind)
  }

  lemma {:induction false} CountKindAppend(xs: seq<Frame>, ys: seq<Frame>, kind: byte)
    ensures CountKind(xs + ys, kind) == CountKind(xs, kind) + CountKind(ys, kind)
    decreases |xs|
  {
    if xs == [] {
      assert xs + ys == ys;
    } else {
      assert (xs + ys)[1..] == xs[1..] + ys;
      CountKindAppend(xs[1..], ys, kind);
    }
  }

  lemma {:induction false} RowsAreNotReady(g: seq<Frame>)
    requires forall i | 0 <= i < |g| :: g[i].kind != READY_FOR_QUERY
    ensures CountKind(g, READY_FOR_QUERY) == 0
    decreases |g|
  {
    if g != [] {
      RowsAreNotReady(g[1..]);
    }
  }

  lemma {:induction false} AnswerIsNotReady(g: seq<Frame>, withDescription: bool)
    requires IsAnswer(g, withDescription)
    ensures CountKind(g, READY_FOR_QUERY) == 0
  {
    forall i | 0 <= i < |g| ensures g[i].kind != READY_FOR_QUERY {
      assert !IsRows(g) && 0 < i ==> g[i] == g[1..][i - 1];
    }
    RowsAreNotReady(g);
  }

  lemma {:induction false} ReadyInAnswer(kind: byte, g: seq<Frame>)
    requires Answers(kind, g)
    ensures CountKind(g, READY_FOR_QUERY) == if kind == QUERY || kind == SYNC then 1 else 0
  {
    hide IsAnswer;
    if kind == QUERY {
      AnswerIsNotReady(g[..|g| - 1], true);
      CountKindAppend(g[..|g| - 1], [g[|g| - 1]], READY_FOR_QUERY);
      assert g == g[..|g| - 1] + [g[|g| - 1]];
    } else if kind == EXECUTE {
      AnswerIsNotReady(g, false);
    }
  }

  /** ReadyForQuery is sent once for the startup, once for every Query, once for every Sync, and never otherwise. */
  lemma {:induction false} ReadyOncePerTurn(frames: seq<Frame>, groups: seq<seq<Frame>>)
    requires |groups| == |frames| && forall i | 0 <= i < |frames| :: Answers(frames[i].kind, groups[i])
    ensures CountKind(Handshake() + Flat(groups), READY_FOR_QUERY)
            == 1 + CountKind(frames, QUERY) + CountKind(frames, SYNC)
    decreases |frames|
  {
    hide Answers;
    CountKindAppend(Handshake(), Flat(groups), READY_FOR_QUERY);
    if frames == [] {
      HandshakeIsReady();
    } else {
      CountKindAppend(groups[0], Flat(groups[1..]), READY_FOR_QUERY);
      CountKindAppend(Handshake(), Flat(groups[1..]), READY_FOR_QUERY);
      ReadyInAnswer(frames[0].kind, groups[0]);
      ReadyOncePerTurn(frames[1..], groups[1..]);
    }
  }

  lemma {:induction false} HandshakeIsReady()
    ensures CountKind(Handshake(), READY_FOR_QUERY) == 1
  {
  }
}
