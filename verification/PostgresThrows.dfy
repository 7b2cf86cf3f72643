/**
 * The PostgreSQL recorder and frames it cannot read: what the exception the relay swallows leaves behind, and what the
 * chunks after it do.
 */
module PostgresThrows {
  import opened Wire
  import opened Streams
  import opened PostgresMessages
  import opened PostgresRecorders

  // ----- runs of frames -----

  /** A frame a reader throws on, whatever the recorder holds. */
  predicate Unreadable(f: Frame) {
    || (f.kind == ROW_DESCRIPTION && ReadRowDescription(f.payload).None?)
    || (f.kind == DATA_ROW && ReadDataRow(f.payload).None?)
  }

  lemma {:induction false} UnreadableThrows(core: Core, f: Frame)
    ensures HandleServerFrame(core, f).None? <==> Unreadable(f)
  {
  }

  lemma {:induction false} ServerUntilAppend(core: Core, xs: seq<Frame>, ys: seq<Frame>)
    ensures var u := ServerUntil(core, xs);
            ServerUntil(core, xs + ys) == if u.threw then u else ServerUntil(u.core, ys)
    decreases |xs|
  {
    hide HandleServerFrame;
    if xs == [] {
      assert xs + ys == ys;
    } else {
      assert (xs + ys)[1..] == xs[1..] + ys;
      var next := HandleServerFrame(core, xs[0]);
      if next.Some? {
        ServerUntilAppend(next.value, xs[1..], ys);
      }
    }
  }

  lemma {:induction false} ClientUntilAppend(core: Core, xs: seq<Frame>, ys: seq<Frame>)
    ensures var u := ClientUntil(core, xs);
            ClientUntil(core, xs + ys) == if u.threw then u else ClientUntil(u.core, ys)
    decreases |xs|
  {
    hide HandleClientFrame, Bound;
    if xs == [] {
      assert xs + ys == ys;
    } else {
      assert (xs + ys)[1..] == xs[1..] + ys;
      var next := HandleClientFrame(core, xs[0]);
      if next.Some? {
        ClientUntilAppend(next.value, xs[1..], ys);
      }
    }
  }

  /** Whether a run of frames throws does not depend on what the recorder holds. */
  lemma {:induction false} ThrowsAlike(a: Core, b: Core, frames: seq<Frame>)
    ensures ServerUntil(a, frames).threw == ServerUntil(b, frames).threw
    ensures ClientUntil(a, frames).threw == ClientUntil(b, frames).threw
    decreases |frames|
  {
    hide Bound, Emit;
    if frames != [] {
      UnreadableThrows(a, frames[0]);
      UnreadableThrows(b, frames[0]);
      var ca, cb := HandleClientFrame(a, frames[0]), HandleClientFrame(b, frames[0]);
      var sa, sb := HandleServerFrame(a, frames[0]), HandleServerFrame(b, frames[0]);
      assert ca.None? <==> cb.None?;
      hide HandleClientFrame, HandleServerFrame, Unreadable;
      ThrowsAlike(if sa.Some? then sa.value else a, if sb.Some? then sb.value else b, frames[1..]);
      ThrowsAlike(if ca.Some? then ca.value else a, if cb.Some? then cb.value else b, frames[1..]);
    }
  }

  lemma {:induction false} FoldIsUntil(core: Core, frames: seq<Frame>)
    ensures Fold(OnServerFrame, Some(core), frames)
            == var u := ServerUntil(core, frames); if u.threw then None else Some(u.core)
    ensures Fold(OnClientFrame, Some(core), frames)
            == var u := ClientUntil(core, frames); if u.threw then None else Some(u.core)
    decreases |frames|
  {
    hide HandleServerFrame, HandleClientFrame, Bound;
    if frames != [] {
      var s, c := HandleServerFrame(core, frames[0]), HandleClientFrame(core, frames[0]);
      FoldThrown(frames[1..]);
      if s.Some? {
        FoldIsUntil(s.value, frames[1..]);
      }
      if c.Some? {
        FoldIsUntil(c.value, frames[1..]);
      }
    }
  }

  // ----- one side as a stream -----

  /** The recorder reads the server's bytes as frames. */
  predicate ReadsServer(s: State) {
    s.core.Some? && (s.phase == Running || s.phase == Initial)
  }

  predicate ReadsClient(s: State) {
    s.core.Some? && s.phase == Running
  }

  function FramesIn(b: Bytes): seq<Frame> {
    Parse(ReadFrame, b).values
  }

  /** What one event on the server's side does. */
  lemma {:induction false} ServerAfter(s: State, chunk: Bytes)
    requires ReadsServer(s)
    ensures var u, buffer := ServerUntil(s.core.value, FramesIn(s.server + chunk)), s.server + chunk;
            && Throws(s, ServerData(chunk)) == u.threw
            && After(s, ServerData(chunk))
               == s.(server := if u.threw then buffer else Parse(ReadFrame, buffer).rest, core := Some(u.core))
  {
    hide ServerUntil, ReadFrame, OnServerFrame, Parse;
    FoldIsUntil(s.core.value, FramesIn(s.server + chunk));
  }

  lemma {:induction false} ClientAfter(s: State, chunk: Bytes)
    requires ReadsClient(s)
    ensures var u, buffer := ClientUntil(s.core.value, FramesIn(s.client + chunk)), s.client + chunk;
            && Throws(s, ClientData(chunk)) == u.threw
            && After(s, ClientData(chunk))
               == s.(client := if u.threw then buffer else Parse(ReadFrame, buffer).rest, core := Some(u.core))
  {
    hide ClientUntil, ReadFrame, OnClientFrame, Parse;
    FoldIsUntil(s.core.value, FramesIn(s.client + chunk));
  }

  lemma {:induction false} FramesSplit(buffered: Bytes, a: Bytes, b: Bytes)
    ensures var p := Parse(ReadFrame, buffered + a);
            && FramesIn(buffered + (a + b)) == p.values + FramesIn(p.rest + b)
            && Parse(ReadFrame, buffered + (a + b)).rest == Parse(ReadFrame, p.rest + b).rest
            && (p.rest + b == buffered + (a + b) <==> p.values == [])
  {
    hide ReadFrame;
    ReadFrameIsStable();
    ParseSplit(ReadFrame, buffered + a, b);
    assert buffered + (a + b) == buffered + a + b;
    ParseShrinks(buffered + a);
  }

  /**
   * Server bytes, with frames that throw. If `a` is read and `a + b` throws, cutting behind `a` leaves the same results
   * and a shorter buffer: the same one exactly when `a` completes no frame. If `a` throws, so does every chunk after
   * it, and the frames before the bad one are handled once more for each.
   */
  lemma {:induction false} ServerCut(s: State, a: Bytes, b: Bytes)
    requires ReadsServer(s)
    ensures var whole, first := After(s, ServerData(a + b)), After(s, ServerData(a));
            var second := After(first, ServerData(b));
            && (!Throws(s, ServerData(a)) && !Throws(s, ServerData(a + b)) ==> whole == second)
            && (!Throws(s, ServerData(a)) && Throws(s, ServerData(a + b)) ==>
                  whole.core == second.core && (whole == second <==> FramesIn(s.server + a) == []))
            && (Throws(s, ServerData(a)) ==>
                  && Throws(s, ServerData(a + b)) && Throws(first, ServerData(b))
                  && whole.core == first.core && whole.server == second.server == s.server + (a + b)
                  && second.core == Some(ServerUntil(first.core.value, FramesIn(s.server + a)).core)
                  && (whole == second <==> second.core == first.core))
  {
    hide ServerUntil, ReadFrame, Parse, FramesIn, Step;
    var core, p := s.core.value, Parse(ReadFrame, s.server + a);
    FramesAre(s.server + a);
    FramesSplit(s.server, a, b);
    ServerAfter(s, a);
    ServerAfter(s, a + b);
    var first := After(s, ServerData(a));
    ServerAfter(first, b);
    ServerUntilAppend(core, p.values, FramesIn(p.rest + b));
    assert s.server + a + b == s.server + (a + b);
    ServerUntilAppend(first.core.value, p.values, FramesIn(p.rest + b));
    ThrowsAlike(core, first.core.value, p.values);
  }

  lemma {:induction false} RunningCut(s: State, a: Bytes, b: Bytes)
    requires ReadsClient(s)
    ensures var whole, first := After(s, ClientData(a + b)), After(s, ClientData(a));
            var second := After(first, ClientData(b));
            && (!Throws(s, ClientData(a)) && !Throws(s, ClientData(a + b)) ==> whole == second)
            && (!Throws(s, ClientData(a)) && Throws(s, ClientData(a + b)) ==>
                  whole.core == second.core && (whole == second <==> FramesIn(s.client + a) == []))
            && (Throws(s, ClientData(a)) ==>
                  && Throws(s, ClientData(a + b)) && Throws(first, ClientData(b))
                  && whole.core == first.core && whole.client == second.client == s.client + (a + b)
                  && second.core == Some(ClientUntil(first.core.value, FramesIn(s.client + a)).core)
                  && (whole == second <==> second.core == first.core))
  {
    hide ClientUntil, ReadFrame, Parse, FramesIn, Step;
    var core, p := s.core.value, Parse(ReadFrame, s.client + a);
    FramesAre(s.client + a);
    FramesSplit(s.client, a, b);
    ClientAfter(s, a);
    ClientAfter(s, a + b);
    var first := After(s, ClientData(a));
    ClientAfter(first, b);
    ClientUntilAppend(core, p.values, FramesIn(p.rest + b));
    assert s.client + a + b == s.client + (a + b);
    ClientUntilAppend(first.core.value, p.values, FramesIn(p.rest + b));
    ThrowsAlike(core, first.core.value, p.values);
  }

  /** The frames that are read when `chunk` arrives: none before the startup packet is whole. */
  function ClientFramesIn(s: State, chunk: Bytes): seq<Frame> {
    if s.phase == Running || (s.phase == Initial && ReadStartup(s.client + chunk).Plain?) then
      FramesIn(ToRead(s, chunk))
    else []
  }

  /**
   * What cutting the client's bytes behind `a` does. If `a` is read and `a + b` throws, the cut leaves the same core,
   * and a shorter buffer unless `a` completes no frame. If `a` throws, so does every chunk after it, and the frames
   * before the bad one are handled once more for each.
   */
  ghost predicate CutLaw(s: State, a: Bytes, b: Bytes)
    requires s.core.Some?
  {
    var whole, first := After(s, ClientData(a + b)), After(s, ClientData(a));
    var second := After(first, ClientData(b));
    && (!Throws(s, ClientData(a)) && !Throws(s, ClientData(a + b)) ==> whole == second)
    && (!Throws(s, ClientData(a)) && Throws(s, ClientData(a + b)) ==>
          whole.core == second.core && (whole == second <==> ClientFramesIn(s, a) == []))
    && (Throws(s, ClientData(a)) ==>
          && Throws(s, ClientData(a + b)) && Throws(first, ClientData(b))
          && whole.core == first.core && whole.client == second.client == ToRead(s, a) + b
          && second.core == Some(ClientUntil(first.core.value, ClientFramesIn(s, a)).core)
          && (whole == second <==> second.core == first.core))
  }

  lemma {:induction false} StartedAfter(s: State, chunk: Bytes)
    requires s.core.Some? && s.phase == Initial && ReadStartup(s.client + chunk).Plain?
    ensures Step(s, ClientData(chunk)) == ClientFrames(s.(phase := Running), ToRead(s, chunk))
  {
    hide ReadStartup, From, ClientFrames, ReadInt32BE;
  }

  lemma {:induction false} RunningAfter(s: State, chunk: Bytes)
    requires ReadsClient(s)
    ensures Step(s, ClientData(chunk)) == ClientFrames(s, s.client + chunk) && ToRead(s, chunk) == s.client + chunk
  {
    hide ClientFrames;
  }

  lemma {:induction false} ToReadGrows(s: State, a: Bytes, b: Bytes)
    requires s.phase == Initial && ReadStartup(s.client + a).Plain? && KeepsRest(s.client + a, b)
    ensures ReadStartup(s.client + (a + b)).Plain? && ToRead(s, a + b) == ToRead(s, a) + b
  {
    hide ReadStartup, From, KeepsRest, ReadInt32BE;
    StartupGrows(s.client + a, b);
    assert s.client + (a + b) == s.client + a + b;
  }

  /** Once the startup packet is there, the recorder goes on as one that runs with the bytes behind it. */
  lemma {:induction false} AfterStartup(s: State, a: Bytes, b: Bytes)
    requires s.core.Some? && s.phase == Initial && ReadStartup(s.client + a).Plain? && KeepsRest(s.client + a, b)
    ensures var running := State(ToRead(s, a), s.server, Running, s.core);
            && After(s, ClientData(a + b)) == After(running, ClientData(b))
            && Throws(s, ClientData(a + b)) == Throws(running, ClientData(b))
  {
    var running := State(ToRead(s, a), s.server, Running, s.core);
    ToReadGrows(s, a, b);
    StartedAfter(s, a + b);
    RunningAfter(running, b);
    hide Step, ReadStartup, ToRead, KeepsRest, ReadInt32BE, ReadFrame, Parse, ClientUntil;
    ClientIgnored(s.(phase := Running), running, ToRead(s, a) + b);
    hide ClientFrames;
  }

  /** A cut that falls together with one of a running recorder obeys the same law. */
  lemma {:induction false} CutTogether(s: State, a: Bytes, b: Bytes, running: State)
    requires s.core.Some? && ReadsClient(running) && ToRead(s, a) == running.client
    requires ClientFramesIn(s, a) == FramesIn(running.client)
    requires After(s, ClientData(a)) == After(running, ClientData([]))
    requires Throws(s, ClientData(a)) == Throws(running, ClientData([]))
    requires After(s, ClientData(a + b)) == After(running, ClientData(b))
    requires Throws(s, ClientData(a + b)) == Throws(running, ClientData(b))
    ensures CutLaw(s, a, b)
  {
    hide ClientFramesIn, FramesIn, After, Throws, ToRead, ClientUntil, ReadsClient;
    RunningCut(running, [], b);
    assert [] + b == b && running.client + [] == running.client;
  }

  lemma {:induction false} StartupCut(s: State, a: Bytes, b: Bytes)
    requires s.core.Some? && s.phase == Initial && ReadStartup(s.client + a).Plain? && KeepsRest(s.client + a, b)
    ensures CutLaw(s, a, b)
  {
    hide ReadStartup, ReadInt32BE, FramesIn, After, ToRead, Throws, CutLaw;
    var running := State(ToRead(s, a), s.server, Running, s.core);
    assert KeepsRest(s.client + a, []);
    hide KeepsRest;
    AfterStartup(s, a, b);
    AfterStartup(s, a, []);
    assert a + [] == a;
    CutTogether(s, a, b, running);
  }

  /** Client bytes, in every phase, wherever they are cut, as long as what follows the startup packet stays in place. */
  lemma {:induction false} ClientCut(s: State, a: Bytes, b: Bytes)
    requires s.core.Some? && (s.phase == Initial ==> KeepsRest(s.client + a, b))
    ensures CutLaw(s, a, b)
  {
    hide ReadStartup, ReadInt32BE, From, ClientUntil, ReadFrame, Parse, FramesIn, CutLaw;
    match s.phase
    case Running => CutWhileRunning(s, a, b);
    case Initial =>
      if ReadStartup(s.client + a).Plain? {
        StartupCut(s, a, b);
      } else {
        CutBefore(s, a, b);
      }
    case AwaitingSslReply => CutBefore(s, a, b);
    case Encrypted => CutBefore(s, a, b);
  }

  lemma {:induction false} CutWhileRunning(s: State, a: Bytes, b: Bytes)
    requires ReadsClient(s)
    ensures CutLaw(s, a, b)
  {
    hide ClientUntil, ReadFrame, Parse, FramesIn, Step, After, Throws;
    RunningCut(s, a, b);
    assert s.client + (a + b) == s.client + a + b;
  }

  /** Where `a` brings no frame to be read, it does not matter whether it came alone. */
  lemma {:induction false} CutBefore(s: State, a: Bytes, b: Bytes)
    requires s.core.Some? && s.phase != Running && !(s.phase == Initial && ReadStartup(s.client + a).Plain?)
    requires s.phase == Initial ==> KeepsRest(s.client + a, b)
    ensures CutLaw(s, a, b)
  {
    hide ReadStartup, ReadInt32BE, From, ClientUntil, ReadFrame, Parse, KeepsRest, Fold;
    assert s.client + (a + b) == s.client + a + b;
    if s.phase == Initial && ReadStartup(s.client + a).SslRequest? {
      StartupGrows(s.client + a, b);
    }
  }

  lemma {:induction false} FramesAre(b: Bytes)
    ensures FramesIn(b) == Parse(ReadFrame, b).values
  {
  }

  // ----- results recorded again -----

  /** The results that end before the first frame that throws. */
  function Ends(frames: seq<Frame>): nat
    decreases |frames|
  {
    if frames == [] || Unreadable(frames[0]) then 0
    else (if frames[0].kind == COMMAND_COMPLETE || frames[0].kind == ERROR_RESPONSE then 1 else 0) + Ends(frames[1..])
  }

  /** While a statement is being answered, every such result is recorded. */
  lemma {:induction false} EndsAreRecorded(core: Core, frames: seq<Frame>)
    requires core.sql != []
    ensures var u := ServerUntil(core, frames).core;
            && u.sql == core.sql && core.completed <= u.completed
            && |u.completed| == |core.completed| + Ends(frames)
    decreases |frames|
  {
    hide Unreadable, ReadRowDescription, ReadDataRow;
    if frames != [] {
      UnreadableThrows(core, frames[0]);
      var next := HandleServerFrame(core, frames[0]);
      if next.Some? {
        EndsAreRecorded(next.value, frames[1..]);
      }
    }
  }

  function Served(s: State, chunks: seq<Bytes>): (next: State)
    requires s.core.Some?
    ensures next.core.Some?
  {
    if chunks == [] then s else After(Served(s, chunks[..|chunks| - 1]), ServerData(chunks[|chunks| - 1]))
  }

  /**
   * One frame that cannot be read, and the side never recovers: every chunk after it throws, nothing leaves the buffer,
   * and the results that came before the bad frame are recorded again for each of them.
   */
  lemma {:induction false} RecordedAgain(s: State, chunk: Bytes, more: seq<Bytes>)
    requires ReadsServer(s) && s.core.value.sql != [] && Throws(s, ServerData(chunk))
    ensures var end, frames := Served(After(s, ServerData(chunk)), more), FramesIn(s.server + chunk);
            && end == s.(server := s.server + chunk + Concat(more), core := end.core)
            && end.core.value.sql == s.core.value.sql
            && |end.core.value.completed| == |s.core.value.completed| + (1 + |more|) * Ends(frames)
            && forall next :: Throws(end, ServerData(next))
    decreases |more|
  {
    hide ServerUntil, ReadFrame, Parse, FramesIn, Step, Ends, After, Concat;
    var frames := FramesIn(s.server + chunk);
    if more == [] {
      ServerAfter(s, chunk);
      EndsAreRecorded(s.core.value, frames);
      assert Concat([]) == [] by {
        ConcatNone();
      }
      assert s.server + chunk + [] == s.server + chunk;
      forall next ensures Throws(After(s, ServerData(chunk)), ServerData(next)) {
        ServerCut(s, chunk, next);
      }
    } else {
      var n := |more| - 1;
      RecordedAgain(s, chunk, more[..n]);
      var before := Served(After(s, ServerData(chunk)), more[..n]);
      HandledAgain(s, chunk, before, Concat(more[..n]), more[n], frames);
      ConcatOneMore(more);
      Distribute(1 + n, Ends(frames));
      assert s.server + chunk + (Concat(more[..n]) + more[n]) == s.server + chunk + Concat(more[..n]) + more[n];
    }
  }

  lemma {:induction false} ConcatNone()
    ensures Concat([]) == []
  {
  }

  lemma {:induction false} ConcatOneMore(chunks: seq<Bytes>)
    requires chunks != []
    ensures Concat(chunks) == Concat(chunks[..|chunks| - 1]) + chunks[|chunks| - 1]
  {
    var last := chunks[|chunks| - 1];
    ConcatAppend(chunks[..|chunks| - 1], [last]);
    assert chunks == chunks[..|chunks| - 1] + [last] && Concat([last]) == last + [];
  }

  lemma {:induction false} Distribute(n: nat, k: nat)
    ensures (n + 1) * k == n * k + k
  {
  }

  /** One more chunk behind a buffer that throws: the frames of the throwing chunk are handled again. */
  lemma {:induction false} ThrowsAgain(s: State, chunk: Bytes, t: State, more: Bytes, next: Bytes)
    requires ReadsServer(s) && Throws(s, ServerData(chunk))
    requires t.core.Some? && t == s.(server := s.server + chunk + more, core := t.core)
    ensures Throws(t, ServerData(next))
    ensures After(t, ServerData(next))
            == t.(server := t.server + next, core := Some(ServerUntil(t.core.value, FramesIn(s.server + chunk)).core))
  {
    hide ServerUntil, ReadFrame, Parse, FramesIn, Step, After, Throws;
    ServerAfter(s, chunk);
    StillThrows(s.server, chunk, more + next, FramesIn(s.server + chunk), s.core.value, t.core.value);
    assert t.server + next == s.server + (chunk + (more + next));
    ServerAfter(t, next);
  }

  /** So the results before the bad frame are recorded again, and the next chunk throws as well. */
  lemma {:induction false} HandledAgain(s: State, chunk: Bytes, t: State, more: Bytes, next: Bytes, frames: seq<Frame>)
    requires ReadsServer(s) && Throws(s, ServerData(chunk)) && frames == FramesIn(s.server + chunk)
    requires t.core.Some? && t == s.(server := s.server + chunk + more, core := t.core) && t.core.value.sql != []
    ensures var u := After(t, ServerData(next));
            && u == t.(server := t.server + next, core := u.core)
            && u.core.value.sql == t.core.value.sql
            && |u.core.value.completed| == |t.core.value.completed| + Ends(frames)
            && forall last :: Throws(u, ServerData(last))
  {
    hide ServerUntil, FramesIn, Ends, After, Throws;
    ThrowsAgain(s, chunk, t, more, next);
    EndsAreRecorded(t.core.value, frames);
    var u := After(t, ServerData(next));
    assert u.server == s.server + chunk + (more + next);
    forall last ensures Throws(u, ServerData(last)) {
      ThrowsAgain(s, chunk, u, more + next, last);
    }
  }

  /** The frames of a buffer that throws are still the first ones when more has arrived. */
  lemma {:induction false} StillThrows(buffered: Bytes, chunk: Bytes, more: Bytes, frames: seq<Frame>, core: Core,
          other: Core)
    requires frames == FramesIn(buffered + chunk) && ServerUntil(core, frames).threw
    ensures ServerUntil(other, FramesIn(buffered + (chunk + more))) == ServerUntil(other, frames)
    ensures ServerUntil(other, frames).threw
  {
    hide ServerUntil, ReadFrame, Parse, FramesIn;
    FramesAre(buffered + chunk);
    FramesSplit(buffered, chunk, more);
    var p := Parse(ReadFrame, buffered + chunk);
    ThrowsAlike(core, other, frames);
    ServerUntilAppend(other, frames, FramesIn(p.rest + more));
  }

  // ----- such a frame -----

  /** The end of a result, and a row too short to hold its own count. */
  const FINISHED: Bytes := [67, 0, 0, 0, 5, 0]
  const BROKEN: Bytes := [68, 0, 0, 0, 4]

  lemma {:induction false} BothAreRead()
    ensures FramesIn(FINISHED + BROKEN) == [Frame(COMMAND_COMPLETE, [0]), Frame(DATA_ROW, [])]
    ensures FramesIn(FINISHED) == [Frame(COMMAND_COMPLETE, [0])] && Parse(ReadFrame, FINISHED).rest == []
    ensures FramesIn(BROKEN) == [Frame(DATA_ROW, [])]
  {
    var b := FINISHED + BROKEN;
    assert ReadInt32BE(BROKEN, 1) == 4 && ReadInt32BE(FINISHED, 1) == 5 && ReadInt32BE(b, 1) == 5;
    assert BROKEN[5..5] == [] && FINISHED[5..6] == [0] && b[5..6] == [0];
    assert ReadFrame(BROKEN) == Done(Frame(DATA_ROW, []), 5);
    assert ReadFrame(FINISHED) == Done(Frame(COMMAND_COMPLETE, [0]), 6);
    assert ReadFrame(b) == Done(Frame(COMMAND_COMPLETE, [0]), 6);
    assert BROKEN[5..] == [] && FINISHED[6..] == [] && b[6..] == BROKEN;
    hide ReadFrame, ReadInt32BE;
    assert ReadFrame([]) == Partial by {
      NothingToRead();
    }
    assert Parse(ReadFrame, []) == Parsed([], []);
    assert Parse(ReadFrame, BROKEN) == Parsed([Frame(DATA_ROW, [])], []);
  }

  lemma {:induction false} NothingToRead()
    ensures ReadFrame([]) == Partial
  {
  }

  /**
   * A result and a broken row in one chunk: the next chunk, whatever it is, records the statement a second time, with
   * neither columns nor rows. Cut between the two, it is recorded once.
   */
  lemma {:induction false} ResultTwice(s: State, more: Bytes)
    requires ReadsServer(s) && s.server == [] && s.core.value.sql != []
    ensures var core := s.core.value;
            var whole := After(s, ServerData(FINISHED + BROKEN));
            var cut := After(After(s, ServerData(FINISHED)), ServerData(BROKEN));
            var once := Interaction(core.sql, core.params, Result(core.columns, core.rows, []));
            && After(whole, ServerData(more)).core.value.completed
               == core.completed + [once, Interaction(core.sql, core.params, Result([], [], []))]
            && After(cut, ServerData(more)).core.value.completed == core.completed + [once]
  {
    hide ReadFrame, Parse, FramesIn, Step, After;
    BothAreRead();
    var core := s.core.value;
    var once := Emit(core, Result(core.columns, core.rows, []));
    var both, one, bad := FramesIn(FINISHED + BROKEN), FramesIn(FINISHED), FramesIn(BROKEN);
    assert s.server + (FINISHED + BROKEN) == FINISHED + BROKEN && s.server + FINISHED == FINISHED;
    assert [] + BROKEN == BROKEN;
    FinishedThenBroken(core);
    FinishedThenBroken(once);
    assert ServerUntil(core, one) == Stop(once, false) by {
      assert one[1..] == [];
      EmptyTag(core);
    }
    ServerAfter(s, FINISHED + BROKEN);
    ServerCut(s, FINISHED + BROKEN, more);
    ServerAfter(s, FINISHED);
    var first := After(s, ServerData(FINISHED));
    ServerAfter(first, BROKEN);
    ServerCut(first, BROKEN, more);
  }

  lemma {:induction false} EmptyTag(core: Core)
    ensures HandleServerFrame(core, Frame(COMMAND_COMPLETE, [0]))
            == Some(Emit(core, Result(core.columns, core.rows, [])))
  {
    assert ReadCString([0], 0).text == [];
  }

  lemma {:induction false} FinishedThenBroken(core: Core)
    ensures ServerUntil(core, [Frame(COMMAND_COMPLETE, [0]), Frame(DATA_ROW, [])])
            == Stop(Emit(core, Result(core.columns, core.rows, [])), true)
    ensures ServerUntil(core, [Frame(DATA_ROW, [])]) == Stop(core, true)
  {
    hide Emit, ReadCString;
    var both := [Frame(COMMAND_COMPLETE, [0]), Frame(DATA_ROW, [])];
    assert both[1..] == [Frame(DATA_ROW, [])];
    EmptyTag(core);
  }
}
