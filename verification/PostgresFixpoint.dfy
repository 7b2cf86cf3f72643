/**
 * Re-recording a replay reproduces the recording.
 *
 * A recorder watches a client talk to the replay server in lock step: one turn at a time, each direction cut into
 * chunks in any way. A turn is a Query, or the Parse, Bind, Describe, Execute and Sync that real drivers send, of
 * which a prepared statement leaves out the Parse.
 */
module PostgresFixpoint {
  import opened Wire
  import opened Streams
  import opened Words
  import opened Statements
  import opened Playback
  import opened PostgresMessages
  import opened PostgresEncoder
  import opened PostgresReplays
  import Server = PostgresServers
  import Shape = PostgresShape
  import Recorder = PostgresRecorders

  /** What a driver chooses freely in the extended protocol. */
  datatype Choices = Choices(name: Text, portal: Text, types: Bytes, formats: seq<int>, results: Bytes,
                             describe: Bytes, execute: Bytes)

  /**
   * One recorded statement, and how the client asks for it. A turn in the extended protocol parses its statement, or
   * binds one that an earlier turn parsed.
   */
  datatype Turn =
    | Simple(sql: Text, result: RecordedResult)
    | Extended(sql: Text, params: Row, result: RecordedResult, choices: Choices, parses: bool)

  function ParamsOf(t: Turn): Row {
    if t.Simple? then [] else t.params
  }

  function KeyOf(t: Turn): Text {
    SignatureOf(t.sql, ParamsOf(t))
  }

  /** The frame that names the statement of an extended turn, if the turn has one. */
  function ParseFrames(t: Turn): seq<Frame> {
    if t.Extended? && t.parses then [ParseMessage(t.choices.name, t.sql, t.choices.types)] else []
  }

  function BindFrames(t: Turn): (frames: seq<Frame>)
    requires t.Extended? && FitsBind(t.choices.portal, t.choices.name, t.choices.formats, t.params)
    ensures |frames| == 4
  {
    var c := t.choices;
    [Bind(c.portal, c.name, c.formats, t.params, c.results),
     Frame(DESCRIBE, c.describe), Frame(EXECUTE, c.execute), Frame(SYNC, [])]
  }

  function ClientFrames(t: Turn): seq<Frame>
    requires t.Extended? ==> FitsBind(t.choices.portal, t.choices.name, t.choices.formats, t.params)
  {
    if t.Simple? then [Query(t.sql)] else ParseFrames(t) + BindFrames(t)
  }

  /** A result the server answers with an error: one recorded with a text that is not empty. */
  predicate Errs(r: RecordedResult) {
    r.error.Some? && r.error.value != []
  }

  /** An error, or the rows and the command tag. */
  function Conclusion(r: RecordedResult): seq<Frame>
    requires forall i | 0 <= i < |r.rows| :: FitsRow(r.rows[i])
  {
    if Errs(r) then [ErrorResponse(r.error.value)] else Server.RowFrames(r.rows) + [CommandComplete(r.tag)]
  }

  function Described(r: RecordedResult): seq<Frame>
    requires FitsColumns(r.columns)
  {
    if r.columns == [] then [] else [RowDescription(r.columns)]
  }

  /** The frames before the outcome: acknowledgements, and the columns if they are sent. */
  function Opening(t: Turn): seq<Frame>
    requires FitsResult(t.result)
  {
    if t.Simple? then (if Errs(t.result) then [] else Described(t.result))
    else
      (if t.parses then [ParseComplete()] else []) + [BindComplete()]
      + (if t.result.columns == [] then [NoData()] else Described(t.result))
  }

  /** The frames the server answers a turn with. */
  function ServerFrames(t: Turn): seq<Frame>
    requires FitsResult(t.result)
  {
    Opening(t) + Conclusion(t.result) + [ReadyForQuery()]
  }

  predicate FitsResult(r: RecordedResult) {
    && FitsColumns(r.columns)
    && (forall i | 0 <= i < |r.columns| :: NoZero(r.columns[i].name))
    && (forall i | 0 <= i < |r.rows| :: FitsRow(r.rows[i]))
    && NoZero(r.tag)
  }

  /** A turn whose statement has text, and whose messages fit their length fields. */
  predicate Playable(t: Turn) {
    && t.sql != [] && NoZero(t.sql) && FitsResult(t.result)
    && (t.Extended? ==> FitsBind(t.choices.portal, t.choices.name, t.choices.formats, t.params))
    && Shape.Sendable(ClientFrames(t)) && Shape.Sendable(ServerFrames(t))
  }

  /** The statements that are prepared after some turns, by name. */
  function Prepared(turns: seq<Turn>): map<Text, Text> {
    if turns == [] then map[]
    else PreparedBy(Prepared(turns[..|turns| - 1]), turns[|turns| - 1])
  }

  function PreparedBy(prepared: map<Text, Text>, t: Turn): map<Text, Text> {
    if t.Extended? && t.parses then prepared[t.choices.name := t.sql] else prepared
  }

  /** A turn that does not parse binds a statement that is prepared under its SQL. */
  predicate Knows(prepared: map<Text, Text>, t: Turn) {
    t.Extended? && !t.parses ==> t.choices.name in prepared && prepared[t.choices.name] == t.sql
  }

  /**
   * What a turn is recorded as. A column without a type OID comes back as text, and of an error only the severity is
   * read back.
   */
  function Recorded(t: Turn): Recorder.Interaction {
    Recorder.Interaction(t.sql, ParamsOf(t), ResponseOf(t.result))
  }

  function ResponseOf(r: RecordedResult): Recorder.Response {
    if Errs(r) then Recorder.Failure(Ascii("ERROR")) else Recorder.Result(Typed(r.columns), r.rows, r.tag)
  }

  function EntriesOf(turns: seq<Turn>): (entries: seq<Entry>)
    ensures |entries| == |turns|
  {
    seq(|turns|, i requires 0 <= i < |turns| => Postgres(turns[i].sql, ParamsOf(turns[i]), turns[i].result))
  }

  // ----- the recorder's side of a turn -----

  lemma {:induction false} ParseHandled(core: Recorder.Core, t: Turn)
    requires Playable(t) && t.Extended? && Knows(core.prepared, t)
    ensures var end := Fold(Recorder.OnClientFrame, Some(core), ParseFrames(t));
            && end.Some? && end.value == core.(prepared := PreparedBy(core.prepared, t), sql := end.value.sql)
            && t.choices.name in end.value.prepared && end.value.prepared[t.choices.name] == t.sql
  {
    hide ReadCString, ReadParse, CStringOf, Shape.Sendable, ServerFrames, ClientFrames, FitsResult;
    if t.parses {
      ParseRoundTrip(t.choices.name, t.sql, t.choices.types);
      assert ParseFrames(t)[1..] == [];
    }
  }

  lemma {:induction false} BindHandled(core: Recorder.Core, t: Turn)
    requires Playable(t) && t.Extended? && t.choices.name in core.prepared && core.prepared[t.choices.name] == t.sql
    ensures Fold(Recorder.OnClientFrame, Some(core), BindFrames(t)) == Some(core.(sql := t.sql, params := t.params))
  {
    hide ReadCString, ReadBindParameters, ReadBindStatement, CStringOf, Shape.Sendable, ServerFrames, ClientFrames;
    var c := t.choices;
    BindRoundTrip(c.portal, c.name, c.formats, t.params, c.results);
    FoldFour(Recorder.OnClientFrame, Some(core), BindFrames(t));
  }

  /** Watching a turn's request leaves its SQL, its parameters, and the statement it prepares. */
  lemma {:induction false} ClientHandled(core: Recorder.Core, t: Turn)
    requires Playable(t) && Knows(core.prepared, t)
    ensures Fold(Recorder.OnClientFrame, Some(core), ClientFrames(t))
            == Some(core.(sql := t.sql, params := ParamsOf(t), prepared := PreparedBy(core.prepared, t)))
  {
    hide ReadCString, CStringOf, Shape.Sendable, ServerFrames, BindFrames, ParseFrames, FitsResult;
    if t.Simple? {
      QueryRoundTrip(t.sql);
      assert ClientFrames(t)[1..] == [];
    } else {
      hide Recorder.OnClientFrame;
      ParseHandled(core, t);
      BindHandled(Fold(Recorder.OnClientFrame, Some(core), ParseFrames(t)).value, t);
      FoldAppend(Recorder.OnClientFrame, Some(core), ParseFrames(t), BindFrames(t));
    }
  }

  lemma {:induction false} FoldFour<S, V>(step: (S, V) -> S, s: S, f: seq<V>)
    requires |f| == 4
    ensures Fold(step, s, f) == step(step(step(step(s, f[0]), f[1]), f[2]), f[3])
  {
    var s1 := step(s, f[0]);
    var s2 := step(s1, f[1]);
    assert f[0..] == f && f[4..] == [];
    FoldStep(step, s, f, 0);
    FoldStep(step, s1, f, 1);
    FoldStep(step, s2, f, 2);
    FoldStep(step, step(s2, f[2]), f, 3);
  }

  lemma {:induction false} FoldStep<S, V>(step: (S, V) -> S, s: S, f: seq<V>, i: nat)
    requires i < |f|
    ensures Fold(step, s, f[i..]) == Fold(step, step(s, f[i]), f[i + 1..])
  {
  }

  lemma {:induction false} RowsHandled(core: Recorder.Core, rows: seq<Row>)
    requires forall i | 0 <= i < |rows| :: FitsRow(rows[i])
    ensures Fold(Recorder.OnServerFrame, Some(core), Server.RowFrames(rows)) == Some(core.(rows := core.rows + rows))
    decreases |rows|
  {
    hide DataRow, FitsRow, ReadDataRow;
    if rows == [] {
      assert core.rows + [] == core.rows;
    } else {
      DataRowRoundTrip(rows[0]);
      assert DataRow(rows[0]).kind == DATA_ROW by {
        RowKind(rows[0]);
      }
      assert Server.RowFrames(rows)[1..] == Server.RowFrames(rows[1..]);
      RowsHandled(core.(rows := core.rows + [rows[0]]), rows[1..]);
      assert core.rows + [rows[0]] + rows[1..] == core.rows + rows;
    }
  }

  lemma {:induction false} RowKind(row: Row)
    requires FitsRow(row)
    ensures DataRow(row).kind == DATA_ROW
  {
  }

  lemma {:induction false} Ignored(core: Option<Recorder.Core>, f: Frame)
    requires f in [ParseComplete(), BindComplete(), NoData(), ReadyForQuery()]
    ensures Fold(Recorder.OnServerFrame, core, [f]) == core
  {
  }

  lemma {:induction false} ColumnsHandled(core: Recorder.Core, r: RecordedResult)
    requires FitsResult(r) && core.columns == []
    ensures Fold(Recorder.OnServerFrame, Some(core), Described(r)) == Some(core.(columns := Typed(r.columns)))
  {
    hide ReadRowDescription, FitsColumns, FitsRow;
    if r.columns == [] {
      assert Typed(r.columns) == core.columns;
    } else {
      RowDescriptionRoundTrip(r.columns);
      assert Described(r)[1..] == [];
    }
  }

  lemma {:induction false} Closed(core: Recorder.Core, tag: Text)
    requires core.sql != [] && NoZero(tag)
    ensures Fold(Recorder.OnServerFrame, Some(core), [CommandComplete(tag)])
            == Some(Recorder.Emit(core, Recorder.Result(core.columns, core.rows, tag)))
  {
    hide ReadCString, Recorder.Emit;
    CommandCompleteRoundTrip(tag);
    assert [CommandComplete(tag)][1..] == [];
  }

  lemma {:induction false} Failed(core: Recorder.Core, text: Text)
    requires core.sql != []
    ensures Fold(Recorder.OnServerFrame, Some(core), [ErrorResponse(text)])
            == Some(Recorder.Emit(core, Recorder.Failure(Ascii("ERROR"))))
  {
    hide ReadCString, Recorder.Emit;
    ErrorTextIsNotRead(text);
    assert [ErrorResponse(text)][1..] == [];
  }

  /** The columns as they stand when the outcome arrives: a simple query that fails is not described. */
  function ColumnsOf(t: Turn): seq<Column> {
    if t.Simple? && Errs(t.result) then [] else Typed(t.result.columns)
  }

  lemma {:induction false} OpeningHandled(core: Recorder.Core, t: Turn)
    requires FitsResult(t.result) && core.columns == []
    ensures Fold(Recorder.OnServerFrame, Some(core), Opening(t)) == Some(core.(columns := ColumnsOf(t)))
  {
    hide Described, Recorder.OnServerFrame, FitsColumns, FitsRow;
    var on, r := Recorder.OnServerFrame, t.result;
    ColumnsHandled(core, r);
    if t.Extended? {
      var acks := (if t.parses then [ParseComplete()] else []) + [BindComplete()];
      Ignored(Some(core), ParseComplete());
      Ignored(Some(core), BindComplete());
      Ignored(Some(core), NoData());
      FoldAppend(on, Some(core), if t.parses then [ParseComplete()] else [], [BindComplete()]);
      FoldAppend(on, Some(core), acks, if r.columns == [] then [NoData()] else Described(r));
      assert r.columns == [] ==> Typed(r.columns) == core.columns;
    }
  }

  /** The outcome closes the statement with what it is recorded as. */
  lemma {:induction false} ConclusionHandled(core: Recorder.Core, r: RecordedResult)
    requires FitsResult(r) && core.sql != [] && core.rows == [] && (Errs(r) || core.columns == Typed(r.columns))
    ensures Fold(Recorder.OnServerFrame, Some(core), Conclusion(r))
            == Some(core.(completed := core.completed + [Recorder.Interaction(core.sql, core.params, ResponseOf(r))],
                          columns := [], rows := []))
  {
    hide Recorder.OnServerFrame, FitsColumns, FitsRow, Server.RowFrames;
    if Errs(r) {
      Failed(core, r.error.value);
    } else {
      FoldAppend(Recorder.OnServerFrame, Some(core), Server.RowFrames(r.rows), [CommandComplete(r.tag)]);
      RowsHandled(core, r.rows);
      assert core.rows + r.rows == r.rows;
      Closed(core.(rows := r.rows), r.tag);
    }
  }

  /** Watching the server's answer to a turn records exactly the turn's interaction, with nothing half recorded. */
  lemma {:induction false} ServerHandled(core: Recorder.Core, t: Turn)
    requires Playable(t) && core.sql == t.sql && core.params == ParamsOf(t) && core.columns == [] && core.rows == []
    ensures Fold(Recorder.OnServerFrame, Some(core), ServerFrames(t))
            == Some(core.(completed := core.completed + [Recorded(t)]))
  {
    hide Opening, Conclusion, Recorder.OnServerFrame, Shape.Sendable, FitsColumns, FitsRow, ClientFrames;
    var on, r := Recorder.OnServerFrame, t.result;
    FoldAppend(on, Some(core), Opening(t) + Conclusion(r), [ReadyForQuery()]);
    FoldAppend(on, Some(core), Opening(t), Conclusion(r));
    OpeningHandled(core, t);
    ConclusionHandled(core.(columns := ColumnsOf(t)), r);
    Ignored(Some(core.(completed := core.completed + [Recorded(t)])), ReadyForQuery());
  }

  // ----- the server's side of a turn -----

  /** The lookups a turn makes. */
  function CallsOf(t: Turn): seq<Call> {
    if t.Simple? then [Execute(t.sql, [])] else [Describe(t.sql, t.params), Execute(t.sql, t.params)]
  }

  function AllCalls(turns: seq<Turn>): seq<Call> {
    if turns == [] then [] else AllCalls(turns[..|turns| - 1]) + CallsOf(turns[|turns| - 1])
  }

  function LogOf(turns: seq<Turn>): (log: seq<(Text, RecordedResult)>)
    ensures |log| == |turns|
  {
    seq(|turns|, i requires 0 <= i < |turns| => (KeyOf(turns[i]), turns[i].result))
  }

  lemma {:induction false} LoggedTurns(turns: seq<Turn>)
    ensures SignatureLog(EntriesOf(turns)) == LogOf(turns)
    decreases |turns|
  {
    hide SignatureOf;
    if turns != [] {
      LoggedTurns(turns[..|turns| - 1]);
      assert EntriesOf(turns)[..|turns| - 1] == EntriesOf(turns[..|turns| - 1]);
    }
  }

  /** The turns with a key that look it up twice, because they describe it before they execute it. */
  function Describes(turns: seq<Turn>, key: Text): nat {
    if turns == [] then 0
    else
      var last := turns[|turns| - 1];
      Describes(turns[..|turns| - 1], key) + (if last.Extended? && KeyOf(last) == key then 1 else 0)
  }

  lemma {:induction false} CallsOfTurn(t: Turn, key: Text)
    ensures Count(Signatures(CallsOf(t)), key)
            == if KeyOf(t) != key then 0 else if t.Extended? then 2 else 1
  {
    hide SignatureOf;
    if t.Simple? {
      assert Signatures(CallsOf(t)) == [] + [KeyOf(t)];
    } else {
      assert Signatures(CallsOf(t)) == [KeyOf(t)] + [KeyOf(t)];
      CountGrows([KeyOf(t)], KeyOf(t), key);
      CountGrows([], KeyOf(t), key);
      assert [] + [KeyOf(t)] == [KeyOf(t)];
    }
  }

  /** A key is looked up once for every turn on it, and once more for every one that describes it. */
  lemma {:induction false} CallsPerTurn(turns: seq<Turn>, key: Text)
    ensures Count(Signatures(AllCalls(turns)), key) == Count(Keys(LogOf(turns)), key) + Describes(turns, key)
    decreases |turns|
  {
    hide SignatureOf, CallsOf;
    if turns != [] {
      var before, last := turns[..|turns| - 1], turns[|turns| - 1];
      CallsPerTurn(before, key);
      assert Signatures(AllCalls(turns)) == Signatures(AllCalls(before)) + Signatures(CallsOf(last));
      CountAppend(Signatures(AllCalls(before)), Signatures(CallsOf(last)), key);
      assert Keys(LogOf(turns))[..|turns| - 1] == Keys(LogOf(before));
      CallsOfTurn(last, key);
    }
  }

  /** The results recorded under a turn's signature; its own is the `PlaceOf`th. */
  function QueueOf(turns: seq<Turn>, i: nat): seq<RecordedResult>
    requires i < |turns|
  {
    Filed(LogOf(turns), KeyOf(turns[i]))
  }

  function PlaceOf(turns: seq<Turn>, i: nat): nat
    requires i < |turns|
  {
    Count(Keys(LogOf(turns))[..i], KeyOf(turns[i]))
  }

  /**
   * What a turn is answered when a recorded session is replayed in order: every turn before it that described its
   * signature has pushed it one result further, and describing it pushes its execution one further still.
   */
  lemma {:induction false} TurnGets(turns: seq<Turn>, i: nat, before: seq<Call>, call: Call)
    requires i < |turns| && call in CallsOf(turns[i])
    requires || before == AllCalls(turns[..i])
             || (turns[i].Extended? && before == AllCalls(turns[..i]) + CallsOf(turns[i])[..1])
    ensures PlaceOf(turns, i) < |QueueOf(turns, i)| && QueueOf(turns, i)[PlaceOf(turns, i)] == turns[i].result
    ensures var at := PlaceOf(turns, i) + Describes(turns[..i], KeyOf(turns[i]));
            Expected(EntriesOf(turns), before, call)
            == Some(Nth(QueueOf(turns, i), if before == AllCalls(turns[..i]) then at else at + 1))
  {
    hide KeyOf, Expected, Filed, Count, CallsOf, AllCalls, Describes;
    var log, key := LogOf(turns), KeyOf(turns[i]);
    FiledInOrder(log, i);
    ExpectsNth(turns, i, before, call);
    CallsPerTurn(turns[..i], key);
    assert Keys(LogOf(turns[..i])) == Keys(log)[..i];
    if before != AllCalls(turns[..i]) {
      FirstCall(turns[i]);
      SignaturesAppend(AllCalls(turns[..i]), CallsOf(turns[i])[0]);
      CountGrows(Signatures(AllCalls(turns[..i])), key, key);
    }
  }

  lemma {:induction false} FirstCall(t: Turn)
    ensures CallsOf(t) != [] && CallsOf(t)[..1] == [CallsOf(t)[0]] && SignatureOfCall(CallsOf(t)[0]) == KeyOf(t)
  {
    hide SignatureOf;
  }

  /** The results a turn's lookups take equal its own. */
  predicate FindsOwn(turns: seq<Turn>, i: nat)
    requires i < |turns|
  {
    var queue, at := QueueOf(turns, i), PlaceOf(turns, i) + Describes(turns[..i], KeyOf(turns[i]));
    queue != [] && Nth(queue, at) == turns[i].result && (turns[i].Extended? ==> Nth(queue, at + 1) == turns[i].result)
  }

  /** No turn gets another turn's result, whatever was described before it. */
  ghost predicate Undisturbed(turns: seq<Turn>) {
    forall i | 0 <= i < |turns| :: FindsOwn(turns, i)
  }

  /** Each turn's lookups find the turn's own result. */
  lemma {:induction false} TurnFinds(turns: seq<Turn>, i: nat, before: seq<Call>, call: Call)
    requires i < |turns| && Undisturbed(turns)
    requires call in CallsOf(turns[i])
    requires || before == AllCalls(turns[..i])
             || (turns[i].Extended? && before == AllCalls(turns[..i]) + CallsOf(turns[i])[..1])
    ensures Expected(EntriesOf(turns), before, call) == Some(turns[i].result)
  {
    hide Expected, CallsOf, AllCalls, QueueOf, PlaceOf, Describes, KeyOf;
    TurnGets(turns, i, before, call);
    assert FindsOwn(turns, i);
  }

  /** Played in order, every lookup of every turn finds that turn's result exactly when none is disturbed. */
  lemma {:induction false} UndisturbedExactly(turns: seq<Turn>)
    ensures Undisturbed(turns) <==>
            forall i | 0 <= i < |turns| ::
              var calls, entries := CallsOf(turns[i]), EntriesOf(turns);
              && Expected(entries, AllCalls(turns[..i]), calls[0]) == Some(turns[i].result)
              && (turns[i].Extended? ==>
                    Expected(entries, AllCalls(turns[..i]) + calls[..1], calls[1]) == Some(turns[i].result))
  {
    hide Expected, AllCalls, QueueOf, PlaceOf, Describes, KeyOf;
    forall i | 0 <= i < |turns|
      ensures var calls, entries := CallsOf(turns[i]), EntriesOf(turns);
              FindsOwn(turns, i)
              <==> && Expected(entries, AllCalls(turns[..i]), calls[0]) == Some(turns[i].result)
                   && (turns[i].Extended? ==>
                         Expected(entries, AllCalls(turns[..i]) + calls[..1], calls[1]) == Some(turns[i].result))
    {
      var calls, before := CallsOf(turns[i]), AllCalls(turns[..i]);
      TurnGets(turns, i, before, calls[0]);
      if turns[i].Extended? {
        assert |before + calls[..1]| == |before| + 1;
        TurnGets(turns, i, before + calls[..1], calls[1]);
      }
    }
  }

  /** A signature that is ever described was recorded with one result only, though perhaps many times. */
  ghost predicate Steady(turns: seq<Turn>) {
    forall i, j | 0 <= i < |turns| && 0 <= j < |turns| ::
      turns[i].Extended? && KeyOf(turns[j]) == KeyOf(turns[i]) ==> turns[j].result == turns[i].result
  }

  /** Then no turn is disturbed; in particular where nothing is described, however often a signature was recorded. */
  lemma {:induction false} SteadyIsUndisturbed(turns: seq<Turn>)
    requires Steady(turns)
    ensures Undisturbed(turns)
  {
    hide KeyOf, Filed, Count;
    forall i | 0 <= i < |turns| ensures FindsOwn(turns, i) {
      var log, key, queue := LogOf(turns), KeyOf(turns[i]), QueueOf(turns, i);
      FiledInOrder(log, i);
      if Describes(turns[..i], key) > 0 || turns[i].Extended? {
        var d := i;
        if !turns[i].Extended? {
          d := Describer(turns[..i], key);
        }
        assert turns[d].Extended? && KeyOf(turns[d]) == key;
        forall n | 0 <= n < |queue| ensures queue[n] == turns[i].result {
          var j := FiledFrom(log, key, n);
          assert KeyOf(turns[j]) == key;
        }
      }
    }
  }

  lemma {:induction false} Describer(turns: seq<Turn>, key: Text) returns (i: nat)
    requires Describes(turns, key) > 0
    ensures i < |turns| && turns[i].Extended? && KeyOf(turns[i]) == key
    decreases |turns|
  {
    hide KeyOf;
    var n := |turns| - 1;
    if turns[n].Extended? && KeyOf(turns[n]) == key {
      i := n;
    } else {
      i := Describer(turns[..n], key);
    }
  }

  lemma {:induction false} ExpectsNth(turns: seq<Turn>, i: nat, before: seq<Call>, call: Call)
    requires i < |turns| && call in CallsOf(turns[i]) && Filed(LogOf(turns), KeyOf(turns[i])) != []
    ensures var key := KeyOf(turns[i]);
            Expected(EntriesOf(turns), before, call)
                  == Some(Nth(Filed(LogOf(turns), key), Count(Signatures(before), key)))
  {
    hide SignatureOf, Normalise, Filed, Count, SignatureLog, SqlLog, LogOf, EntriesOf;
    LoggedTurns(turns);
    assert SignatureOfCall(call) == KeyOf(turns[i]);
  }

  lemma {:induction false} AnswerIs(r: RecordedResult, sql: Text, withDescription: bool)
    requires FitsResult(r)
    ensures Server.AnswerFor(Some(r), sql, withDescription)
            == Some((if withDescription && !Errs(r) then Described(r) else []) + Conclusion(r))
  {
    hide RowDescription, FitsColumns, FitsRow, Server.RowFrames;
    var described := if withDescription && !Errs(r) then Described(r) else [];
    if !Errs(r) {
      assert described + Server.RowFrames(r.rows) + [CommandComplete(r.tag)] == described + Conclusion(r);
    } else {
      assert [] + Conclusion(r) == Conclusion(r);
    }
  }

  lemma {:induction false} RunStep(s: Shelf, calls: seq<Call>, call: Call)
    ensures var before := Run(s, calls).shelf;
            Run(s, calls + [call]) == if call.Describe? then Peek(before, call.sql, call.params)
                                      else ResultFor(before, call.sql, call.params)
  {
  }

  /** Looking a turn's statement up moves the shelf along the run of calls and finds the turn's result. */
  lemma {:induction false} TurnLooksUp(turns: seq<Turn>, i: nat, before: seq<Call>, call: Call)
    requires i < |turns| && Undisturbed(turns)
    requires call in CallsOf(turns[i])
    requires || before == AllCalls(turns[..i])
             || (turns[i].Extended? && before == AllCalls(turns[..i]) + CallsOf(turns[i])[..1])
    ensures var entries := EntriesOf(turns);
            var shelf := Run(Load(entries), before).shelf;
            (if call.Describe? then Peek(shelf, call.sql, call.params) else ResultFor(shelf, call.sql, call.params))
            == Found(Run(Load(entries), before + [call]).shelf, Some(turns[i].result))
  {
    hide Load, CallsOf, AllCalls, Expected, Undisturbed, Peek, ResultFor;
    TurnFinds(turns, i, before, call);
    RunStep(Load(EntriesOf(turns)), before, call);
    TwoTiers(EntriesOf(turns), before + [call]);
    assert (before + [call])[..|before|] == before;
  }

  lemma {:induction false} AllCallsGrow(turns: seq<Turn>, i: nat)
    requires i < |turns|
    ensures AllCalls(turns[..i + 1]) == AllCalls(turns[..i]) + CallsOf(turns[i])
  {
    assert turns[..i + 1][..i] == turns[..i];
  }

  /** The server as it stands after the first `i` turns. */
  ghost predicate Reached(w: Server.Work, turns: seq<Turn>, i: nat)
    requires i <= |turns|
  {
    && w.session.started && w.session.prepared == Prepared(turns[..i])
    && w.shelf == Run(Load(EntriesOf(turns)), AllCalls(turns[..i])).shelf
  }

  lemma {:induction false} PreparedGrows(turns: seq<Turn>, i: nat)
    requires i < |turns|
    ensures Prepared(turns[..i + 1]) == PreparedBy(Prepared(turns[..i]), turns[i])
  {
    assert turns[..i + 1][..i] == turns[..i];
  }

  lemma {:induction false} FrameServed(w: Server.Work, f: Frame, next: Server.Replied)
    requires Server.Handle(w.session, w.shelf, f) == Some(next) && Shape.Sendable(next.frames)
    ensures Server.OnFrame(Some(w), f)
          == Some(Server.Work(next.session, next.shelf, w.written + Messages(next.frames)))
  {
    hide Server.Handle, Writable;
  }

  lemma {:induction false} QueryHandled(s: Server.Session, shelf: Shelf, next: Shelf, sql: Text, r: RecordedResult)
    requires NoZero(sql) && FitsResult(r) && ResultFor(shelf, sql, []) == Found(next, Some(r))
    ensures Server.Handle(s, shelf, Query(sql))
            == Some(Server.Replied(s.(sql := sql, params := []), next, ServerFrames(Simple(sql, r))))
  {
    hide ResultFor, Server.AnswerFor, Described, Conclusion, ReadCString, CStringOf, FitsResult;
    QueryRoundTrip(sql);
    AnswerIs(r, sql, true);
  }

  lemma {:induction false} SimpleServed(w: Server.Work, turns: seq<Turn>, i: nat)
    requires i < |turns| && Undisturbed(turns) && Playable(turns[i]) && turns[i].Simple? && Reached(w, turns, i)
    ensures var end := Fold(Server.OnFrame, Some(w), ClientFrames(turns[i]));
            && end.Some? && Reached(end.value, turns, i + 1)
            && end.value.written == w.written + Messages(ServerFrames(turns[i]))
  {
    hide Load, Run, Undisturbed, ResultFor, Server.Handle, FitsResult, Messages, Writable, Server.OnFrame;
    hide ServerFrames, Query, Prepared, AllCalls, CallsOf;
    var t := turns[i];
    var calls, call := AllCalls(turns[..i]), Execute(t.sql, []);
    OneCall(t);
    TurnLooksUp(turns, i, calls, call);
    AllCallsGrow(turns, i);
    PreparedGrows(turns, i);
    var next := Run(Load(EntriesOf(turns)), calls + [call]).shelf;
    QueryHandled(w.session, w.shelf, next, t.sql, t.result);
    var session := w.session.(sql := t.sql, params := []);
    assert Simple(t.sql, t.result) == t;
    FrameServed(w, Query(t.sql), Server.Replied(session, next, ServerFrames(t)));
    assert ClientFrames(t)[1..] == [];
    assert Fold(Server.OnFrame, Some(w), ClientFrames(t)) == Server.OnFrame(Some(w), Query(t.sql));
  }

  lemma {:induction false} OneCall(t: Turn)
    requires t.Simple?
    ensures CallsOf(t) == [Execute(t.sql, [])]
  {
  }

  /** Parse names the statement, if there is one, and the server acknowledges it. */
  lemma {:induction false} ParseServed(w: Server.Work, t: Turn)
    requires Playable(t) && t.Extended? && Knows(w.session.prepared, t)
    ensures var end := Fold(Server.OnFrame, Some(w), ParseFrames(t));
            && end.Some? && end.value.shelf == w.shelf
            && end.value.session
               == w.session.(prepared := PreparedBy(w.session.prepared, t), sql := end.value.session.sql)
            && t.choices.name in end.value.session.prepared && end.value.session.prepared[t.choices.name] == t.sql
            && end.value.written == w.written + Messages(if t.parses then [ParseComplete()] else [])
  {
    hide ReadCString, CStringOf, ReadParse, Messages, Shape.Sendable, ClientFrames, ServerFrames, FitsResult;
    if t.parses {
      ParseRoundTrip(t.choices.name, t.sql, t.choices.types);
      assert ParseFrames(t)[1..] == [];
    } else {
      Shape.NoMessages();
      assert w.written + [] == w.written;
    }
  }

  lemma {:induction false} Bound(s: Server.Session, shelf: Shelf, t: Turn)
    requires t.Extended? && FitsBind(t.choices.portal, t.choices.name, t.choices.formats, t.params)
    requires t.choices.name in s.prepared && s.prepared[t.choices.name] == t.sql
    ensures Server.Handle(s, shelf, BindFrames(t)[0])
            == Some(Server.Replied(s.(sql := t.sql, params := t.params), shelf, [BindComplete()]))
  {
    hide ReadCString, CStringOf, ReadBindParameters, ReadBindStatement;
    var c := t.choices;
    BindRoundTrip(c.portal, c.name, c.formats, t.params, c.results);
  }

  /** Describe and Execute answer from the replay, and Sync ends the turn. */
  lemma {:induction false} DescribedAndExecuted(s: Server.Session, shelf: Shelf, shelf1: Shelf, shelf2: Shelf,
          r: RecordedResult, c: Choices)
    requires FitsResult(r)
    requires Peek(shelf, s.sql, s.params) == Found(shelf1, Some(r))
    requires ResultFor(shelf1, s.sql, s.params) == Found(shelf2, Some(r))
    ensures Server.Handle(s, shelf, Frame(DESCRIBE, c.describe))
            == Some(Server.Replied(s, shelf1, if r.columns == [] then [NoData()] else Described(r)))
    ensures Server.Handle(s, shelf1, Frame(EXECUTE, c.execute)) == Some(Server.Replied(s, shelf2, Conclusion(r)))
    ensures Server.Handle(s, shelf2, Frame(SYNC, [])) == Some(Server.Replied(s, shelf2, [ReadyForQuery()]))
  {
    hide ReadCString, ReadParse, ReadBindParameters, ReadBindStatement, ResultFor, Peek, Server.AnswerFor, Conclusion;
    hide RowDescription, FitsColumns, FitsRow;
    AnswerIs(r, s.sql, false);
    assert [] + Conclusion(r) == Conclusion(r);
  }

  lemma {:induction false} ExtendedServed(w: Server.Work, turns: seq<Turn>, i: nat)
    requires i < |turns| && Undisturbed(turns) && Playable(turns[i]) && turns[i].Extended? && Reached(w, turns, i)
    requires Knows(Prepared(turns[..i]), turns[i])
    ensures var end := Fold(Server.OnFrame, Some(w), ClientFrames(turns[i]));
            && end.Some? && Reached(end.value, turns, i + 1)
            && end.value.written == w.written + Messages(ServerFrames(turns[i]))
  {
    hide Load, Run, Undisturbed, ResultFor, Peek, Messages, Server.Handle, CallsOf, AllCalls, FitsResult, Prepared;
    hide Writable, Server.OnFrame, Conclusion, Described, ParseFrames, BindFrames, Knows;
    var t := turns[i];
    var calls, entries := AllCalls(turns[..i]), EntriesOf(turns);
    var describe, execute := Describe(t.sql, t.params), Execute(t.sql, t.params);
    TwoCalls(t);
    TurnLooksUp(turns, i, calls, describe);
    TurnLooksUp(turns, i, calls + [describe], execute);
    AllCallsGrow(turns, i);
    PreparedGrows(turns, i);
    assert calls + [describe] + [execute] == calls + CallsOf(t);
    var shelf1 := Run(Load(entries), calls + [describe]).shelf;
    var shelf2 := Run(Load(entries), calls + CallsOf(t)).shelf;
    FoldAppend(Server.OnFrame, Some(w), ParseFrames(t), BindFrames(t));
    ParseServed(w, t);
    AnswerSplits(w.written, t);
    BindServed(Fold(Server.OnFrame, Some(w), ParseFrames(t)).value, t, shelf1, shelf2);
  }

  lemma {:induction false} TwoCalls(t: Turn)
    requires t.Extended?
    ensures CallsOf(t) == [Describe(t.sql, t.params), Execute(t.sql, t.params)]
    ensures CallsOf(t)[..1] == [Describe(t.sql, t.params)]
  {
  }

  /** What follows the acknowledgement of Parse. */
  function Bindings(t: Turn): seq<Frame>
    requires t.Extended? && FitsResult(t.result)
  {
    [BindComplete()] + (if t.result.columns == [] then [NoData()] else Described(t.result)) + Conclusion(t.result)
    + [ReadyForQuery()]
  }

  lemma {:induction false} AnswerSplits(written: Bytes, t: Turn)
    requires t.Extended? && FitsResult(t.result) && Shape.Sendable(ServerFrames(t))
    ensures Shape.Sendable(Bindings(t))
    ensures written + Messages(if t.parses then [ParseComplete()] else []) + Messages(Bindings(t))
            == written + Messages(ServerFrames(t))
  {
    hide Messages, Writable, Described, Conclusion, FitsResult;
    var acks, rest := if t.parses then [ParseComplete()] else [], Bindings(t);
    assert ServerFrames(t) == acks + rest;
    forall k | 0 <= k < |rest| ensures Writable(rest[k]) {
      assert rest[k] == ServerFrames(t)[|acks| + k];
    }
    forall k | 0 <= k < |acks| ensures Writable(acks[k]) {
      assert acks[k] == ServerFrames(t)[k];
    }
    MessagesAppend(acks, rest);
  }

  /** Bind, Describe, Execute and Sync served one after the other: what they write adds up. */
  lemma {:induction false} BindServed(w: Server.Work, t: Turn, shelf1: Shelf, shelf2: Shelf)
    requires t.Extended? && Playable(t) && Shape.Sendable(Bindings(t))
    requires t.choices.name in w.session.prepared && w.session.prepared[t.choices.name] == t.sql
    requires Peek(w.shelf, t.sql, t.params) == Found(shelf1, Some(t.result))
    requires ResultFor(shelf1, t.sql, t.params) == Found(shelf2, Some(t.result))
    ensures Fold(Server.OnFrame, Some(w), BindFrames(t))
            == Some(Server.Work(w.session.(sql := t.sql, params := t.params), shelf2,
                                w.written + Messages(Bindings(t))))
  {
    hide Server.Handle, Server.OnFrame, Messages, Writable, Conclusion, FitsResult, Peek, ResultFor;
    hide ClientFrames, ServerFrames, Bind;
    var s, g, f, r := w.session.(sql := t.sql, params := t.params), Bindings(t), BindFrames(t), t.result;
    Bound(w.session, w.shelf, t);
    DescribedAndExecuted(s, w.shelf, shelf1, shelf2, r, t.choices);
    Pieces(t);
    var w1 := Server.Work(s, w.shelf, w.written + Messages(g[..1]));
    var w2 := Server.Work(s, shelf1, w.written + Messages(g[..2]));
    var w3 := Server.Work(s, shelf2, w.written + Messages(g[..|g| - 1]));
    Cut(w.written, g, 0, 1);
    Cut(w.written, g, 1, 2);
    Cut(w.written, g, 2, |g| - 1);
    Cut(w.written, g, |g| - 1, |g|);
    FrameServed(w, f[0], Server.Replied(s, w.shelf, g[0..1]));
    FrameServed(w1, f[1], Server.Replied(s, shelf1, g[1..2]));
    FrameServed(w2, f[2], Server.Replied(s, shelf2, g[2..|g| - 1]));
    FrameServed(w3, f[3], Server.Replied(s, shelf2, g[|g| - 1..|g|]));
    FoldFour(Server.OnFrame, Some(w), f);
  }

  /** The answer to an extended turn, cut where its frames are answered. */
  lemma {:induction false} Pieces(t: Turn)
    requires t.Extended? && FitsResult(t.result)
    ensures var g, n := Bindings(t), |Bindings(t)|;
            && n >= 3 && g[0..1] == [BindComplete()]
            && g[1..2] == (if t.result.columns == [] then [NoData()] else Described(t.result))
            && g[2..n - 1] == Conclusion(t.result) && g[n - 1..n] == [ReadyForQuery()]
  {
    hide RowDescription, FitsColumns, FitsRow, Conclusion;
    var described := if t.result.columns == [] then [NoData()] else Described(t.result);
    assert |described| == 1;
    assert Bindings(t) == [BindComplete()] + described + Conclusion(t.result) + [ReadyForQuery()];
  }

  lemma {:induction false} Cut(written: Bytes, g: seq<Frame>, i: nat, j: nat)
    requires i <= j <= |g| && Shape.Sendable(g)
    ensures Shape.Sendable(g[..i]) && Shape.Sendable(g[i..j]) && Shape.Sendable(g[..j])
    ensures written + Messages(g[..i]) + Messages(g[i..j]) == written + Messages(g[..j])
    ensures i == 0 ==> written + Messages(g[..i]) == written
    ensures j == |g| ==> Messages(g[..j]) == Messages(g)
  {
    hide Writable, Messages;
    assert g[..i] + g[i..j] == g[..j];
    MessagesAppend(g[..i], g[i..j]);
    Shape.NoMessages();
    if i == 0 {
      assert g[..i] == [] && written + [] == written;
    }
    if j == |g| {
      assert g[..j] == g;
    }
  }

  /** Serving a turn's frames writes exactly the turn's answer and leaves the server ready for the next turn. */
  lemma {:induction false} TurnServed(w: Server.Work, turns: seq<Turn>, i: nat)
    requires i < |turns| && Undisturbed(turns) && Playable(turns[i]) && Reached(w, turns, i)
    requires Knows(Prepared(turns[..i]), turns[i])
    ensures var end := Fold(Server.OnFrame, Some(w), ClientFrames(turns[i]));
            && end.Some? && Reached(end.value, turns, i + 1)
            && end.value.written == w.written + Messages(ServerFrames(turns[i]))
  {
    hide Playable, Reached, ClientFrames, ServerFrames, Undisturbed, Knows, Prepared;
    if turns[i].Simple? {
      SimpleServed(w, turns, i);
    } else {
      ExtendedServed(w, turns, i);
    }
  }
}
