/**
 * Finding the recorded result for a statement: `PostgresReplay` of src/replay/postgresReplayServer.ts.
 *
 * Results are queued twice, under the full signature and under the SQL alone. Each lookup takes from one queue, and
 * the last result of a queue stays.
 */
module PostgresReplays {
  import opened Wire
  import opened Words
  import opened Statements
  import opened Playback
  import opened PostgresMessages
  import Divergence

  datatype RecordedResult = RecordedResult(columns: seq<Column>, rows: seq<Row>, tag: Text, error: Option<Text>)

  datatype Entry = Postgres(sql: Text, params: Row, result: RecordedResult) | OtherProtocol

  type Queues = map<Text, seq<RecordedResult>>

  datatype Shelf = Shelf(bySignature: Queues, bySql: Queues, matched: nat, missing: set<Text>)

  datatype Found = Found(shelf: Shelf, result: Option<RecordedResult>)

  /** The exact signature first, the SQL alone as a fallback. */
  function Lookup(s: Shelf, sql: Text, params: Row): Found {
    var signature, normal := SignatureOf(sql, params), Normalise(sql);
    if Holds(s.bySignature, signature) then
      Found(s.(bySignature := Take(s.bySignature, signature)), Some(s.bySignature[signature][0]))
    else if Holds(s.bySql, normal) then
      Found(s.(bySql := Take(s.bySql, normal)), Some(s.bySql[normal][0]))
    else Found(s, None)
  }

  /** A Describe looks a statement up without counting it. The queue it takes from moves on all the same. */
  function Peek(s: Shelf, sql: Text, params: Row): Found {
    Lookup(s, sql, params)
  }

  function ResultFor(s: Shelf, sql: Text, params: Row): Found {
    var f := Lookup(s, sql, params);
    if f.result.None? then f.(shelf := f.shelf.(missing := f.shelf.missing + {Normalise(sql)}))
    else f.(shelf := f.shelf.(matched := f.shelf.matched + 1))
  }

  function Load(entries: seq<Entry>): Shelf {
    if entries == [] then Shelf(map[], map[], 0, {})
    else
      var s, last := Load(entries[..|entries| - 1]), entries[|entries| - 1];
      if last.OtherProtocol? then s
      else s.(
           bySignature := Push(s.bySignature, SignatureOf(last.sql, last.params), last.result),
           bySql := Push(s.bySql, Normalise(last.sql), last.result))
  }

  class PostgresReplay {
    var bySignature: Queues
    var bySql: Queues
    var matchedCount: nat
    var missing: set<Text>
    const tracker: Divergence.DivergenceTracker?

    function Now(): Shelf
      reads this
    {
      Shelf(bySignature, bySql, matchedCount, missing)
    }

    constructor (entries: seq<Entry>, tracker: Divergence.DivergenceTracker?)
      ensures Now() == Load(entries) && this.tracker == tracker
    {
      bySignature, bySql, matchedCount, missing := map[], map[], 0, {};
      this.tracker := tracker;
      new;
      for i := 0 to |entries|
        invariant Now() == Load(entries[..i])
        modifies this
      {
        assert entries[..i + 1][..i] == entries[..i];
        if entries[i].Postgres? {
          bySignature := Push(bySignature, SignatureOf(entries[i].sql, entries[i].params), entries[i].result);
          bySql := Push(bySql, Normalise(entries[i].sql), entries[i].result);
        }
      }
      assert entries[..|entries|] == entries;
    }

    method LookupResult(sql: Text, params: Row) returns (result: Option<RecordedResult>)
      modifies `bySignature, `bySql
      ensures Found(Now(), result) == Lookup(old(Now()), sql, params)
    {
      var signature, normal := SignatureOf(sql, params), Normalise(sql);
      if Holds(bySignature, signature) {
        result := Some(bySignature[signature][0]);
        bySignature := Take(bySignature, signature);
      } else if Holds(bySql, normal) {
        result := Some(bySql[normal][0]);
        bySql := Take(bySql, normal);
      } else {
        result := None;
      }
    }

    method PeekResult(sql: Text, params: Row) returns (result: Option<RecordedResult>)
      modifies this
      ensures Found(Now(), result) == Peek(old(Now()), sql, params)
    {
      result := LookupResult(sql, params);
    }

    method FindResult(sql: Text, params: Row) returns (result: Option<RecordedResult>)
      modifies this, tracker
      ensures Found(Now(), result) == ResultFor(old(Now()), sql, params)
      ensures tracker != null ==>
                tracker.Now() == Divergence.Observe(tracker.dialect, old(tracker.Now()), sql, result.Some?).state
    {
      result := LookupResult(sql, params);
      if tracker != null {
        var _ := tracker.ObserveStatement(sql, result.Some?);
      }
      if result.None? {
        missing := missing + {Normalise(sql)};
        return;
      }
      matchedCount := matchedCount + 1;
    }
  }

  // ----- the two-tier law -----

  datatype Call = Describe(sql: Text, params: Row) | Execute(sql: Text, params: Row)

  /** The recorded results with their signatures, and with their SQL, in recorded order. */
  function SignatureLog(entries: seq<Entry>): seq<(Text, RecordedResult)> {
    if entries == [] then []
    else
      var last := entries[|entries| - 1];
      SignatureLog(entries[..|entries| - 1])
      + (if last.Postgres? then [(SignatureOf(last.sql, last.params), last.result)] else [])
  }

  function SqlLog(entries: seq<Entry>): seq<(Text, RecordedResult)> {
    if entries == [] then []
    else
      var last := entries[|entries| - 1];
      SqlLog(entries[..|entries| - 1]) + (if last.Postgres? then [(Normalise(last.sql), last.result)] else [])
  }

  function SignatureOfCall(call: Call): Text {
    SignatureOf(call.sql, call.params)
  }

  function Signatures(calls: seq<Call>): (keys: seq<Text>)
    ensures |keys| == |calls|
  {
    seq(|calls|, i requires 0 <= i < |calls| => SignatureOfCall(calls[i]))
  }

  /** The SQL of the calls whose signature was never recorded: the ones that fall back. */
  function Fallbacks(entries: seq<Entry>, calls: seq<Call>): seq<Text> {
    if calls == [] then []
    else
      var last := calls[|calls| - 1];
      Fallbacks(entries, calls[..|calls| - 1])
      + (if Filed(SignatureLog(entries), SignatureOfCall(last)) == [] then [Normalise(last.sql)] else [])
  }

  function Run(s: Shelf, calls: seq<Call>): Found {
    if calls == [] then Found(s, None)
    else
      var before, last := Run(s, calls[..|calls| - 1]).shelf, calls[|calls| - 1];
      match last
      case Describe(sql, params) => Peek(before, sql, params)
      case Execute(sql, params) => ResultFor(before, sql, params)
  }

  /** What a call must get after the calls before it, from the recording alone. */
  function Expected(entries: seq<Entry>, before: seq<Call>, call: Call): Option<RecordedResult> {
    var exact := Filed(SignatureLog(entries), SignatureOfCall(call));
    var loose := Filed(SqlLog(entries), Normalise(call.sql));
    if exact != [] then Some(Nth(exact, Count(Signatures(before), SignatureOfCall(call))))
    else if loose != [] then Some(Nth(loose, Count(Fallbacks(entries, before), Normalise(call.sql))))
    else None
  }

  lemma {:induction false} Loaded(entries: seq<Entry>)
    ensures Stocked(Load(entries).bySignature, SignatureLog(entries), [])
    ensures Stocked(Load(entries).bySql, SqlLog(entries), [])
    ensures Load(entries).matched == 0 && Load(entries).missing == {}
    decreases |entries|
  {
    if entries != [] {
      var before, last := entries[..|entries| - 1], entries[|entries| - 1];
      Loaded(before);
      if last.Postgres? {
        Pushed(Load(before).bySignature, SignatureLog(before), SignatureOf(last.sql, last.params), last.result);
        Pushed(Load(before).bySql, SqlLog(before), Normalise(last.sql), last.result);
      } else {
        assert SignatureLog(before) + [] == SignatureLog(before) && SqlLog(before) + [] == SqlLog(before);
      }
    }
  }

  /** Both tiers, after a run of calls. */
  ghost predicate InStep(s: Shelf, entries: seq<Entry>, calls: seq<Call>) {
    && Stocked(s.bySignature, SignatureLog(entries), Signatures(calls))
    && Stocked(s.bySql, SqlLog(entries), Fallbacks(entries, calls))
  }

  lemma {:induction false} SignaturesAppend(calls: seq<Call>, call: Call)
    ensures Signatures(calls + [call]) == Signatures(calls) + [SignatureOfCall(call)]
  {
  }

  lemma {:induction false} LookedUp(s: Shelf, entries: seq<Entry>, calls: seq<Call>, call: Call)
    requires InStep(s, entries, calls)
    ensures var f := Lookup(s, call.sql, call.params);
            && f.result == Expected(entries, calls, call)
            && InStep(f.shelf, entries, calls + [call])
            && f.shelf.matched == s.matched && f.shelf.missing == s.missing
  {
    hide Filed, Normalise, SignatureOf, Stocked, Count, SignatureLog, SqlLog;
    var signature, normal := SignatureOfCall(call), Normalise(call.sql);
    assert (calls + [call])[..|calls|] == calls;
    SignaturesAppend(calls, call);
    var exact, loose := SignatureLog(entries), SqlLog(entries);
    var fallbacks := Fallbacks(entries, calls);
    if Filed(exact, signature) != [] {
      Taken(s.bySignature, exact, Signatures(calls), signature);
      assert fallbacks + [] == fallbacks;
    } else {
      Passed(s.bySignature, exact, Signatures(calls), signature);
      if Filed(loose, normal) != [] {
        Taken(s.bySql, loose, fallbacks, normal);
      } else {
        Passed(s.bySql, loose, fallbacks, normal);
      }
    }
  }

  /**
   * Over any mix of Describes and Executes on any recording: a recorded signature gets its next result, the last one
   * again once they run out; an unrecorded one whose SQL was recorded gets that SQL's next result, counting fallbacks
   * only; any other gets nothing. The tiers do not disturb each other and no queue empties.
   */
  lemma {:induction false} TwoTiers(entries: seq<Entry>, calls: seq<Call>)
    ensures InStep(Run(Load(entries), calls).shelf, entries, calls)
    ensures calls != [] ==> Run(Load(entries), calls).result
                            == Expected(entries, calls[..|calls| - 1], calls[|calls| - 1])
    decreases |calls|
  {
    hide Load, Lookup, Expected, Stocked, SignatureOf, Normalise;
    Loaded(entries);
    if calls != [] {
      var before, call := calls[..|calls| - 1], calls[|calls| - 1];
      TwoTiers(entries, before);
      LookedUp(Run(Load(entries), before).shelf, entries, before, call);
      assert calls == before + [call];
    }
  }

  function Answered(entries: seq<Entry>, calls: seq<Call>): nat {
    if calls == [] then 0
    else
      var before, last := calls[..|calls| - 1], calls[|calls| - 1];
      Answered(entries, before) + (if last.Execute? && Expected(entries, before, last).Some? then 1 else 0)
  }

  /** The SQL of some executed call that found nothing. */
  ghost predicate Missed(entries: seq<Entry>, calls: seq<Call>, sql: Text) {
    exists i :: 0 <= i < |calls| && calls[i].Execute? && Normalise(calls[i].sql) == sql
                && Expected(entries, calls[..i], calls[i]).None?
  }

  /** The statistics: matched counts the executed calls that were answered, missing names exactly the others. */
  lemma {:induction false} CountsAreExact(entries: seq<Entry>, calls: seq<Call>)
    ensures var s := Run(Load(entries), calls).shelf;
            && s.matched == Answered(entries, calls)
            && forall sql :: sql in s.missing <==> Missed(entries, calls, sql)
    decreases |calls|
  {
    hide Load, Lookup, Expected, Normalise, InStep, Stocked, Missed;
    Loaded(entries);
    if calls == [] {
      NoneMissed(entries);
    } else {
      var before, call := calls[..|calls| - 1], calls[|calls| - 1];
      CountsAreExact(entries, before);
      TwoTiers(entries, before);
      var s := Run(Load(entries), before).shelf;
      LookedUp(s, entries, before, call);
      assert calls == before + [call];
      forall sql
        ensures Missed(entries, calls, sql) <==>
                || Missed(entries, before, sql)
                || (call.Execute? && Normalise(call.sql) == sql && Expected(entries, before, call).None?)
      {
        MissedGrows(entries, before, call, sql);
      }
    }
  }

  lemma {:induction false} NoneMissed(entries: seq<Entry>)
    ensures forall sql :: !Missed(entries, [], sql)
  {
  }

  lemma {:induction false} MissedGrows(entries: seq<Entry>, before: seq<Call>, call: Call, sql: Text)
    ensures Missed(entries, before + [call], sql) <==>
            || Missed(entries, before, sql)
            || (call.Execute? && Normalise(call.sql) == sql && Expected(entries, before, call).None?)
  {
    hide Expected, Normalise;
    var calls := before + [call];
    assert calls[..|before|] == before;
    forall i | 0 <= i < |before| ensures calls[..i] == before[..i] && calls[i] == before[i] {
    }
    if Missed(entries, before, sql) {
      var i :| 0 <= i < |before| && before[i].Execute? && Normalise(before[i].sql) == sql
               && Expected(entries, before[..i], before[i]).None?;
      assert calls[i].Execute? && Expected(entries, calls[..i], calls[i]).None?;
    }
    if Missed(entries, calls, sql) {
      var i :| 0 <= i < |calls| && calls[i].Execute? && Normalise(calls[i].sql) == sql
               && Expected(entries, calls[..i], calls[i]).None?;
    }
    if call.Execute? && Normalise(call.sql) == sql && Expected(entries, before, call).None? {
      assert calls[|before|].Execute?;
    }
  }

  /** After any calls, what an Execute is answered. */
  lemma {:induction false} ExecuteGets(entries: seq<Entry>, before: seq<Call>, call: Call)
    ensures Run(Load(entries), before + [call]).result == Expected(entries, before, call)
  {
    hide Load, Expected, InStep, Run;
    TwoTiers(entries, before + [call]);
    assert (before + [call])[..|before|] == before;
  }

  lemma {:induction false} CountGrows(keys: seq<Text>, last: Text, key: Text)
    ensures Count(keys + [last], key) == Count(keys, key) + (if last == key then 1 else 0)
  {
    assert (keys + [last])[..|keys|] == keys;
  }

  /**
   * A Describe is not read-only: describing a statement moves the queue it will be executed from. After any calls, the
   * Execute that follows a Describe is answered as the Execute alone would have been, exactly when no more than one
   * result of its queue was left, or the next two are the same. The queue is that of the exact signature if it was
   * recorded, and else that of the SQL; a statement in neither is answered nothing in both cases.
   */
  lemma {:induction false} DescribeConsumes(entries: seq<Entry>, before: seq<Call>, sql: Text, params: Row)
    ensures var exact := Filed(SignatureLog(entries), SignatureOf(sql, params));
            var loose := Filed(SqlLog(entries), Normalise(sql));
            var queue := if exact != [] then exact else loose;
            var k := if exact != [] then Count(Signatures(before), SignatureOf(sql, params))
                     else Count(Fallbacks(entries, before), Normalise(sql));
            Run(Load(entries), before + [Describe(sql, params), Execute(sql, params)]).result
            == Run(Load(entries), before + [Execute(sql, params)]).result
            <==> |queue| <= k + 1 || queue[k] == queue[k + 1]
  {
    hide Load, Run, SignatureOf, Normalise, Filed, SignatureLog, SqlLog, Count;
    var describe, execute := Describe(sql, params), Execute(sql, params);
    ExecuteGets(entries, before, execute);
    ExecuteGets(entries, before + [describe], execute);
    assert before + [describe] + [execute] == before + [describe, execute];
    SignaturesAppend(before, describe);
    CountGrows(Signatures(before), SignatureOf(sql, params), SignatureOf(sql, params));
    assert (before + [describe])[..|before|] == before;
    CountGrows(Fallbacks(entries, before), Normalise(sql), Normalise(sql));
  }

  /** One statement, recorded first with `a` and then with `b`. */
  function RecordedTwice(sql: Text, a: RecordedResult, b: RecordedResult): seq<Entry> {
    [Postgres(sql, [], a), Postgres(sql, [], b)]
  }

  /** Executed alone, the statement gets its first result; described before, it gets its second. */
  lemma {:induction false} DescribedGetsSecond(sql: Text, a: RecordedResult, b: RecordedResult)
    ensures var s := Load(RecordedTwice(sql, a, b));
            && Run(s, [Execute(sql, [])]).result == Some(a)
            && Run(s, [Describe(sql, []), Execute(sql, [])]).result == Some(b)
  {
    hide Load, Run, SignatureOf, Normalise;
    var entries, key := RecordedTwice(sql, a, b), SignatureOf(sql, []);
    var first := [Postgres(sql, [], a)];
    assert entries[..1] == first && first[..0] == [];
    assert SignatureLog(first) == SignatureLog([]) + [(key, a)] == [(key, a)];
    assert SignatureLog(entries) == [(key, a)] + [(key, b)] == [(key, a), (key, b)];
    assert [(key, a), (key, b)][..1] == [(key, a)] && [(key, a)][..0] == [];
    assert Filed([(key, a)], key) == Filed<Text, RecordedResult>([], key) + [a] == [a];
    assert Filed(SignatureLog(entries), key) == [a] + [b] == [a, b];
    var describe, execute := Describe(sql, []), Execute(sql, []);
    ExecuteGets(entries, [], execute);
    ExecuteGets(entries, [describe], execute);
    assert [] + [execute] == [execute] && [describe] + [execute] == [describe, execute];
    SignaturesAppend([], describe);
    CountGrows([], key, key);
    assert [] + [describe] == [describe] && Signatures([]) == [];
  }
}
