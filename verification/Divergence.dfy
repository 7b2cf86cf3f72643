/**
 * Noticing when a replay stops reflecting reality: src/replay/divergence.ts.
 *
 * The regular expressions that recognise writes, reads, tables and non-determinism are parameters: the laws hold
 * whatever they recognise.
 */
module Divergence {
  import opened Wire
  import opened Words

  /** What the regular expressions say of a statement. */
  datatype Dialect = Dialect(
    tableOf: Text -> Option<Text>, isWrite: Text -> bool, isRead: Text -> bool,
    readsClock: Text -> bool, isRandom: Text -> bool, allocates: Text -> bool)

  datatype Kind = StaleRead | NonDeterministic

  datatype Detail = UnrecordedWrite | ReadAfterWrite(table: Text) | Replays(reason: string)

  datatype Warning = Warning(kind: Kind, statement: Text, detail: Detail)

  /** One space between words, and at most 90 bytes. */
  function Compact(sql: Text): (t: Text)
    ensures |t| <= 90
  {
    var single := Normalise(sql);
    if |single| > 90 then single[..87] + Ascii("...") else single
  }

  function KindName(kind: Kind): Text {
    match kind
    case StaleRead => Ascii("stale-read")
    case NonDeterministic => Ascii("non-deterministic")
  }

  /** The key under which a warning is reported once. */
  function KeyOf(w: Warning): Text {
    KindName(w.kind) + Ascii(":") + w.statement
  }

  function ReasonFor(d: Dialect, sql: Text): Option<string> {
    if d.readsClock(sql) then Some("reads the clock")
    else if d.isRandom(sql) then Some("is random")
    else if d.allocates(sql) then Some("allocates an identifier")
    else None
  }

  /** The tables written so far, this statement included. */
  function Written(d: Dialect, written: set<Text>, sql: Text): set<Text> {
    if d.isWrite(sql) && d.tableOf(sql).Some? then written + {d.tableOf(sql).value} else written
  }

  /** The most severe thing to say of a statement, given the tables written up to and including it. */
  function Evaluate(d: Dialect, written: set<Text>, sql: Text, wasRecorded: bool): Option<Warning> {
    var table := d.tableOf(sql);
    if d.isWrite(sql) && !wasRecorded then
      Some(Warning(StaleRead, Compact(sql), UnrecordedWrite))
    else if !d.isWrite(sql) && d.isRead(sql) && table.Some? && table.value in written then
      Some(Warning(StaleRead, Compact(sql), ReadAfterWrite(table.value)))
    else
      match ReasonFor(d, sql)
      case None => None
      case Some(reason) => Some(Warning(NonDeterministic, Compact(sql), Replays(reason)))
  }

  datatype State = State(written: set<Text>, warnings: seq<Warning>, seen: set<Text>)

  const INITIAL := State({}, [], {})

  datatype Observed = Observed(state: State, warning: Option<Warning>)

  function Observe(d: Dialect, s: State, sql: Text, wasRecorded: bool): Observed {
    var written := Written(d, s.written, sql);
    match Evaluate(d, written, sql, wasRecorded)
    case None => Observed(s.(written := written), None)
    case Some(w) =>
      if KeyOf(w) in s.seen then Observed(s.(written := written), None)
      else Observed(State(written, s.warnings + [w], s.seen + {KeyOf(w)}), Some(w))
  }

  class DivergenceTracker {
    const dialect: Dialect
    var writtenTables: set<Text>
    var warnings: seq<Warning>
    var seen: set<Text>

    function Now(): State
      reads this
    {
      State(writtenTables, warnings, seen)
    }

    constructor (dialect: Dialect)
      ensures this.dialect == dialect && Now() == INITIAL
    {
      this.dialect := dialect;
      writtenTables, warnings, seen := {}, [], {};
    }

    method ObserveStatement(sql: Text, wasRecorded: bool) returns (raised: Option<Warning>)
      modifies this
      ensures Observed(Now(), raised) == Observe(dialect, old(Now()), sql, wasRecorded)
    {
      writtenTables := Written(dialect, writtenTables, sql);
      var warning := Evaluate(dialect, writtenTables, sql, wasRecorded);
      if warning.None? {
        return None;
      }
      var key := KeyOf(warning.value);
      if key in seen {
        return None;
      }
      seen := seen + {key};
      warnings := warnings + [warning.value];
      return warning;
    }

    method All() returns (all: seq<Warning>)
      ensures all == warnings
    {
      all := warnings;
    }
  }

  // ----- whole runs -----

  datatype Statement = Statement(sql: Text, wasRecorded: bool)

  function Run(d: Dialect, run: seq<Statement>): State {
    if run == [] then INITIAL
    else
      var last := run[|run| - 1];
      Observe(d, Run(d, run[..|run| - 1]), last.sql, last.wasRecorded).state
  }

  /** What the i-th statement of a run evaluates to, whether or not it is reported. */
  function EvaluatedAt(d: Dialect, run: seq<Statement>, i: nat): Option<Warning>
    requires i < |run|
  {
    Evaluate(d, Written(d, Run(d, run[..i]).written, run[i].sql), run[i].sql, run[i].wasRecorded)
  }

  /** All evaluated warnings of a run, in order, repetitions included. */
  function Evaluated(d: Dialect, run: seq<Statement>): seq<Warning> {
    if run == [] then []
    else
      var w := EvaluatedAt(d, run, |run| - 1);
      Evaluated(d, run[..|run| - 1]) + (if w.Some? then [w.value] else [])
  }

  /** Some earlier statement of the run is a write that names `table`. */
  ghost predicate WrittenBefore(d: Dialect, run: seq<Statement>, i: nat, table: Text)
    requires i <= |run|
  {
    exists j :: 0 <= j < i && d.isWrite(run[j].sql) && d.tableOf(run[j].sql) == Some(table)
  }

  lemma {:induction false} WrittenTables(d: Dialect, run: seq<Statement>, table: Text)
    ensures table in Run(d, run).written <==> WrittenBefore(d, run, |run|, table)
    decreases |run|
  {
    if run != [] {
      var before, last := run[..|run| - 1], run[|run| - 1];
      WrittenTables(d, before, table);
      if WrittenBefore(d, before, |before|, table) {
        var j :| 0 <= j < |before| && d.isWrite(before[j].sql) && d.tableOf(before[j].sql) == Some(table);
        assert run[j] == before[j];
      }
      if WrittenBefore(d, run, |run|, table) {
        var j :| 0 <= j < |run| && d.isWrite(run[j].sql) && d.tableOf(run[j].sql) == Some(table);
        assert j < |before| ==> before[j] == run[j];
      }
    }
  }

  lemma {:induction false} WrittenAt(d: Dialect, run: seq<Statement>, i: nat, table: Text)
    requires i < |run|
    ensures table in Run(d, run[..i]).written <==> WrittenBefore(d, run, i, table)
  {
    WrittenTables(d, run[..i], table);
    if WrittenBefore(d, run, i, table) {
      var j :| 0 <= j < i && d.isWrite(run[j].sql) && d.tableOf(run[j].sql) == Some(table);
      assert run[..i][j] == run[j];
    }
    if WrittenBefore(d, run[..i], i, table) {
      var j :| 0 <= j < i && d.isWrite(run[..i][j].sql) && d.tableOf(run[..i][j].sql) == Some(table);
      assert run[..i][j] == run[j];
    }
  }

  /**
   * At every point of every run: a statement evaluates to stale-read exactly when it is a write that was not recorded,
   * or a read of a table that an earlier statement of this run wrote.
   */
  lemma {:induction false} StaleExactly(d: Dialect, run: seq<Statement>, i: nat)
    requires i < |run|
    ensures var sql := run[i].sql;
            (EvaluatedAt(d, run, i).Some? && EvaluatedAt(d, run, i).value.kind == StaleRead)
            <==> || (d.isWrite(sql) && !run[i].wasRecorded)
                 || (!d.isWrite(sql) && d.isRead(sql) && d.tableOf(sql).Some?
                     && WrittenBefore(d, run, i, d.tableOf(sql).value))
  {
    var sql := run[i].sql;
    if d.tableOf(sql).Some? {
      WrittenAt(d, run, i, d.tableOf(sql).value);
    }
  }

  // ----- what is said of a statement -----

  /** A write that the recording does not hold. */
  predicate IsUnrecordedWrite(d: Dialect, s: Statement) {
    d.isWrite(s.sql) && !s.wasRecorded
  }

  /** A read of `table`, which an earlier statement of the run wrote. */
  ghost predicate IsReadAfterWrite(d: Dialect, run: seq<Statement>, i: nat, table: Text)
    requires i < |run|
  {
    && !d.isWrite(run[i].sql) && d.isRead(run[i].sql) && d.tableOf(run[i].sql) == Some(table)
    && WrittenBefore(d, run, i, table)
  }

  ghost predicate IsStale(d: Dialect, run: seq<Statement>, i: nat)
    requires i < |run|
  {
    IsUnrecordedWrite(d, run[i]) || exists table :: IsReadAfterWrite(d, run, i, table)
  }

  /** The text of a statement as it is reported: its words with a space between them, cut at 87 bytes past 90. */
  predicate IsReported(t: Text, sql: Text) {
    var words := Join(WordsOf(sql));
    if |words| <= 90 then t == words else |t| == 90 && t[..87] == words[..87] && t[87..] == [46, 46, 46]
  }

  lemma {:induction false} CompactIsReported(sql: Text)
    ensures IsReported(Compact(sql), sql)
  {
    NormaliseJoins(sql);
    hide Normalise, Join, WordsOf;
    var dots := Ascii("...");
    assert dots == [46, 46, 46];
  }

  /**
   * Exactly what is said of the statement at every point of every run. First, that it is a write the recording does not
   * hold; else, that it reads a table this run wrote; else, that it reads the clock, is random, or allocates an
   * identifier, the first of them that its text shows, whether it reads or writes; and else nothing.
   */
  lemma {:induction false} SaidExactly(d: Dialect, run: seq<Statement>, i: nat)
    requires i < |run|
    ensures var s, said := run[i], EvaluatedAt(d, run, i);
            && (said.Some? ==> IsReported(said.value.statement, s.sql))
            && (said.Some? && said.value.kind == StaleRead <==> IsStale(d, run, i))
            && (IsUnrecordedWrite(d, s) ==> said.Some? && said.value.detail == UnrecordedWrite)
            && (forall table :: IsReadAfterWrite(d, run, i, table) ==>
                  said.Some? && said.value.detail == ReadAfterWrite(table))
            && (!IsStale(d, run, i) ==>
                  if d.readsClock(s.sql) then
                    said.Some? && said.value.kind == NonDeterministic && said.value.detail == Replays("reads the clock")
                  else if d.isRandom(s.sql) then
                    said.Some? && said.value.kind == NonDeterministic && said.value.detail == Replays("is random")
                  else if d.allocates(s.sql) then
                    && said.Some? && said.value.kind == NonDeterministic
                    && said.value.detail == Replays("allocates an identifier")
                  else said.None?)
  {
    hide Compact, IsReported;
    var sql := run[i].sql;
    CompactIsReported(sql);
    StaleExactly(d, run, i);
    if d.tableOf(sql).Some? {
      var table := d.tableOf(sql).value;
      WrittenAt(d, run, i, table);
      assert IsReadAfterWrite(d, run, i, table)
          <==> !d.isWrite(sql) && d.isRead(sql) && WrittenBefore(d, run, i, table);
    }
  }

  /** Two warnings are the same report when they are of one kind about one compacted statement. */
  predicate SameReport(v: Warning, w: Warning) {
    v.kind == w.kind && v.statement == w.statement
  }

  lemma {:induction false} KeyIdentity(v: Warning, w: Warning)
    ensures KeyOf(v) == KeyOf(w) <==> SameReport(v, w)
  {
    assert KeyOf(v)[0] == KindName(v.kind)[0] && KeyOf(w)[0] == KindName(w.kind)[0];
    if KeyOf(v) == KeyOf(w) {
      var n := |KindName(v.kind)| + 1;
      assert KeyOf(v)[n..] == v.statement && KeyOf(w)[n..] == w.statement;
    }
  }

  predicate Mentioned(ws: seq<Warning>, w: Warning) {
    exists i :: 0 <= i < |ws| && SameReport(ws[i], w)
  }

  /** The first report of each kind and statement, in order. */
  function FirstReports(ws: seq<Warning>): seq<Warning> {
    if ws == [] then []
    else
      var before, last := ws[..|ws| - 1], ws[|ws| - 1];
      FirstReports(before) + (if Mentioned(before, last) then [] else [last])
  }

  /** The seen keys are those of the evaluated warnings. */
  ghost predicate SeenAre(seen: set<Text>, ws: seq<Warning>) {
    forall w :: KeyOf(w) in seen <==> Mentioned(ws, w)
  }

  lemma {:induction false} MentionedGrows(ws: seq<Warning>, v: Warning, w: Warning)
    ensures Mentioned(ws + [v], w) <==> Mentioned(ws, w) || SameReport(v, w)
  {
    if Mentioned(ws, w) {
      var i :| 0 <= i < |ws| && SameReport(ws[i], w);
      assert (ws + [v])[i] == ws[i];
    }
    if SameReport(v, w) {
      assert (ws + [v])[|ws|] == v;
    }
  }

  /** `all()` is every warning the run evaluated to, in order, each kind and statement once. */
  lemma {:induction false} AllIsDeduplicated(d: Dialect, run: seq<Statement>)
    ensures Run(d, run).warnings == FirstReports(Evaluated(d, run))
    ensures SeenAre(Run(d, run).seen, Evaluated(d, run))
    decreases |run|
  {
    hide KeyOf, Evaluate, Written;
    if run != [] {
      var before := run[..|run| - 1];
      AllIsDeduplicated(d, before);
      var s, ws := Run(d, before), Evaluated(d, before);
      var w := EvaluatedAt(d, run, |run| - 1);
      if w.Some? {
        assert (ws + [w.value])[..|ws|] == ws;
        forall v ensures KeyOf(v) in Run(d, run).seen <==> Mentioned(ws + [w.value], v) {
          MentionedGrows(ws, w.value, v);
          KeyIdentity(w.value, v);
          assert KeyOf(v) in s.seen <==> Mentioned(ws, v);
        }
      } else {
        assert ws + [] == ws;
      }
    }
  }

  /** Observing a statement raises what is said of it, unless the same was said of the same text before. */
  lemma {:induction false} RaisedOnce(d: Dialect, run: seq<Statement>, i: nat)
    requires i < |run|
    ensures var said := EvaluatedAt(d, run, i);
            Observe(d, Run(d, run[..i]), run[i].sql, run[i].wasRecorded).warning
            == if said.Some? && !Mentioned(Evaluated(d, run[..i]), said.value) then said else None
  {
    hide KeyOf, Evaluate, Written, Mentioned, Evaluated;
    AllIsDeduplicated(d, run[..i]);
  }
}
