/**
 * Recording a Redis connection and replaying the recording, end to end.
 *
 * The recorder watches both byte streams in whatever chunks they arrive; the replay server later reads the same client
 * bytes in whatever chunks they arrive. What the server writes is what Redis wrote.
 */
module RedisEndToEnd {
  import opened Wire
  import opened Streams
  import opened Playback
  import Decimal
  import Resp
  import opened RedisRecorders
  import opened RedisReplays

  /** The recording a run leaves behind. */
  function EntriesOf(interactions: seq<Interaction>): (entries: seq<Entry>)
    ensures |entries| == |interactions|
  {
    seq(|interactions|, i requires 0 <= i < |interactions| => Redis(interactions[i]))
  }

  /** Replies filed under the signatures of the commands they answered. */
  function LogFor(commands: seq<Resp.Command>, replies: seq<Resp.Value>): (log: seq<(Text, Resp.Value)>)
    requires |commands| == |replies|
    ensures |log| == |commands|
  {
    seq(|commands|, i requires 0 <= i < |commands| => (KeyOf(commands[i]), replies[i]))
  }

  /** Storing pairs in a recording and loading it files every reply, unchanged, under its own command. */
  lemma {:induction false} LoadedPairs(commands: seq<Resp.Command>, replies: seq<Resp.Value>)
    requires |commands| == |replies|
    ensures LogOf(EntriesOf(Pairs(commands, replies))) == LogFor(commands, replies)
    decreases |commands|
  {
    hide Resp.Describe, Resp.FromStored, Resp.Readable, KeyOf;
    var n := |commands| - 1;
    var entries := EntriesOf(Pairs(commands, replies));
    if commands != [] {
      LoadedPairs(commands[..n], replies[..n]);
      assert EntriesOf(Pairs(commands[..n], replies[..n])) == entries[..n];
      Resp.FromDescribe(replies[n]);
      assert LogFor(commands, replies) == LogFor(commands[..n], replies[..n]) + [(KeyOf(commands[n]), replies[n])];
    }
  }

  /** Asking a log's own keys in order, and then more, begins with the log's own replies. */
  lemma {:induction false} AskedInOrder(commands: seq<Resp.Command>, replies: seq<Resp.Value>)
    requires |replies| <= |commands|
    ensures var log := LogFor(commands[..|replies|], replies);
            replies <= Ask(Load(log), KeysOf(commands)).replies
  {
    hide Load, Ask, KeyOf;
    var log, keys := LogFor(commands[..|replies|], replies), KeysOf(commands);
    NeverGuesses(log, keys);
    var end := Ask(Load(log), keys);
    forall i | 0 <= i < |replies| ensures end.replies[i] == replies[i] {
      FiledInOrder(log, i);
      assert Keys(log)[..i] == keys[..i] && log[i].0 == keys[i];
      assert end.replies[i] == Expected(log, keys, i);
    }
  }

  /** The replay state loaded from what a run recorded. */
  function ReplayOf(events: seq<Event>): Shelf {
    Load(LogOf(EntriesOf(Recorded(events))))
  }

  lemma {:induction false} RecordingLoads(events: seq<Event>)
    requires Causal(events)
    ensures |Replies(events)| <= |Commands(events)|
    ensures LogOf(EntriesOf(Recorded(events)))
            == LogFor(Commands(events)[..|Replies(events)|], Replies(events))
  {
    hide Recorded, Replies, Commands;
    PairedInOrder(events);
    LoadedPairs(Commands(events)[..|Replies(events)|], Replies(events));
  }

  lemma {:induction false} EncodeIsNotEmpty(value: Resp.Value)
    ensures Resp.Encode(value) != []
  {
  }

  /**
   * Replaying a causal run. The same client bytes, cut in any way, are answered with the recorded values in recorded
   * order, whatever the client sent and however many commands share a signature. Nothing more is written exactly when
   * every command was answered in the recording.
   */
  lemma {:induction false} ReplayAnswersAlike(events: seq<Event>, chunks: seq<Bytes>)
    requires Causal(events) && Concat(chunks) == ClientBytes(events)
    ensures var written := Written(ReplayOf(events), chunks);
            && Resp.EncodeAll(Replies(events)) <= written
            && (written == Resp.EncodeAll(Replies(events)) <==> |Replies(events)| == |Commands(events)|)
  {
    hide Recorded, Replies, Load, LogOf, Ask, Resp.Encode, Written, Parse, Resp.Read;
    RecordingLoads(events);
    var s := ReplayOf(events);
    WrittenIs(s, chunks);
    var answers := Ask(s, KeysOf(Commands(events))).replies;
    assert Written(s, chunks) == Resp.EncodeAll(answers);
    AskedInOrder(Commands(events), Replies(events));
    var more := answers[|Replies(events)|..];
    assert answers == Replies(events) + more;
    EncodeAllAppend(Replies(events), more);
    if more != [] {
      EncodeIsNotEmpty(more[0]);
    }
  }

  /**
   * Record, then replay: byte for byte. For any client stream and any well-formed replies, in any interleaving of
   * chunks where no reply completes before its command, replaying the same client bytes in any chunks makes the server
   * write exactly the bytes Redis wrote.
   */
  lemma {:induction false} RecordThenReplay(replies: seq<Resp.Value>, events: seq<Event>, chunks: seq<Bytes>)
    requires forall i | 0 <= i < |replies| :: Resp.WellFormed(replies[i])
    requires ServerBytes(events) == Resp.EncodeAll(replies)
    requires Causal(events) && |replies| == |Commands(events)|
    requires Concat(chunks) == ClientBytes(events)
    ensures Written(ReplayOf(events), chunks) == ServerBytes(events)
  {
    hide Recorded, Commands, Load, LogOf, Written, Resp.WellFormed, Parse;
    Resp.ParseEncodeAll(replies);
    assert Replies(events) == replies;
    ReplayAnswersAlike(events, chunks);
  }

  // ----- for any commands -----

  function BulkArrays(commands: seq<seq<Text>>): (values: seq<Resp.Value>)
    ensures |values| == |commands|
  {
    seq(|commands|, i requires 0 <= i < |commands| => Resp.BulkArray(commands[i]))
  }

  /** A command as a client sends it: a verb and arguments, of lengths a number can hold. */
  predicate Sendable(command: seq<Text>) {
    command != [] && Resp.WellFormed(Resp.BulkArray(command))
  }

  lemma {:induction false} CommandsCounted(commands: seq<seq<Text>>)
    requires forall i | 0 <= i < |commands| :: Sendable(commands[i])
    ensures |CommandsIn(BulkArrays(commands))| == |commands|
    decreases |commands|
  {
    hide Resp.ToCommand, Resp.WellFormed;
    if commands != [] {
      Resp.CommandOfBulkArray(commands[0]);
      assert BulkArrays(commands)[1..] == BulkArrays(commands[1..]);
      CommandsCounted(commands[1..]);
    }
  }

  function Requested(cuts: seq<Bytes>): (events: seq<Event>)
    ensures |events| == |cuts|
  {
    seq(|cuts|, i requires 0 <= i < |cuts| => ClientData(cuts[i]))
  }

  lemma {:induction false} RequestedBytes(cuts: seq<Bytes>)
    ensures ClientBytes(Requested(cuts)) == Concat(cuts) && ServerBytes(Requested(cuts)) == []
    decreases |cuts|
  {
    if cuts == [] {
    } else {
      var n := |cuts| - 1;
      RequestedBytes(cuts[..n]);
      assert Requested(cuts)[..n] == Requested(cuts[..n]);
      ConcatAppend(cuts[..n], [cuts[n]]);
      assert cuts == cuts[..n] + [cuts[n]] && Concat([cuts[n]]) == cuts[n] + [];
      assert ServerBytes(Requested(cuts[..n])) + [] == [];
    }
  }

  /** A pipelining client: every command is sent, in any chunks, before the replies arrive. */
  function Pipeline(cuts: seq<Bytes>, replies: seq<Resp.Value>): seq<Event> {
    Requested(cuts) + [ServerData(Resp.EncodeAll(replies))]
  }

  lemma {:induction false} PipelineIsCausal(commands: seq<seq<Text>>, replies: seq<Resp.Value>, cuts: seq<Bytes>)
    requires |commands| == |replies| && (forall i | 0 <= i < |commands| :: Sendable(commands[i]))
    requires forall i | 0 <= i < |replies| :: Resp.WellFormed(replies[i])
    requires Concat(cuts) == Resp.EncodeAll(BulkArrays(commands))
    ensures var events := Pipeline(cuts, replies);
            && ClientBytes(events) == Concat(cuts) && ServerBytes(events) == Resp.EncodeAll(replies)
            && |Commands(events)| == |replies| && Causal(events)
  {
    hide Resp.Read, Resp.WellFormed, Parse, CommandsIn, Resp.EncodeAll;
    var events, n := Pipeline(cuts, replies), |cuts|;
    assert events[..n] == Requested(cuts);
    RequestedBytes(cuts);
    assert Concat(cuts) + [] == Concat(cuts) && [] + Resp.EncodeAll(replies) == Resp.EncodeAll(replies);
    Resp.ParseEncodeAll(BulkArrays(commands));
    Resp.ParseEncodeAll(replies);
    CommandsCounted(commands);
    forall m | 0 <= m <= |events| ensures InOrder(events, m) {
      if m <= n {
        assert events[..m] == Requested(cuts[..m]);
        RequestedBytes(cuts[..m]);
        Empty();
      } else {
        assert events[..m] == events;
      }
    }
  }

  /** For any commands and any well-formed replies: what a pipelining client was sent is what its replay sends it. */
  lemma {:induction false} PipelineReplays(commands: seq<seq<Text>>, replies: seq<Resp.Value>, cuts: seq<Bytes>,
          chunks: seq<Bytes>)
    requires |commands| == |replies| && (forall i | 0 <= i < |commands| :: Sendable(commands[i]))
    requires forall i | 0 <= i < |replies| :: Resp.WellFormed(replies[i])
    requires Concat(cuts) == Resp.EncodeAll(BulkArrays(commands)) == Concat(chunks)
    ensures Written(ReplayOf(Pipeline(cuts, replies)), chunks) == Resp.EncodeAll(replies)
  {
    hide Resp.WellFormed, Resp.EncodeAll, Written, ReplayOf, Causal, Commands;
    PipelineIsCausal(commands, replies, cuts);
    RecordThenReplay(replies, Pipeline(cuts, replies), chunks);
  }

  // ----- where bytes are not preserved -----

  /** What replay writes for a reply that was recorded as one whole line. */
  function Rewritten(line: Bytes): Bytes
    requires Resp.Read(line).Done?
  {
    Resp.Encode(Resp.Read(line).value)
  }

  /** The line of an integer reply. */
  function IntegerLine(n: int): Bytes {
    Resp.Line(Resp.INTEGER, Decimal.Literal(n))
  }

  /**
   * Exactly which integer replies survive. The recorder reads the integer that was sent if and only if it is a multiple
   * of the gap between the doubles around it; replay writes the line that was sent if and only if the integer is the
   * multiple of its own power of ten nearest to its double, and no rounding of the double to more zeros reads back.
   * Every integer reply a Redis server can send is in this range.
   */
  lemma {:induction false} IntegerSurvives(n: int)
    requires -Decimal.EXPONENT < Decimal.Double(n) < Decimal.EXPONENT
    ensures var read := Resp.Read(IntegerLine(n));
            && read.Done? && read.value.Integer?
            && (read.value.n == n <==> Decimal.Abs(n) % Decimal.Gap(Decimal.Abs(n)) == 0)
            && Decimal.IsDouble(Decimal.Double(n))
            && (Rewritten(IntegerLine(n)) == IntegerLine(n) <==> Decimal.IsShortest(n))
  {
    hide Decimal.Number, Decimal.Literal, Decimal.Print, Decimal.Double, Decimal.Shown, Decimal.Gap, Resp.ReadHeader;
    var text := Decimal.Literal(n);
    var line := IntegerLine(n);
    Resp.LiteralIsLine(n);
    Resp.ReadHeaderOfLine(Resp.INTEGER, text, []);
    assert line + [] == line;
    Decimal.DoubleTwice(n);
    Decimal.ReadExactly(n);
    Decimal.PrintedBack(n);
    var printed := Decimal.Print(Decimal.Double(n));
    assert line[1..|line| - 2] == text;
    assert Rewritten(line)[1..|Rewritten(line)| - 2] == printed;
  }

  /** Integer replies up to 2^53 are replayed as they were sent. */
  lemma {:induction false} SafeIntegerReplaysExactly(n: int)
    requires Decimal.IsSafe(n)
    ensures Resp.Read(IntegerLine(n)).Done? && Rewritten(IntegerLine(n)) == IntegerLine(n)
  {
    hide Decimal.Shown, Rewritten, Decimal.Literal;
    Decimal.SafeIsExact(n);
    IntegerSurvives(n);
    Decimal.PrintedBack(n);
  }

  /** No odd integer reply past 2^53 is: it reaches the app as another number. */
  lemma {:induction false} OddIntegerReplaysWrong(n: int)
    requires n % 2 == 1 && !Decimal.IsSafe(n) && -Decimal.EXPONENT < Decimal.Double(n) < Decimal.EXPONENT
    ensures var read := Resp.Read(IntegerLine(n));
            read.Done? && read.value.Integer? && read.value.n != n && Rewritten(IntegerLine(n)) != IntegerLine(n)
  {
    hide Decimal.Shown, Rewritten, Decimal.Literal, Decimal.Gap, Decimal.Double;
    IntegerSurvives(n);
    Decimal.ReadExactly(n);
    Decimal.OddIsLost(n);
    Decimal.PrintedBack(n);
  }

  /** 2^53 + 1 reaches the app as another number. */
  lemma {:induction false} OddIntegerLost()
    ensures var n := Decimal.TWO53 + 1;
            var read := Resp.Read(IntegerLine(n));
            read.Done? && read.value.Integer? && read.value.n != n && Rewritten(IntegerLine(n)) != IntegerLine(n)
  {
    hide Decimal.Double, Decimal.IsSafe;
    Decimal.OddWitness();
    assert !Decimal.IsSafe(Decimal.TWO53 + 1) by {
      Decimal.FirstUnsafe();
    }
    OddIntegerReplaysWrong(Decimal.TWO53 + 1);
  }

  /** 2^62 is recorded exactly and written back as another number. */
  lemma {:induction false} EvenIntegerLost()
    ensures var n := Decimal.TWO62;
            var read := Resp.Read(IntegerLine(n));
            read.Done? && read.value.Integer? && read.value.n == n && Rewritten(IntegerLine(n)) != IntegerLine(n)
  {
    hide Decimal.Shown, Decimal.Double, Decimal.Gap, Rewritten, IntegerLine;
    hide Decimal.IsShortest;
    Decimal.EvenWitness();
    Decimal.ReadExactly(Decimal.TWO62);
    IntegerSurvives(Decimal.TWO62);
  }

  // ----- one reply per command -----

  /** An error line read back as itself, with bytes after it, holds no line end of its own. */
  lemma {:induction false} ErrorReadBack(text: Text, rest: Bytes)
    requires Resp.Read(Resp.Encode(Resp.Error(text)) + rest).Done?
    requires Resp.Read(Resp.Encode(Resp.Error(text)) + rest).value == Resp.Error(text)
    ensures Resp.IsLine(text)
  {
    var b := Resp.Line(Resp.ERROR, text) + rest;
    Resp.LineEndFirst(b, 0);
    forall i | 0 <= i < |text| ensures !Resp.EndsLine(text, i) {
      assert b[i + 1] == text[i] && (i + 1 < |text| ==> b[i + 2] == text[i + 1]);
      assert !Resp.EndsLine(b, i + 1);
    }
  }

  /** The answers a client can tell apart: well-formed values, and errors whatever their text. */
  predicate Sayable(value: Resp.Value) {
    value.Error? || Resp.WellFormed(value)
  }

  /** Answers read back one for one exactly when no error text breaks its line. */
  lemma {:induction false} ReadBackOneForOne(answers: seq<Resp.Value>)
    requires forall i | 0 <= i < |answers| :: Sayable(answers[i])
    ensures Parse(Resp.Read, Resp.EncodeAll(answers)) == Parsed(answers, [])
            <==> forall i | 0 <= i < |answers| :: answers[i].Error? ==> Resp.IsLine(answers[i].text)
    decreases |answers|
  {
    hide Resp.Decode, Resp.Encode, Resp.IsLine;
    if answers != [] {
      var first, rest := answers[0], Resp.EncodeAll(answers[1..]);
      var b := Resp.EncodeAll(answers);
      ReadBackOneForOne(answers[1..]);
      if Resp.WellFormed(first) {
        Resp.DecodeOfEncode(first, rest);
        assert b[|Resp.Encode(first)|..] == rest;
        EncodeIsNotEmpty(first);
        assert [first] + answers[1..] == answers;
        assert first.Error? ==> Resp.IsLine(first.text);
        forall i | 0 < i < |answers| ensures answers[i] == answers[1..][i - 1] {
        }
        assert forall i | 0 <= i < |answers| - 1 :: answers[1..][i] == answers[i + 1];
      } else {
        assert first.Error? && !Resp.IsLine(first.text);
        if Parse(Resp.Read, b) == Parsed(answers, []) {
          assert Parse(Resp.Read, b).values[0] == first;
          ErrorReadBack(first.text, rest);
        }
      }
    }
  }

  lemma {:induction false} NoRecordingIsLine(key: Text)
    ensures Resp.IsLine(NoRecording(key).text) <==> Resp.IsLine(key)
  {
    var prefix := Ascii("ERR cognivox has no recording for: ");
    var text := prefix + key;
    assert forall i | 0 <= i < |prefix| :: prefix[i] != Resp.CR;
    forall i | 0 <= i < |key| ensures Resp.EndsLine(key, i) == Resp.EndsLine(text, |prefix| + i) {
      assert text[|prefix| + i] == key[i] && (i + 1 < |key| ==> text[|prefix| + i + 1] == key[i + 1]);
    }
    forall i | 0 <= i < |prefix| ensures !Resp.EndsLine(text, i) {
      assert text[i] == prefix[i];
    }
    if Resp.IsLine(key) {
      forall i | 0 <= i < |text| ensures !Resp.EndsLine(text, i) {
        assert i >= |prefix| ==> Resp.EndsLine(key, i - |prefix|) == Resp.EndsLine(text, i);
      }
    }
  }

  // ----- replies of a kind that was not understood -----

  /** What a client reads of a value: in place of a value the recorder did not understand, an error. */
  function AsRead(value: Resp.Value): Resp.Value
    decreases value
  {
    match value
    case Unsupported(_) => Resp.Error(Ascii("ERR cognivox recorded an unsupported reply"))
    case Array(items) => Resp.Array(AllAsRead(items))
    case _ => value
  }

  function AllAsRead(values: seq<Resp.Value>): (read: seq<Resp.Value>)
    ensures |read| == |values|
    decreases values
  {
    if values == [] then [] else [AsRead(values[0])] + AllAsRead(values[1..])
  }

  lemma {:induction false} EncodeAsRead(value: Resp.Value)
    ensures Resp.Encode(AsRead(value)) == Resp.Encode(value)
    decreases value
  {
    hide Ascii, Resp.Line, Decimal.Print, Decimal.Literal;
    if value.Array? {
      EncodeAllAsRead(value.items);
    }
  }

  lemma {:induction false} EncodeAllAsRead(values: seq<Resp.Value>)
    ensures Resp.EncodeAll(AllAsRead(values)) == Resp.EncodeAll(values)
    decreases values
  {
    hide Resp.Encode, AsRead;
    if values != [] {
      EncodeAsRead(values[0]);
      EncodeAllAsRead(values[1..]);
    }
  }

  lemma {:induction false} AsReadAt(values: seq<Resp.Value>, i: nat)
    requires i < |values|
    ensures AllAsRead(values)[i] == AsRead(values[i])
    decreases |values|
  {
    hide AsRead;
    if i > 0 {
      AsReadAt(values[1..], i - 1);
    }
  }

  /** A recording whose replies can be written and read. */
  predicate IsWritable(log: seq<(Text, Resp.Value)>) {
    forall i | 0 <= i < |log| :: Resp.WellFormed(AsRead(log[i].1))
  }

  /**
   * A client that sends commands reads exactly the answer to each, in order, if and only if no unrecorded signature it
   * asks for contains a line end: that error quotes the signature and would split into two replies.
   */
  lemma {:induction false} OneReplyPerCommand(log: seq<(Text, Resp.Value)>, chunks: seq<Bytes>)
    requires IsWritable(log)
    ensures var keys := KeysOf(CommandsIn(Parse(Resp.Read, Concat(chunks)).values));
            Parse(Resp.Read, Written(Load(log), chunks)) == Parsed(AllAsRead(Ask(Load(log), keys).replies), [])
            <==> forall i | 0 <= i < |keys| :: Filed(log, keys[i]) == [] ==> Resp.IsLine(keys[i])
  {
    hide Resp.Read, Resp.Encode, Resp.IsLine, AsRead, AllAsRead, Written, Load, Ask, Filed, NoRecording, Parse;
    hide IsWritable, Expected;
    var keys := KeysOf(CommandsIn(Parse(Resp.Read, Concat(chunks)).values));
    var answers := Ask(Load(log), keys).replies;
    WrittenIs(Load(log), chunks);
    NeverGuesses(log, keys);
    EncodeAllAsRead(answers);
    AnswerShapes(log, keys, answers);
    ReadBackOneForOne(AllAsRead(answers));
  }

  lemma {:induction false} AnswerShapes(log: seq<(Text, Resp.Value)>, keys: seq<Text>, answers: seq<Resp.Value>)
    requires IsWritable(log)
    requires |answers| == |keys| && forall i | 0 <= i < |keys| :: answers[i] == Expected(log, keys, i)
    ensures var read := AllAsRead(answers);
            forall i | 0 <= i < |read| ::
              && Sayable(read[i])
              && ((read[i].Error? ==> Resp.IsLine(read[i].text))
                  <==> (Filed(log, keys[i]) == [] ==> Resp.IsLine(keys[i])))
  {
    hide Filed, Resp.IsLine, Sayable, AsRead, AllAsRead, Expected;
    var read := AllAsRead(answers);
    forall i | 0 <= i < |read|
      ensures Sayable(read[i])
      ensures (read[i].Error? ==> Resp.IsLine(read[i].text))
              <==> (Filed(log, keys[i]) == [] ==> Resp.IsLine(keys[i]))
    {
      AsReadAt(answers, i);
      AnswerShape(log, keys, i);
    }
  }

  lemma {:induction false} AnswerShape(log: seq<(Text, Resp.Value)>, keys: seq<Text>, i: nat)
    requires i < |keys| && IsWritable(log)
    ensures var read := AsRead(Expected(log, keys, i));
            && Sayable(read)
            && ((read.Error? ==> Resp.IsLine(read.text)) <==> (Filed(log, keys[i]) == [] ==> Resp.IsLine(keys[i])))
  {
    hide Filed, Resp.IsLine;
    NoRecordingIsLine(keys[i]);
    var recorded := Filed(log, keys[i]);
    if recorded != [] {
      var k := Count(keys[..i], keys[i]);
      var at := FiledFrom(log, keys[i], if k < |recorded| then k else |recorded| - 1);
    }
  }

  const NO_RECORDING: Text := Ascii("ERR cognivox has no recording for: ")

  /** `GET` of a key that holds a line end and a status reply. */
  const SPLITTING: seq<Text> := [[71, 69, 84], [97, 13, 10, 43, 79, 75]]

  /** One unrecorded command is answered with two replies: an error that quotes half its key, and `OK`. */
  lemma {:induction false} KeySplits()
    ensures Parse(Resp.Read, Written(Load([]), [Resp.Encode(Resp.BulkArray(SPLITTING))]))
            == Parsed([Resp.Error(NO_RECORDING + [71, 69, 84, 32, 97]), Resp.Simple([79, 75])], [])
  {
    hide Resp.Read, Written, Ask, NoRecording, Resp.Encode, Resp.BulkArray, KeyOf;
    var sent, key := Resp.Encode(Resp.BulkArray(SPLITTING)), SPLITTING[0] + [32] + SPLITTING[1];
    OneCommand();
    WrittenIs(Load([]), [sent]);
    OneMiss(key);
    OneErrorReadsAsTwo(key);
  }

  lemma {:induction false} OneCommand()
    ensures var sent := Resp.Encode(Resp.BulkArray(SPLITTING));
            KeysOf(CommandsIn(Parse(Resp.Read, Concat([sent])).values)) == [SPLITTING[0] + [32] + SPLITTING[1]]
  {
    hide Resp.Read, Resp.Encode, Parse;
    var value := Resp.BulkArray(SPLITTING);
    var sent := Resp.Encode(value);
    assert [value][1..] == [] && sent + [] == sent;
    assert Concat([sent]) == sent && Resp.EncodeAll([value]) == sent;
    assert Resp.WellFormed(value);
    Resp.ParseEncodeAll([value]);
    hide Resp.BulkArray, Resp.WellFormed;
    Resp.CommandOfBulkArray(SPLITTING);
    assert Resp.Upper([71, 69, 84]) == [71, 69, 84];
    assert SPLITTING[1..] == [SPLITTING[1]] && Resp.Upper(Resp.Upper(SPLITTING[0])) == SPLITTING[0];
    var words := [SPLITTING[0], SPLITTING[1]];
    assert words[1..] == [SPLITTING[1]];
    assert [SPLITTING[0]] + [SPLITTING[1]] == words;
  }

  lemma {:induction false} OneMiss(key: Text)
    ensures Ask(Load([]), [key]).replies == [NoRecording(key)]
  {
    hide NoRecording;
    assert [key][..0] == [];
  }

  lemma {:induction false} OneErrorReadsAsTwo(key: Text)
    requires key == SPLITTING[0] + [32] + SPLITTING[1]
    ensures Parse(Resp.Read, Resp.EncodeAll([NoRecording(key)]))
            == Parsed([Resp.Error(NO_RECORDING + [71, 69, 84, 32, 97]), Resp.Simple([79, 75])], [])
  {
    hide Resp.Read, Parse, Ascii;
    var first, second := Resp.Error(NO_RECORDING + [71, 69, 84, 32, 97]), Resp.Simple([79, 75]);
    assert [first, second][1..] == [second] && [second][1..] == [] && [NoRecording(key)][1..] == [];
    assert Resp.EncodeAll([NoRecording(key)]) == Resp.EncodeAll([first, second]) by {
      hide NO_RECORDING;
      assert Resp.Encode(NoRecording(key)) == Resp.Encode(first) + Resp.Encode(second);
    }
    assert Resp.IsLine(first.text) by {
      PrefixIsLine();
    }
    Resp.ParseEncodeAll([first, second]);
  }

  lemma {:induction false} PrefixIsLine()
    ensures Resp.IsLine(NO_RECORDING + [71, 69, 84, 32, 97])
  {
    assert forall i | 0 <= i < |NO_RECORDING| :: NO_RECORDING[i] != Resp.CR;
  }
}
