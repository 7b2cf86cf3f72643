/**
 * Answering Redis commands from a recording: src/replay/redisReplayServer.ts.
 */
module RedisReplays {
  import opened Wire
  import opened Streams
  import opened Playback
  import opened Words
  import Resp
  import opened RedisRecorders

  /** Recorded replies for one signature, and how many calls it has answered. */
  datatype Sequence = Sequence(replies: seq<Resp.Value>, next: nat)

  /** A sequence is created with its first reply, so it is never empty. */
  type ReplySequence = s: Sequence | s.replies != [] witness Sequence([Resp.NullBulk], 0)

  datatype Shelf = Shelf(sequences: map<Text, ReplySequence>, matched: nat, missing: set<Text>)

  /** The identity a recorded reply is filed under. Distinct commands may share one. */
  function SignatureOf(verb: Text, args: seq<Text>): Text {
    Join([Resp.Upper(verb)] + args)
  }

  function KeyOf(command: Resp.Command): Text {
    SignatureOf(command.verb, command.args)
  }

  function NoRecording(key: Text): Resp.Value {
    Resp.Error(Ascii("ERR cognivox has no recording for: ") + key)
  }

  // ----- loading a recording -----

  /** One line of a recording: a Redis interaction, or one of another protocol. */
  datatype Entry = Redis(interaction: Interaction) | OtherProtocol

  function File(s: Shelf, key: Text, reply: Resp.Value): Shelf {
    var replies := if key in s.sequences then s.sequences[key].replies + [reply] else [reply];
    var next := if key in s.sequences then s.sequences[key].next else 0;
    s.(sequences := s.sequences[key := Sequence(replies, next)])
  }

  /** The recorded replies with the keys they are filed under, in recorded order. */
  function LogOf(entries: seq<Entry>): seq<(Text, Resp.Value)> {
    if entries == [] then []
    else
      var last := entries[|entries| - 1];
      LogOf(entries[..|entries| - 1]) +
      (if last.Redis? then [(KeyOf(last.interaction.request), Resp.FromStored(last.interaction.response))] else [])
  }

  function Load(log: seq<(Text, Resp.Value)>): Shelf {
    if log == [] then Shelf(map[], 0, {})
    else File(Load(log[..|log| - 1]), log[|log| - 1].0, log[|log| - 1].1)
  }

  // ----- answering -----

  datatype Answered = Answered(state: Shelf, reply: Resp.Value)

  function ReplyTo(s: Shelf, key: Text): Answered {
    if key !in s.sequences then Answered(s.(missing := s.missing + {key}), NoRecording(key))
    else
      var sequence := s.sequences[key];
      var index := Min(sequence.next, |sequence.replies| - 1);
      Answered(
        s.(matched := s.matched + 1, sequences := s.sequences[key := sequence.(next := sequence.next + 1)]),
        sequence.replies[index])
  }

  class RedisReplay {
    var sequences: map<Text, ReplySequence>
    var matchedCount: nat
    var missing: set<Text>

    function Now(): Shelf
      reads this
    {
      Shelf(sequences, matchedCount, missing)
    }

    constructor (entries: seq<Entry>)
      ensures Now() == Load(LogOf(entries))
    {
      sequences, matchedCount, missing := map[], 0, {};
      new;
      for i := 0 to |entries|
        invariant Now() == Load(LogOf(entries[..i]))
        modifies this
      {
        assert entries[..i + 1][..i] == entries[..i];
        if entries[i].Redis? {
          var key := KeyOf(entries[i].interaction.request);
          var reply := Resp.FromStored(entries[i].interaction.response);
          ghost var log := LogOf(entries[..i]);
          assert (log + [(key, reply)])[..|log|] == log;
          if key in sequences {
            sequences := sequences[key := sequences[key].(replies := sequences[key].replies + [reply])];
          } else {
            sequences := sequences[key := Sequence([reply], 0)];
          }
        } else {
          assert LogOf(entries[..i]) + [] == LogOf(entries[..i]);
        }
      }
      assert entries[..|entries|] == entries;
    }

    method Answer(verb: Text, args: seq<Text>) returns (reply: Resp.Value)
      modifies this
      ensures Answered(Now(), reply) == ReplyTo(old(Now()), SignatureOf(verb, args))
    {
      var key := SignatureOf(verb, args);
      if key !in sequences {
        missing := missing + {key};
        return NoRecording(key);
      }
      matchedCount := matchedCount + 1;
      var sequence := sequences[key];
      var index := Min(sequence.next, |sequence.replies| - 1);
      sequences := sequences[key := sequence.(next := sequence.next + 1)];
      return sequence.replies[index];
    }
  }

  // ----- a connection to the server -----

  /** What a connection changes: the shared replay, and the bytes written back. */
  datatype Served = Served(state: Shelf, written: Bytes)

  function OnValue(s: Served, value: Resp.Value): Served {
    match Resp.ToCommand(value)
    case None => s
    case Some(command) =>
      var a := ReplyTo(s.state, KeyOf(command));
      Served(a.state, s.written + Resp.Encode(a.reply))
  }

  class Connection {
    const replay: RedisReplay
    var buffered: Bytes
    var written: Bytes

    ghost function Now(): Lane<Served>
      reads this, replay
    {
      Lane(buffered, Served(replay.Now(), written))
    }

    constructor (replay: RedisReplay)
      ensures this.replay == replay && buffered == [] && written == []
    {
      this.replay := replay;
      buffered, written := [], [];
    }

    method OnData(chunk: Bytes)
      modifies this, replay
      ensures Now() == Feed(Resp.Read, OnValue, old(Now()), chunk)
    {
      hide Resp.Decode, Resp.ToCommand, Finish, ReplyTo;
      var buffer := buffered + chunk;
      var offset := 0;
      ghost var end := Finish(Resp.Read, OnValue, Served(replay.Now(), written), buffer);
      assert buffer[0..] == buffer;
      while true
        invariant offset <= |buffer|
        invariant Finish(Resp.Read, OnValue, Served(replay.Now(), written), buffer[offset..]) == end
        decreases |buffer| - offset
      {
        Resp.DecodeAtOffset(buffer, offset);
        FinishStep(Resp.Read, OnValue, Served(replay.Now(), written), buffer[offset..]);
        var decoded := Resp.Decode(buffer, offset);
        if !decoded.Done? {
          break;
        }
        assert buffer[offset..][decoded.bytes..] == buffer[offset + decoded.bytes..];
        offset := offset + decoded.bytes;
        var command := Resp.ToCommand(decoded.value);
        if command.Some? {
          var reply := replay.Answer(command.value.verb, command.value.args);
          written := written + Resp.Encode(reply);
        }
      }
      buffered := buffer[offset..];
    }
  }

  // ----- replay never guesses -----

  datatype Session = Session(state: Shelf, replies: seq<Resp.Value>)

  /** A run of calls, oldest first. */
  function Ask(s: Shelf, keys: seq<Text>): (end: Session)
    ensures |end.replies| == |keys|
  {
    if keys == [] then Session(s, [])
    else
      var before := Ask(s, keys[..|keys| - 1]);
      var a := ReplyTo(before.state, keys[|keys| - 1]);
      Session(a.state, before.replies + [a.reply])
  }

  /** What the i-th call must be answered, from the recording alone. */
  function Expected(log: seq<(Text, Resp.Value)>, keys: seq<Text>, i: nat): Resp.Value
    requires i < |keys|
  {
    var recorded := Filed(log, keys[i]);
    if recorded == [] then NoRecording(keys[i]) else Nth(recorded, Count(keys[..i], keys[i]))
  }

  function Misses(log: seq<(Text, Resp.Value)>, keys: seq<Text>): nat {
    if keys == [] then 0
    else Misses(log, keys[..|keys| - 1]) + (if Filed(log, keys[|keys| - 1]) == [] then 1 else 0)
  }

  /** Every sequence holds the replies filed under its key and counts the calls it has answered. */
  ghost predicate Tracks(s: Shelf, log: seq<(Text, Resp.Value)>, keys: seq<Text>) {
    && (forall key :: key in s.sequences <==> Filed(log, key) != [])
    && (forall key | key in s.sequences :: s.sequences[key] == Sequence(Filed(log, key), Count(keys, key)))
  }

  lemma {:induction false} Loaded(log: seq<(Text, Resp.Value)>)
    ensures Tracks(Load(log), log, [])
    ensures Load(log).matched == 0 && Load(log).missing == {}
  {
    if log != [] {
      Loaded(log[..|log| - 1]);
      hide Filed;
      FiledTracks(Load(log[..|log| - 1]), log[..|log| - 1], log[|log| - 1].0, log[|log| - 1].1);
      assert log[..|log| - 1] + [(log[|log| - 1].0, log[|log| - 1].1)] == log;
    }
  }

  lemma {:induction false} FiledTracks(s: Shelf, log: seq<(Text, Resp.Value)>, key: Text, reply: Resp.Value)
    requires Tracks(s, log, [])
    ensures Tracks(File(s, key, reply), log + [(key, reply)], [])
  {
  }

  /** One call: the reply the recording calls for, and a shelf that still tracks it. */
  lemma {:induction false} Tracked(s: Shelf, log: seq<(Text, Resp.Value)>, keys: seq<Text>, key: Text)
    requires Tracks(s, log, keys)
    ensures var a := ReplyTo(s, key);
            && Tracks(a.state, log, keys + [key])
            && a.reply == Expected(log, keys + [key], |keys|)
  {
    hide Filed;
    assert (keys + [key])[..|keys|] == keys;
  }

  /**
   * Over any run of calls on any recording: the k-th call of a recorded signature gets its k-th recorded reply (the
   * last one again once they run out), an unrecorded one gets an error naming it, the missing set is exactly the
   * unrecorded signatures asked, and matched calls and misses add up to all calls.
   */
  lemma {:induction false} NeverGuesses(log: seq<(Text, Resp.Value)>, keys: seq<Text>)
    ensures var end := Ask(Load(log), keys);
            && Tracks(end.state, log, keys)
            && (forall i | 0 <= i < |keys| :: end.replies[i] == Expected(log, keys, i))
            && (forall key :: key in end.state.missing <==> key in keys && Filed(log, key) == [])
            && end.state.matched + Misses(log, keys) == |keys|
  {
    hide Filed, Count, Load;
    Loaded(log);
    if keys != [] {
      var before, key := keys[..|keys| - 1], keys[|keys| - 1];
      NeverGuesses(log, before);
      var s := Ask(Load(log), before);
      assert keys == before + [key];
      Tracked(s.state, log, before, key);
      forall i | 0 <= i < |keys| ensures Ask(Load(log), keys).replies[i] == Expected(log, keys, i) {
        assert i < |before| ==> keys[..i] == before[..i] && s.replies[i] == Expected(log, before, i);
      }
    }
  }

  // ----- what the server writes -----

  function KeysOf(commands: seq<Resp.Command>): (keys: seq<Text>)
    ensures |keys| == |commands|
  {
    seq(|commands|, i requires 0 <= i < |commands| => KeyOf(commands[i]))
  }

  lemma {:induction false} EncodeAllAppend(xs: seq<Resp.Value>, ys: seq<Resp.Value>)
    ensures Resp.EncodeAll(xs + ys) == Resp.EncodeAll(xs) + Resp.EncodeAll(ys)
  {
    hide Resp.Encode;
    if xs == [] {
      assert xs + ys == ys;
    } else {
      assert (xs + ys)[1..] == xs[1..] + ys;
      EncodeAllAppend(xs[1..], ys);
    }
  }

  /** Handling a stream of values writes the answers of its commands, encoded one after the other. */
  lemma {:induction false} ServedAll(s: Shelf, values: seq<Resp.Value>)
    ensures var end := Ask(s, KeysOf(CommandsIn(values)));
            Fold(OnValue, Served(s, []), values) == Served(end.state, Resp.EncodeAll(end.replies))
    decreases |values|
  {
    hide Resp.Encode, Resp.ToCommand, ReplyTo;
    if values != [] {
      var before, value := values[..|values| - 1], values[|values| - 1];
      assert values == before + [value];
      ServedAll(s, before);
      FoldAppend(OnValue, Served(s, []), before, [value]);
      CommandsInAppend(before, [value]);
      var keys, commands := KeysOf(CommandsIn(before)), CommandsIn([value]);
      assert Fold(OnValue, Served(s, []), values) == OnValue(Fold(OnValue, Served(s, []), before), value);
      if Resp.ToCommand(value).Some? {
        var key := KeyOf(Resp.ToCommand(value).value);
        assert commands == [Resp.ToCommand(value).value];
        assert KeysOf(CommandsIn(values)) == keys + [key];
        assert (keys + [key])[..|keys|] == keys;
        var a := ReplyTo(Ask(s, keys).state, key);
        EncodeAllAppend(Ask(s, keys).replies, [a.reply]);
        assert Resp.EncodeAll([a.reply]) == Resp.Encode(a.reply);
      } else {
        assert commands == [];
        assert CommandsIn(values) == CommandsIn(before);
      }
    }
  }

  /** What one connection writes for a client stream delivered in `chunks`. */
  function Written(s: Shelf, chunks: seq<Bytes>): Bytes {
    FeedAll(Resp.Read, OnValue, Lane([], Served(s, [])), chunks).state.written
  }

  /** However the client's bytes are cut, the server writes the answers to the commands in them, in order. */
  lemma {:induction false} WrittenIs(s: Shelf, chunks: seq<Bytes>)
    ensures var commands := CommandsIn(Parse(Resp.Read, Concat(chunks)).values);
            Written(s, chunks) == Resp.EncodeAll(Ask(s, KeysOf(commands)).replies)
  {
    Resp.ReadIsStable();
    FeedAnyChunks(Resp.Read, OnValue, Lane([], Served(s, [])), chunks);
    ServedAll(s, Parse(Resp.Read, Concat(chunks)).values);
    assert [] + Concat(chunks) == Concat(chunks);
  }
}
