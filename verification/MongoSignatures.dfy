/**
 * Which MongoDB commands share a signature, and what the replay makes up: `signatureOf`, `handshakeReply` and `replyTo`
 * of src/replay/mongoReplayServer.ts, read from the documents themselves.
 */
module MongoSignatures {
  import opened Wire
  import opened Words
  import opened Playback
  import opened Documents
  import opened MongoReplays
  import Doubles

  // ----- the parts of a command -----

  /** The name of the command: its first key. */
  function NameIn(d: Document): Text {
    if d == [] then [] else d[0].key
  }

  /** The collection: the text under the first key. */
  function CollectionIn(d: Document): Text {
    if d != [] && d[0].value.Str? then d[0].value.text else []
  }

  /** Everything but null, false, zero, NaN and the empty text. */
  predicate IsTruthy(v: Value) {
    v !in {Null, Bool(false), Num(Doubles.Int(0)), Num(Doubles.NegativeZero), Num(Doubles.NotANumber), Str([])}
  }

  predicate Has(d: Document, key: Text, v: Value) {
    exists i :: 0 <= i < |d| && d[i].key == key && d[i].value == v
  }

  /** `filter`. */
  const FILTER: Text := [102, 105, 108, 116, 101, 114]

  /** The filter, where the document holds one that is not falsy. */
  ghost predicate IsFilter(d: Document, filter: Option<Value>) {
    match filter
    case Some(v) => Has(d, FILTER, v) && IsTruthy(v)
    case None => forall v :: Has(d, FILTER, v) ==> !IsTruthy(v)
  }

  lemma {:induction false} LookupHolds(d: Document, key: Text, v: Value)
    requires IsObject(d)
    ensures Lookup(d, key) == Some(v) <==> Has(d, key, v)
  {
    hide IsIndex, Precedes;
    if Has(d, key, v) {
      var i :| 0 <= i < |d| && d[i].key == key && d[i].value == v;
      var at := Find(d, key);
    }
  }

  lemma {:induction false} TargetIs(d: Document)
    requires IsObject(d)
    ensures TargetText(d) == CollectionIn(d)
  {
    hide IsObject, Find;
    if d != [] {
      assert Has(d, d[0].key, d[0].value);
      LookupHolds(d, d[0].key, d[0].value);
    } else {
      assert Find(d, []).None?;
    }
  }

  lemma {:induction false} TruthIs(v: Value)
    ensures Truthy(v) <==> IsTruthy(v)
  {
  }

  lemma {:induction false} FilterIs(stringify: Stringify, d: Document, filter: Option<Value>)
    requires IsObject(d) && IsFilter(d, filter)
    ensures FilterText(stringify, d) == if filter.Some? then stringify(filter.value) else []
  {
    hide IsObject, Has, Lookup, Truthy, IsTruthy;
    var key := Ascii("filter");
    assert key == FILTER;
    var found := Lookup(d, key);
    if found.Some? {
      LookupHolds(d, key, found.value);
      TruthIs(found.value);
    }
    if filter.Some? {
      LookupHolds(d, key, filter.value);
      TruthIs(filter.value);
    }
  }

  // ----- the signature -----

  /** A signature is the name, the collection and the filter's JSON with a space between them, trimmed. */
  lemma {:induction false} SignatureText(stringify: Stringify, d: Document, filter: Option<Value>) returns (lead: nat)
    requires IsObject(d) && IsFilter(d, filter)
    ensures var json := if filter.Some? then stringify(filter.value) else [];
            IsTrimmed(SignatureOf(stringify, d), NameIn(d) + [32] + CollectionIn(d) + [32] + json, lead)
  {
    hide IsObject, IsFilter, TargetText, FilterText, TrimStart, TrimEnd;
    TargetIs(d);
    FilterIs(stringify, d, filter);
    var json := if filter.Some? then stringify(filter.value) else [];
    lead := TrimIs(NameIn(d) + [32] + CollectionIn(d) + [32] + json);
  }

  predicate HasNoBlank(t: Text) {
    forall i | 0 <= i < |t| :: t[i] !in BLANKS
  }

  /** JSON texts are not empty, and neither start nor end in a blank. */
  predicate IsJsonText(t: Text) {
    t != [] && t[0] !in BLANKS && t[|t| - 1] !in BLANKS
  }

  /** The name and the collection are clean, and the filter, if there is one, has a JSON text. */
  ghost predicate IsClean(stringify: Stringify, d: Document, filter: Option<Value>) {
    && IsObject(d) && IsFilter(d, filter)
    && NameIn(d) != [] && HasNoBlank(NameIn(d)) && HasNoBlank(CollectionIn(d))
    && (filter.Some? ==> IsJsonText(stringify(filter.value)))
  }

  /** The signature of a clean command. */
  function Parts(name: Text, collection: Text, json: Option<Text>): Text {
    match json
    case Some(j) => name + [32] + collection + [32] + j
    case None => if collection == [] then name else name + [32] + collection
  }

  function JsonOf(stringify: Stringify, filter: Option<Value>): Option<Text> {
    match filter
    case None => None
    case Some(v) => Some(stringify(v))
  }

  lemma {:induction false} CleanSignature(stringify: Stringify, d: Document, filter: Option<Value>)
    requires IsClean(stringify, d, filter)
    ensures SignatureOf(stringify, d) == Parts(NameIn(d), CollectionIn(d), JsonOf(stringify, filter))
  {
    hide IsObject, IsFilter, SignatureOf;
    var lead := SignatureText(stringify, d, filter);
    var json := if filter.Some? then stringify(filter.value) else [];
    TrimmedOnce(SignatureOf(stringify, d), NameIn(d), CollectionIn(d), json, lead);
  }

  lemma {:induction false} TrimmedOnce(t: Text, name: Text, collection: Text, json: Text, lead: nat)
    requires name != [] && HasNoBlank(name) && HasNoBlank(collection) && (json != [] ==> IsJsonText(json))
    requires IsTrimmed(t, name + [32] + collection + [32] + json, lead)
    ensures t == Parts(name, collection, if json == [] then None else Some(json))
  {
    var whole := name + [32] + collection + [32] + json;
    var kept := Parts(name, collection, if json == [] then None else Some(json));
    assert whole[0] == name[0];
    assert whole[..|kept|] == kept;
    assert kept[|kept| - 1] !in BLANKS && whole[|kept| - 1] == kept[|kept| - 1];
    assert kept[0] !in BLANKS;
    assert lead == 0;
    assert |t| == |kept|;
  }

  lemma {:induction false} FirstBlank(name: Text, rest: Text, other: Text, others: Text)
    requires HasNoBlank(name) && HasNoBlank(other) && name + [32] + rest == other + [32] + others
    ensures name == other && rest == others
  {
    var whole := name + [32] + rest;
    assert whole[|name|] == 32 && whole[|other|] == 32;
    assert whole[..|name|] == name && whole[..|other|] == other;
    assert whole[|name| + 1..] == rest && whole[|other| + 1..] == others;
  }

  lemma {:induction false} BlankIn(t: Text, a: Text, b: Text)
    requires t == a + [32] + b
    ensures !HasNoBlank(t)
  {
    assert t[|a|] == 32;
  }

  /** The three parts are found again. */
  lemma {:induction false} PartsApart(name: Text, collection: Text, json: Option<Text>, other: Text, others: Text,
          more: Option<Text>)
    requires name != [] && HasNoBlank(name) && HasNoBlank(collection) && (json.Some? ==> json.value != [])
    requires other != [] && HasNoBlank(other) && HasNoBlank(others) && (more.Some? ==> more.value != [])
    requires Parts(name, collection, json) == Parts(other, others, more)
    ensures name == other && collection == others && json == more
  {
    hide HasNoBlank;
    var a := if json.Some? then collection + [32] + json.value else collection;
    var b := if more.Some? then others + [32] + more.value else others;
    var t := Parts(name, collection, json);
    assert a != [] ==> t == name + [32] + a;
    assert b != [] ==> t == other + [32] + b;
    assert a == [] ==> t == name;
    assert b == [] ==> t == other;
    if a == [] && b != [] {
      BlankIn(t, other, b);
    } else if a != [] && b == [] {
      BlankIn(t, name, a);
    } else if a != [] {
      FirstBlank(name, a, other, b);
      if json.Some? && more.Some? {
        FirstBlank(collection, json.value, others, more.value);
      } else if json.Some? {
        BlankIn(b, collection, json.value);
      } else if more.Some? {
        BlankIn(a, others, more.value);
      }
    }
  }

  /**
   * Two commands with clean names and collections share a signature exactly when command and collection are equal, and
   * either neither has a filter or both have one of the same JSON text.
   */
  lemma {:induction false} SignatureIdentity(stringify: Stringify, d: Document, filter: Option<Value>, e: Document,
          other: Option<Value>)
    requires IsClean(stringify, d, filter) && IsClean(stringify, e, other)
    ensures SignatureOf(stringify, d) == SignatureOf(stringify, e)
            <==> && NameIn(d) == NameIn(e) && CollectionIn(d) == CollectionIn(e)
                 && filter.Some? == other.Some?
                 && (filter.Some? ==> stringify(filter.value) == stringify(other.value))
  {
    CleanSignature(stringify, d, filter);
    CleanSignature(stringify, e, other);
    hide SignatureOf, Parts, IsObject, IsFilter;
    if SignatureOf(stringify, d) == SignatureOf(stringify, e) {
      PartsApart(NameIn(d), CollectionIn(d), JsonOf(stringify, filter),
                 NameIn(e), CollectionIn(e), JsonOf(stringify, other));
    }
  }

  /** `find`, and `users`. */
  const FIND: Text := [102, 105, 110, 100]
  const USERS: Text := [117, 115, 101, 114, 115]

  function Named(): Document {
    [Entry(FIND, Str(USERS + [32, 49]))]
  }

  function Filtered(): Document {
    [Entry(FIND, Str(USERS)), Entry(FILTER, Num(Doubles.Int(1)))]
  }

  lemma {:induction false} FormsOfOne()
    ensures IsObject(Named()) && IsFilter(Named(), None)
    ensures IsObject(Filtered()) && IsFilter(Filtered(), Some(Num(Doubles.Int(1))))
  {
    assert !IsIndex(FIND) && !IsIndex(FILTER) by {
      assert FIND[0] == 102 && FILTER[0] == 102;
    }
    hide IsIndex;
    assert |FIND| == 4 && |FILTER| == 6;
    assert Filtered()[1].key == FILTER;
  }

  /** The collection `users 1` is taken for the collection `users` with the filter 1. */
  lemma {:induction false} CollectionConfuses(stringify: Stringify)
    requires stringify(Num(Doubles.Int(1))) == [49]
    ensures SignatureOf(stringify, Named()) == SignatureOf(stringify, Filtered())
  {
    hide SignatureOf, IsObject, IsFilter, FIND, USERS, FILTER;
    FormsOfOne();
    WordsAreClean();
    CleanSignature(stringify, Filtered(), Some(Num(Doubles.Int(1))));
    var lead := SignatureText(stringify, Named(), None);
    var t := FIND + [32] + USERS + [32] + [49];
    assert FIND + [32] + (USERS + [32, 49]) + [32] + [] == t + [32];
    assert t[0] == FIND[0];
    TrimmedTail(SignatureOf(stringify, Named()), t, lead);
  }

  lemma {:induction false} WordsAreClean()
    ensures FIND != [] && HasNoBlank(FIND) && HasNoBlank(USERS)
  {
  }

  lemma {:induction false} TrimmedTail(t: Text, kept: Text, lead: nat)
    requires kept != [] && kept[0] !in BLANKS && kept[|kept| - 1] !in BLANKS && IsTrimmed(t, kept + [32], lead)
    ensures t == kept
  {
    var whole := kept + [32];
    assert whole[0] == kept[0] && whole[|kept| - 1] == kept[|kept| - 1] && whole[|kept|] == 32;
    assert lead == 0;
    assert |t| == |kept|;
  }

  // ----- what is made up -----

  /** The one value under a key. */
  predicate Says(d: Document, key: string, v: Value) {
    && (exists i :: 0 <= i < |d| && d[i].key == Ascii(key) && d[i].value == v)
    && forall i | 0 <= i < |d| && d[i].key == Ascii(key) :: d[i].value == v
  }

  lemma {:induction false} SaysAt(d: Document, i: nat, key: string, v: Value)
    requires i < |d| && d[i] == Entry(Ascii(key), v)
    requires forall j | 0 <= j < |d| && d[j].key == Ascii(key) :: j == i
    ensures Says(d, key, v)
  {
  }

  predicate IsNegotiation(name: Text) {
    || name == Ascii("hello") || name == Ascii("ismaster") || name == Ascii("isMaster")
    || name == Ascii("ping") || name == Ascii("buildInfo") || name == Ascii("buildinfo")
  }

  predicate IsBookkeeping(name: Text) {
    || name == Ascii("endSessions") || name == Ascii("killCursors") || name == Ascii("logout")
    || name == Ascii("abortTransaction") || name == Ascii("getFreeMonitoringStatus")
    || name == Ascii("saslStart") || name == Ascii("saslContinue")
  }

  /** A writable standalone server whose wire versions run from 0 to 17, at the time of asking. */
  function Welcome(now: int): seq<(string, Value)> {
    [("ok", Num(Doubles.Int(1))), ("isWritablePrimary", Bool(true)), ("ismaster", Bool(true)),
     ("maxBsonObjectSize", Num(Doubles.Int(16 * 1024 * 1024))),
     ("maxMessageSizeBytes", Num(Doubles.Int(48_000_000))), ("maxWriteBatchSize", Num(Doubles.Int(100_000))),
     ("localTime", Date(now)), ("logicalSessionTimeoutMinutes", Num(Doubles.Int(30))),
     ("minWireVersion", Num(Doubles.Int(0))), ("maxWireVersion", Num(Doubles.Int(17))), ("readOnly", Bool(false))]
  }

  /** The reply says this and no more, in whatever order. */
  predicate IsWelcome(d: Document, now: int) {
    && |d| == |Welcome(now)|
    && forall i | 0 <= i < |Welcome(now)| :: Says(d, Welcome(now)[i].0, Welcome(now)[i].1)
  }

  /** Tells the eleven keys apart: their length, and one byte where lengths are equal. */
  function Mark(key: Text): int {
    if |key| == 17 then 1700 + key[3]
    else if |key| == 14 then 1400 + key[1]
    else if |key| == 8 then 800 + key[0]
    else |key|
  }

  lemma {:induction false} MarksDiffer(now: int)
    ensures var w := Welcome(now);
            forall i, j | 0 <= i < |w| && 0 <= j < |w| && i != j :: Mark(Ascii(w[i].0)) != Mark(Ascii(w[j].0))
  {
    var w := Welcome(now);
    var marks := [2, 1700 + 114, 800 + 105, 1700 + 66, 19, 1700 + 87, 9, 28,
                  1400 + 105, 1400 + 97, 800 + 114];
    assert forall i | 0 <= i < |w| :: Mark(Ascii(w[i].0)) == marks[i];
    hide Mark, Welcome, Ascii;
    assert forall i, j | 0 <= i < 11 && 0 <= j < 11 && i != j :: marks[i] != marks[j];
  }

  lemma {:induction false} HandshakeIsWelcome(now: int)
    ensures IsWelcome(HandshakeReply(now), now)
  {
    var d, w := HandshakeReply(now), Welcome(now);
    MarksDiffer(now);
    assert |d| == |w| == 11;
    assert forall i | 0 <= i < |w| :: d[i] == Entry(Ascii(w[i].0), w[i].1);
    hide Welcome, HandshakeReply, Says, Mark, Ascii;
    forall i | 0 <= i < |w| ensures Says(d, w[i].0, w[i].1) {
      forall j | 0 <= j < |d| && d[j].key == Ascii(w[i].0) ensures j == i {
        assert d[j].key == Ascii(w[j].0) && Mark(Ascii(w[i].0)) == Mark(Ascii(w[j].0));
      }
      SaysAt(d, i, w[i].0, w[i].1);
    }
  }

  lemma {:induction false} OthersAreLookups(document: Document)
    ensures var name := NameIn(document);
            && (name in HANDSHAKE <==> IsNegotiation(name)) && (name in HOUSEKEEPING <==> IsBookkeeping(name))
  {
    hide Ascii;
  }

  lemma {:induction false} NamesDiffer(name: Text)
    ensures !(IsNegotiation(name) && IsBookkeeping(name))
  {
    assert forall s: string :: |Ascii(s)| == |s|;
    assert Ascii("buildInfo")[0] == 98 && Ascii("buildinfo")[0] == 98 && Ascii("saslStart")[0] == 115;
    hide Ascii;
  }

  /** An error that says the command was never recorded, and quotes its signature. */
  predicate IsRefusal(d: Document, key: Text) {
    && Says(d, "ok", Num(Doubles.Int(0))) && Says(d, "code", Num(Doubles.Int(59)))
    && Says(d, "errmsg", Str(Ascii("cognivox has no recording for: ") + key)) && |d| == 3
  }

  lemma {:induction false} NoRecordingIsRefusal(key: Text)
    ensures IsRefusal(NoRecording(key), key)
  {
    var d := NoRecording(key);
    assert |d[0].key| == 2 && |d[1].key| == 4 && |d[2].key| == 6;
    hide Ascii;
    SaysAt(d, 0, "ok", Num(Doubles.Int(0)));
    SaysAt(d, 1, "code", Num(Doubles.Int(59)));
    SaysAt(d, 2, "errmsg", Str(Ascii("cognivox has no recording for: ") + key));
  }

  /**
   * Over any calls on any recording: a driver's negotiation is welcomed, its bookkeeping is acknowledged, and any other
   * command whose signature was never recorded is refused; an empty result is never made up.
   */
  lemma {:induction false} NeverMadeUp(stringify: Stringify, log: seq<(Text, Document)>, calls: seq<Call>, i: nat)
    requires i < |calls|
    ensures var reply := Ask(stringify, Load(log), calls).replies[i];
            var name, key := NameIn(calls[i].document), SignatureOf(stringify, calls[i].document);
            && (IsNegotiation(name) ==> IsWelcome(reply, calls[i].now))
            && (IsBookkeeping(name) ==> Says(reply, "ok", Num(Doubles.Int(1))) && |reply| == 1)
            && (!IsNegotiation(name) && !IsBookkeeping(name) ==>
                  if exists j :: 0 <= j < |log| && log[j].0 == key then
                    exists j :: 0 <= j < |log| && log[j] == (key, reply)
                  else IsRefusal(reply, key))
  {
    hide SignatureOf, Ask, Load, HandshakeReply, NoRecording, Filed, Count, Lookups, IsWelcome, IsRefusal, Misses;
    hide IsNegotiation, IsBookkeeping;
    var document := calls[i].document;
    var name, key := NameIn(document), SignatureOf(stringify, document);
    NeverGuesses(stringify, log, calls);
    OthersAreLookups(document);
    NamesDiffer(name);
    HandshakeIsWelcome(calls[i].now);
    NoRecordingIsRefusal(key);
    var queue := Filed(log, key);
    if queue != [] {
      var k := Count(Lookups(stringify, calls[..i]), key);
      var j := FiledFrom(log, key, if k < |queue| then k else |queue| - 1);
    } else if exists j :: 0 <= j < |log| && log[j].0 == key {
      var j :| 0 <= j < |log| && log[j].0 == key;
      FiledInOrder(log, j);
    }
    AcknowledgedIs();
  }

  lemma {:induction false} AcknowledgedIs()
    ensures Says(Acknowledged(), "ok", Num(Doubles.Int(1))) && |Acknowledged()| == 1
  {
    SaysAt(Acknowledged(), 0, "ok", Num(Doubles.Int(1)));
  }
}
