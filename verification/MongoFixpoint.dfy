/**
 * Asking a MongoDB recording for what it recorded: stored and loaded, its commands are asked again in order.
 *
 * A driver's recording opens with a handshake. The replay makes the replies to handshakes and housekeeping up, so those
 * take nothing from the recording, and yet they are filed in it.
 */
module MongoFixpoint {
  import opened Wire
  import opened Streams
  import opened Words
  import opened Playback
  import opened Documents
  import opened MongoStored
  import opened BsonWriter
  import opened MongoMessages
  import opened MongoCommands
  import opened MongoRecorders
  import opened MongoReplays
  import opened MongoEndToEnd

  /** The lines of the stored recording. */
  function Lines(done: seq<Interaction>): (lines: seq<Line>)
    ensures |lines| == |done|
  {
    seq(|done|, i requires 0 <= i < |done| =>
      Mongo(StoredDocument(done[i].document), StoredDocument(done[i].response)))
  }

  /** The signature an interaction is filed under. */
  function KeyFiled(stringify: Stringify, i: Interaction): Text {
    SignatureOf(stringify, StoredDocument(i.document))
  }

  function Filing(stringify: Stringify, done: seq<Interaction>): (log: Log)
    ensures |log| == |done|
  {
    seq(|done|, i requires 0 <= i < |done| => (KeyFiled(stringify, done[i]), StoredDocument(done[i].response)))
  }

  /** Storing and loading a recording files every response under the signature of its command. */
  lemma {:induction false} LogIsFiling(stringify: Stringify, done: seq<Interaction>)
    ensures LogOf(stringify, Lines(done)) == Filing(stringify, done)
    decreases |done|
  {
    hide SignatureOf, StoredDocument;
    if done != [] {
      LogIsFiling(stringify, done[..|done| - 1]);
      assert Lines(done)[..|done| - 1] == Lines(done[..|done| - 1]);
    }
  }

  /** The first recorded commands asked again, in recorded order, in any form. */
  ghost predicate Repeats(requests: seq<Request>, done: seq<Interaction>) {
    |requests| <= |done| && forall i | 0 <= i < |requests| :: requests[i].message.body == done[i].document
  }

  // ----- signatures of stored commands -----

  /** What is filed under a command's signature is found under it. */
  predicate KeepsKey(stringify: Stringify, d: Document) {
    SignatureOf(stringify, StoredDocument(d)) == SignatureOf(stringify, d)
  }

  /** `stringify` writes what JSON can hold, so it does not tell a value from the stored one. */
  ghost predicate IsJson(stringify: Stringify) {
    forall v :: stringify(Stored(v)) == stringify(v)
  }

  /** The filter itself is not an infinity, which is truthy and stored as null. */
  predicate FiniteFilter(d: Document) {
    var filter := Lookup(d, Ascii("filter"));
    filter.Some? && filter.value.Num? ==> !IsInfinite(filter.value.n)
  }

  lemma {:induction false} StoredLookup(d: Document, key: Text)
    ensures Lookup(StoredDocument(d), key)
            == match Lookup(d, key) case None => None case Some(v) => Some(Stored(v))
  {
    FoundAlike(StoredDocument(d), d, key);
    hide Find, StoredDocument, Stored;
    if Find(d, key).Some? {
      StoredAt(d, Find(d, key).value);
    }
  }

  lemma {:induction false} StoredTruth(v: Value)
    requires v.Num? ==> !IsInfinite(v.n)
    ensures Truthy(Stored(v)) <==> Truthy(v)
  {
  }

  lemma {:induction false} NameKept(d: Document)
    ensures CommandNameOf(StoredDocument(d)) == CommandNameOf(d)
  {
  }

  lemma {:induction false} TargetKept(d: Document)
    ensures TargetText(StoredDocument(d)) == TargetText(d)
  {
    hide StoredDocument, Lookup, CommandNameOf;
    NameKept(d);
    StoredLookup(d, CommandNameOf(d));
  }

  lemma {:induction false} FilterKept(stringify: Stringify, d: Document)
    requires IsJson(stringify) && FiniteFilter(d)
    ensures FilterText(stringify, StoredDocument(d)) == FilterText(stringify, d)
  {
    hide StoredDocument, Lookup, Truthy, Ascii, Stored;
    var filter := Lookup(d, Ascii("filter"));
    StoredLookup(d, Ascii("filter"));
    if filter.Some? {
      StoredTruth(filter.value);
    }
  }

  lemma {:induction false} KeysKept(stringify: Stringify, d: Document)
    requires IsJson(stringify) && FiniteFilter(d)
    ensures KeepsKey(stringify, d)
  {
    hide CommandNameOf, TargetText, FilterText, TrimEnd, TrimStart, StoredDocument;
    NameKept(d);
    TargetKept(d);
    FilterKept(stringify, d);
  }

  /** A recording whose lookups are found under the signatures they are filed by. */
  ghost predicate KeepsKeys(stringify: Stringify, done: seq<Interaction>) {
    forall i | 0 <= i < |done| && IsLookup(done[i].document) :: KeepsKey(stringify, done[i].document)
  }

  // ----- the place of a lookup -----

  /** The signatures looked up when the recorded commands are asked again. */
  function Asked(stringify: Stringify, done: seq<Interaction>): seq<Text> {
    if done == [] then []
    else
      var last := done[|done| - 1].document;
      Asked(stringify, done[..|done| - 1]) + (if IsLookup(last) then [SignatureOf(stringify, last)] else [])
  }

  /** The recorded handshakes and housekeeping commands that are filed under `key`, and never asked for. */
  function Unasked(stringify: Stringify, done: seq<Interaction>, key: Text): nat {
    if done == [] then 0
    else
      var last := done[|done| - 1];
      Unasked(stringify, done[..|done| - 1], key)
      + (if !IsLookup(last.document) && KeyFiled(stringify, last) == key then 1 else 0)
  }

  lemma {:induction false} LookupsAsked(world: World, requests: seq<Request>, done: seq<Interaction>, n: nat)
    requires Repeats(requests, done) && n <= |requests|
    ensures Lookups(world.stringify, CallsOf(world, requests)[..n]) == Asked(world.stringify, done[..n])
    decreases n
  {
    hide SignatureOf, IsLookup;
    if n > 0 {
      LookupsAsked(world, requests, done, n - 1);
      var calls := CallsOf(world, requests);
      assert calls[..n][..n - 1] == calls[..n - 1] && done[..n][..n - 1] == done[..n - 1];
    }
  }

  /** Of the recorded commands filed under `key`, some are asked for and the others are not. */
  lemma {:induction false} FiledOrAsked(stringify: Stringify, done: seq<Interaction>, key: Text)
    requires KeepsKeys(stringify, done)
    ensures Count(Keys(Filing(stringify, done)), key)
            == Count(Asked(stringify, done), key) + Unasked(stringify, done, key)
    decreases |done|
  {
    hide SignatureOf, IsLookup, StoredDocument;
    if done != [] {
      var n := |done| - 1;
      var before, asked := done[..n], Asked(stringify, done[..n]);
      FiledOrAsked(stringify, before, key);
      assert Keys(Filing(stringify, done))[..n] == Keys(Filing(stringify, before));
      if IsLookup(done[n].document) {
        assert KeepsKey(stringify, done[n].document);
        assert (asked + [SignatureOf(stringify, done[n].document)])[..|asked|] == asked;
      } else {
        assert asked + [] == asked;
      }
    }
  }

  /** The responses filed under an interaction's signature; its own is the `PlaceOf`th. */
  function QueueOf(stringify: Stringify, done: seq<Interaction>, i: nat): seq<Document>
    requires i < |done|
  {
    Filed(Filing(stringify, done), KeyFiled(stringify, done[i]))
  }

  function PlaceOf(stringify: Stringify, done: seq<Interaction>, i: nat): nat
    requires i < |done|
  {
    Count(Keys(Filing(stringify, done))[..i], KeyFiled(stringify, done[i]))
  }

  /**
   * What a recorded command is answered when the recording is asked again in order. A handshake and a housekeeping
   * command get the reply the server makes up; a lookup gets a response filed under its signature, as many places
   * before its own as handshakes and housekeeping commands were filed there earlier.
   */
  lemma {:induction false} DueInTurn(world: World, requests: seq<Request>, done: seq<Interaction>, i: nat)
    requires Repeats(requests, done) && KeepsKeys(world.stringify, done) && i < |requests|
    ensures var due := DueTo(world, Filing(world.stringify, done), requests, i);
            var command, key := CommandNameOf(done[i].document), KeyFiled(world.stringify, done[i]);
            var queue, place := QueueOf(world.stringify, done, i), PlaceOf(world.stringify, done, i);
            var unasked := Unasked(world.stringify, done[..i], key);
            && unasked <= place < |queue| && queue[place] == StoredDocument(done[i].response)
            && due == if command in HANDSHAKE then HandshakeReply(world.clock(2 + i))
                      else if command in HOUSEKEEPING then Acknowledged()
                      else queue[place - unasked]
  {
    hide SignatureOf, StoredDocument, Filed, Count, HandshakeReply, Acknowledged, NoRecording, CommandNameOf;
    hide Unasked, Asked, Lookups;
    var stringify := world.stringify;
    var log, key := Filing(stringify, done), KeyFiled(stringify, done[i]);
    LookupsAsked(world, requests, done, i);
    KeptBefore(stringify, done, i);
    FiledOrAsked(stringify, done[..i], key);
    assert Keys(Filing(stringify, done[..i])) == Keys(log)[..i];
    FiledInOrder(log, i);
    assert IsLookup(done[i].document) ==> KeepsKey(stringify, done[i].document);
  }

  lemma {:induction false} KeptBefore(stringify: Stringify, done: seq<Interaction>, n: nat)
    requires KeepsKeys(stringify, done) && n <= |done|
    ensures KeepsKeys(stringify, done[..n])
  {
    hide KeepsKey, IsLookup;
  }

  // ----- signatures apart -----

  /** No lookup shares its signature with a handshake or a housekeeping command. */
  ghost predicate Apart(stringify: Stringify, done: seq<Interaction>) {
    forall i, j | 0 <= i < |done| && 0 <= j < |done| && IsLookup(done[i].document) && !IsLookup(done[j].document) ::
      KeyFiled(stringify, done[i]) != KeyFiled(stringify, done[j])
  }

  lemma {:induction false} NoneUnasked(stringify: Stringify, done: seq<Interaction>, key: Text)
    requires forall j | 0 <= j < |done| && !IsLookup(done[j].document) :: KeyFiled(stringify, done[j]) != key
    ensures Unasked(stringify, done, key) == 0
    decreases |done|
  {
    hide KeyFiled, IsLookup;
    if done != [] {
      NoneUnasked(stringify, done[..|done| - 1], key);
    }
  }

  /** Then every recorded command gets what it should: its recorded response, or the reply the server makes up. */
  lemma {:induction false} AnswersAlike(world: World, requests: seq<Request>, done: seq<Interaction>, i: nat)
    requires Repeats(requests, done) && KeepsKeys(world.stringify, done) && Apart(world.stringify, done)
    requires i < |requests|
    ensures DueTo(world, Filing(world.stringify, done), requests, i) == Reply(world, done[i], i)
  {
    hide SignatureOf, StoredDocument, DueTo, QueueOf, PlaceOf, HandshakeReply, Acknowledged, KeyFiled;
    DueInTurn(world, requests, done, i);
    if IsLookup(done[i].document) {
      NoneUnasked(world.stringify, done[..i], KeyFiled(world.stringify, done[i]));
    }
  }

  function Reply(world: World, i: Interaction, n: nat): Document {
    var command := CommandNameOf(i.document);
    if command in HANDSHAKE then HandshakeReply(world.clock(2 + n))
    else if command in HOUSEKEEPING then Acknowledged()
    else StoredDocument(i.response)
  }

  predicate IsClean(name: Text) {
    name != [] && forall i | 0 <= i < |name| :: !IsSpace(name[i])
  }

  lemma {:induction false} AsciiIsClean(s: string)
    requires s != "" && forall i | 0 <= i < |s| :: 32 < s[i] as int < 128
    ensures IsClean(Ascii(s))
  {
  }

  lemma {:induction false} OwnNamesAreClean()
    ensures forall name | name in HANDSHAKE || name in HOUSEKEEPING :: IsClean(name)
  {
    AsciiIsClean("hello");
    AsciiIsClean("ismaster");
    AsciiIsClean("isMaster");
    AsciiIsClean("ping");
    AsciiIsClean("buildInfo");
    AsciiIsClean("buildinfo");
    AsciiIsClean("endSessions");
    AsciiIsClean("killCursors");
    AsciiIsClean("logout");
    AsciiIsClean("abortTransaction");
    AsciiIsClean("getFreeMonitoringStatus");
    AsciiIsClean("saslStart");
    AsciiIsClean("saslContinue");
    hide IsClean, Ascii;
  }

  /** Trimming the end of a text stops at its first part. */
  lemma {:induction false} TrimEndKeeps(name: Text, rest: Text)
    requires IsClean(name)
    ensures var t := TrimEnd(name + rest);
            name <= t && (|t| > |name| ==> rest != [] && t[|name|] == rest[0])
    decreases |rest|
  {
    var whole := name + rest;
    if rest == [] {
      assert whole == name;
    } else {
      assert whole[..|whole| - 1] == name + rest[..|rest| - 1];
      TrimEndKeeps(name, rest[..|rest| - 1]);
    }
  }

  /** A signature opens with the command name, and a space ends it. */
  lemma {:induction false} SignatureOpens(stringify: Stringify, d: Document)
    requires IsClean(CommandNameOf(d))
    ensures var name, key := CommandNameOf(d), SignatureOf(stringify, d);
            name <= key && (|key| > |name| ==> key[|name|] == SPACE)
  {
    hide TrimEnd, TargetText, FilterText;
    var name := CommandNameOf(d);
    var rest := [SPACE] + TargetText(d) + [SPACE] + FilterText(stringify, d);
    var whole := name + [SPACE] + TargetText(d) + [SPACE] + FilterText(stringify, d);
    assert whole == name + rest;
    assert TrimStart(whole) == whole by {
      assert whole[0] == name[0];
    }
    TrimEndKeeps(name, rest);
  }

  lemma {:induction false} NamesTellApart(a: Text, b: Text, key: Text)
    requires IsClean(a) && IsClean(b) && a <= key && b <= key
    requires |key| > |a| ==> key[|a|] == SPACE
    requires |key| > |b| ==> key[|b|] == SPACE
    ensures a == b
  {
    assert a == key[..|a|] && b == key[..|b|];
  }

  /** Command names that are not empty and hold no white space keep signatures apart. */
  lemma {:induction false} CleanIsApart(stringify: Stringify, done: seq<Interaction>)
    requires forall i | 0 <= i < |done| && IsLookup(done[i].document) :: IsClean(CommandNameOf(done[i].document))
    ensures Apart(stringify, done)
  {
    hide SignatureOf, IsClean;
    OwnNamesAreClean();
    forall i, j | 0 <= i < |done| && 0 <= j < |done| && IsLookup(done[i].document) && !IsLookup(done[j].document)
      ensures KeyFiled(stringify, done[i]) != KeyFiled(stringify, done[j])
    {
      var a, b := StoredDocument(done[i].document), StoredDocument(done[j].document);
      NameKept(done[i].document);
      NameKept(done[j].document);
      SignatureOpens(stringify, a);
      SignatureOpens(stringify, b);
      if SignatureOf(stringify, a) == SignatureOf(stringify, b) {
        NamesTellApart(CommandNameOf(a), CommandNameOf(b), SignatureOf(stringify, a));
        assert false;
      }
    }
  }

  /** A handshake, and a lookup whose command name is the same but for a space at its end. */
  function Colliding(handshake: Document, response: Document): seq<Interaction> {
    [Pair(Named(HELLO), handshake), Pair(Named(HELLO + [SPACE]), response)]
  }

  const HELLO: Text := Ascii("hello")

  function Named(command: Text): Document {
    [Entry(command, Number(1))]
  }

  lemma {:induction false} TrimSpaces(name: Text, spaces: Text)
    requires IsClean(name) && forall i | 0 <= i < |spaces| :: IsSpace(spaces[i])
    ensures TrimEnd(TrimStart(name + spaces)) == name
    decreases |spaces|
  {
    var whole := name + spaces;
    assert whole[0] == name[0];
    if spaces == [] {
      assert whole == name;
    } else {
      assert whole[..|whole| - 1] == name + spaces[..|spaces| - 1];
      TrimSpaces(name, spaces[..|spaces| - 1]);
    }
  }

  /** Stored or not, the two share one signature. */
  lemma {:induction false} OneSignature(stringify: Stringify, spaces: Text)
    requires spaces == [] || spaces == [SPACE]
    ensures var d := Named(HELLO + spaces);
            SignatureOf(stringify, d) == HELLO && StoredDocument(d) == d
  {
    AsciiIsClean("hello");
    var d := Named(HELLO + spaces);
    assert StoredDocument(d) == d by {
      assert d[1..] == [];
    }
    assert |Ascii("filter")| == 6 && (HELLO + spaces)[0] == 104 && Ascii("filter")[0] == 102;
    assert d[..0] == [];
    assert TargetText(d) == [] && FilterText(stringify, d) == [];
    assert HELLO + spaces + [SPACE] + [] + [SPACE] + [] == HELLO + (spaces + [SPACE, SPACE]);
    TrimSpaces(HELLO, spaces + [SPACE, SPACE]);
  }

  lemma {:induction false} OneIsLookup()
    ensures !IsLookup(Named(HELLO)) && IsLookup(Named(HELLO + [SPACE]))
  {
    OwnNamesAreClean();
    var name := HELLO + [SPACE];
    assert name[5] == SPACE;
    assert !IsClean(name);
  }

  lemma {:induction false} KeysCollide(stringify: Stringify, handshake: Document, response: Document)
    ensures var done := Colliding(handshake, response);
            && KeepsKeys(stringify, done) && KeyFiled(stringify, done[0]) == KeyFiled(stringify, done[1])
            && !IsLookup(done[0].document) && IsLookup(done[1].document)
  {
    hide SignatureOf, StoredDocument, IsLookup, Named, HELLO;
    OneSignature(stringify, []);
    OneSignature(stringify, [SPACE]);
    assert HELLO + [] == HELLO;
    OneIsLookup();
  }

  /** The lookup gets the handshake's recorded response for its own. */
  lemma {:induction false} NamesCollide(world: World, requests: seq<Request>, handshake: Document, response: Document)
    requires Repeats(requests, Colliding(handshake, response)) && |requests| == 2
    ensures var done := Colliding(handshake, response);
            && DueTo(world, Filing(world.stringify, done), requests, 1) == StoredDocument(handshake)
            && !Apart(world.stringify, done)
  {
    hide StoredDocument, DueTo, IsLookup, HandshakeReply, Colliding, KeepsKeys, KeyFiled, QueueOf, PlaceOf, Unasked;
    var done := Colliding(handshake, response);
    KeysCollide(world.stringify, handshake, response);
    CollidingQueue(world.stringify, handshake, response);
    DueInTurn(world, requests, done, 1);
    assert IsLookup(done[1].document) && !IsLookup(done[0].document);
    hide CommandNameOf;
    NotMadeUp(done[1].document);
  }

  lemma {:induction false} NotMadeUp(d: Document)
    requires IsLookup(d)
    ensures CommandNameOf(d) !in HANDSHAKE && CommandNameOf(d) !in HOUSEKEEPING
  {
  }

  lemma {:induction false} CollidingQueue(stringify: Stringify, handshake: Document, response: Document)
    requires var done := Colliding(handshake, response);
             && KeyFiled(stringify, done[0]) == KeyFiled(stringify, done[1]) && !IsLookup(done[0].document)
    ensures var done := Colliding(handshake, response);
            && QueueOf(stringify, done, 1)[0] == StoredDocument(handshake)
            && PlaceOf(stringify, done, 1) == Unasked(stringify, done[..1], KeyFiled(stringify, done[1])) == 1
  {
    hide StoredDocument, SignatureOf, IsLookup, Named;
    var done := Colliding(handshake, response);
    var log, key := Filing(stringify, done), KeyFiled(stringify, done[1]);
    var first: Log, keys: seq<Text> := [(key, StoredDocument(handshake))], [key];
    assert log[..1] == first && first[..0] == [] && Keys(log)[..1] == keys && keys[..0] == [];
    assert Filed(first, key) == Filed(first[..0], key) + [StoredDocument(handshake)];
    var before := [done[0]];
    assert done[..1] == before && before[..0] == [];
    assert Count(keys, key) == Count(keys[..0], key) + 1 == 1;
    assert Unasked(stringify, before, key) == Unasked(stringify, before[..0], key) + 1 == 1;
  }

  // ----- the second recording -----

  /** What asking a recording again records: handshakes and housekeeping as they are made up, lookups as they last. */
  lemma {:induction false} RecordedAs(world: World, requests: seq<Request>, done: seq<Interaction>)
    requires Repeats(requests, done) && KeepsKeys(world.stringify, done) && Apart(world.stringify, done)
    ensures var again := Exchanged(world, Filing(world.stringify, done), requests);
            forall i | 0 <= i < |requests| ::
              again[i] == Pair(done[i].document, ReadBack(requests[i].message.opCode, Reply(world, done[i], i)))
  {
    hide Reply, ReadBack, DueTo, Pair, Apart, KeepsKeys;
    forall i | 0 <= i < |requests|
      ensures Exchanged(world, Filing(world.stringify, done), requests)[i]
              == Pair(done[i].document, ReadBack(requests[i].message.opCode, Reply(world, done[i], i)))
    {
      AnswersAlike(world, requests, done, i);
    }
  }

  /**
   * An interaction that is recorded again as it was: the reply to an OP_QUERY was recorded empty; a handshake or a
   * housekeeping command was answered as the server answers it; nothing in a recorded response changes form in the file
   * or on the wire.
   */
  predicate RecordsItself(world: World, opCode: int, i: Interaction, n: nat) {
    var command := CommandNameOf(i.document);
    if opCode == OP_QUERY then i.response == []
    else if command in HANDSHAKE then i.response == HandshakeReply(world.clock(2 + n))
    else if command in HOUSEKEEPING then i.response == Acknowledged()
    else LastsDocument(i.response)
  }

  lemma {:induction false} MadeUpIsCanonical(now: int)
    ensures CanonDocument(HandshakeReply(now)) == HandshakeReply(now)
    ensures CanonDocument(Acknowledged()) == Acknowledged()
  {
    hide Ascii, CanonDocument;
    CanonDocumentIsIdentity(HandshakeReply(now));
    CanonDocumentIsIdentity(Acknowledged());
  }

  /** The second recording equals the first exactly when every interaction records itself. */
  lemma {:induction false} Fixpoint(world: World, requests: seq<Request>, done: seq<Interaction>)
    requires Repeats(requests, done) && |requests| == |done|
    requires KeepsKeys(world.stringify, done) && Apart(world.stringify, done)
    requires forall i | 0 <= i < |done| :: done[i].command == CommandNameOf(done[i].document)
    ensures Exchanged(world, Filing(world.stringify, done), requests) == done <==>
            forall i | 0 <= i < |done| :: RecordsItself(world, requests[i].message.opCode, done[i], i)
  {
    hide KeepsKeys, Apart, HandshakeReply, Acknowledged, LastsDocument, CanonDocument, StoredDocument, CommandNameOf;
    hide DueTo;
    var again := Exchanged(world, Filing(world.stringify, done), requests);
    RecordedAs(world, requests, done);
    forall i | 0 <= i < |done|
      ensures again[i] == done[i] <==> RecordsItself(world, requests[i].message.opCode, done[i], i)
    {
      MadeUpIsCanonical(world.clock(2 + i));
      DocumentLasts(done[i].response);
    }
  }

  // ----- the session takes place -----

  /** How a command is sent: the bytes of its document, and the collection it is sent to in the older form. */
  datatype Form = Form(document: Bytes, collection: Option<Text>)

  function ContentOf(form: Form): Bytes {
    match form.collection
    case None => Content(Single(form.document), None)
    case Some(collection) => QueryContent(collection, form.document)
  }

  function CodeOf(form: Form): int {
    if form.collection.None? then OP_MSG else OP_QUERY
  }

  /** The bytes are one whole document that reads as the recorded command, and fit a message under the id 1 + n. */
  predicate Sends(form: Form, d: Document, n: nat) {
    && IsDocument(form.document, d) && (form.collection.Some? ==> NoZero(form.collection.value))
    && FitsHeader(16 + |ContentOf(form)|, 1 + n, 0, CodeOf(form))
  }

  function RequestFor(form: Form, d: Document, n: nat): Request
    requires Sends(form, d, n)
  {
    var sent := Envelope(1 + n, 0, CodeOf(form), ContentOf(form));
    Request(Message(1 + n, 0, CodeOf(form), d, |sent|), sent)
  }

  lemma {:induction false} RequestReads(form: Form, d: Document, n: nat)
    requires Sends(form, d, n)
    ensures var r := RequestFor(form, d, n); Inverts(ReadMessage, r.message, r.sent)
  {
    hide ReadMessage, Envelope, Content, QueryContent, Single, SectionsAre, IsDocument, FitsHeader, NoZero;
    var r := RequestFor(form, d, n);
    forall rest ensures Undoes(ReadMessage, r.message, r.sent, rest) {
      if form.collection.None? {
        forall pre, after | |pre| == 20 ensures SectionsAre(pre, Single(form.document), after, d) {
          SingleIs(pre, form.document, d, after);
        }
        ContentBack(1 + n, 0, Single(form.document), None, rest, d);
      } else {
        QueryBack(1 + n, 0, form.collection.value, form.document, d, rest);
      }
    }
  }

  /** The recorded commands as a driver asks them again, in any mix of forms. */
  function RequestsFor(forms: seq<Form>, done: seq<Interaction>): (requests: seq<Request>)
    requires |forms| == |done| && forall n | 0 <= n < |done| :: Sends(forms[n], done[n].document, n)
    ensures |requests| == |done|
  {
    seq(|done|, n requires 0 <= n < |done| => RequestFor(forms[n], done[n].document, n))
  }

  /**
   * For any recording, with any driver's bytes of its commands in any mix of forms: when the replies that are due can
   * be written, there is a session that asks the recording again and records it as `RecordedAs` says.
   */
  lemma {:induction false} ReplayExists(world: World, forms: seq<Form>, done: seq<Interaction>)
    requires |forms| == |done| && forall n | 0 <= n < |done| :: Sends(forms[n], done[n].document, n)
    requires var requests, log := RequestsFor(forms, done), Filing(world.stringify, done);
             forall n | 0 <= n < |done| :: Fits(requests[n], n, DueTo(world, log, requests, n))
    ensures var requests, log := RequestsFor(forms, done), LogOf(world.stringify, Lines(done));
            && Repeats(requests, done) && Servable(world, log, requests)
            && var events := Pipeline(Concat(Sents(requests)), Concat(Replies(world, log, requests)));
            && Lively(events) && Calm(events) && Recorded(events) == Exchanged(world, log, requests)
  {
    hide Inverts, Fits, DueTo, Sends, Lively, Calm, Recorded, Exchanged, Replies, Filing, LogOf, Pipeline;
    var requests, log := RequestsFor(forms, done), Filing(world.stringify, done);
    LogIsFiling(world.stringify, done);
    forall n | 0 <= n < |done| ensures Inverts(ReadMessage, requests[n].message, requests[n].sent) {
      RequestReads(forms[n], done[n].document, n);
    }
    SessionExists(world, log, requests);
  }
}
