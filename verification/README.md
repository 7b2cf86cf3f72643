# Record and replay of database traffic, verified

Cognivox records the database traffic of an application as it crosses a proxy, and later answers the application
from that recording. This project models the wire codecs, the recorders and the replay engines for Redis, PostgreSQL
and MongoDB, with the divergence tracker and the bounded body capture beside them, and proves what the system is for:

- **Redis**: a recorded connection replays byte for byte, in any chunking (`RedisEndToEnd.RecordThenReplay`).
- **PostgreSQL**: recording a replay reproduces the recording, in the simple and the extended protocol
  (`PostgresRerecord.ReplayRerecorded`, `Fixpoint`).
- **MongoDB**: recording a session with the replay records every request with the reply that was due, in any chunking
  and interleaving (`MongoEndToEnd.Rerecorded`); asking a recording again reproduces it but for the handshakes, which
  the server makes up, the replies to OP_QUERY, and the form of some values (`MongoFixpoint.RecordedAs`, `Fixpoint`).
- **Everywhere**: where TCP cuts the streams does not matter, except behind a frame that makes a reader throw and around
  the untyped startup packet of PostgreSQL, where the laws say when it does; pairing loses and invents nothing, codecs
  undo each other on values of any depth, and an engine never answers with anything but the recorded reply that is due.

Run `dafny verify dfyconfig.toml` here to verify the project.

## How it is built

| files | what they hold |
|---|---|
| `Wire`, `Decimal`, `Doubles`, `Words` | bytes and integer fields; JavaScript numbers as text and as doubles; white space |
| `Streams` | the read loop every recorder and server runs, over any reader, and its chunking laws |
| `Playback` | answering calls from a log in recorded order, as a counter and as a queue that is shifted |
| `Resp`, `RedisRecorder`, `RedisReplay`, `RedisEndToEnd` | the Redis stack |
| `PostgresMessages`, `PostgresEncoder`, `PostgresRecorder`, `Statements`, `PostgresReplay`, `PostgresServer` | the PostgreSQL stack; formats as in section 55.7 of the PostgreSQL 16 documentation |
| `PostgresShape`, `PostgresFixpoint`, `PostgresRerecord` | the shape of the server's stream; one turn of a session; whole sessions |
| `RespGrammar`, `PostgresLayout`, `BsonLayout`, `MongoLayout` | the wire formats in bytes, without the program's own constants |
| `RedisSignatures`, `MongoSignatures`, `PostgresAnswers` | which commands share a signature, and what each is answered |
| `PostgresThrows` | what an exception leaves behind in the PostgreSQL recorder |
| `Documents`, `Bson`, `BsonWriter`, `MongoMessages`, `MongoCommands`, `MongoRecorder`, `MongoReplay` | the MongoDB stack; BSON specification 1.1 |
| `MongoEndToEnd`, `MongoStored`, `MongoFixpoint` | sessions with the MongoDB replay; the JSON file; a recording asked again |
| `Buffers` | the encoders' fresh buffers, filled in place |
| `Divergence`, `BodyBuffer` | divergence warnings; bounded body capture |

A class of the source is a class here, with its fields. Each method is proved equal to a step function on the state,
and the laws are lemmas about runs of those steps. A loop of the source is a loop here, proved against a recursive
reading function. Every lemma turns Dafny's automatic induction off, so that its body is its whole proof.

Text is its UTF-8 bytes. A reader answers `Partial` (wait for more), `Done`, or `Foreign`: the bytes are there and
cannot be read. In the MongoDB stack `Throws` and `Malformed` tell the two reasons apart. The relay swallows what a
recorder throws and goes on, so the state a throw leaves behind is part of both recorders' models; in a PostgreSQL step
`None` stands for the throw, and `After` for the recorder it leaves.

## Where the code and its comments differ

The model follows the code.

- `peek` is described as the same lookup without counting it, but it shifts the queue
  (src/replay/postgresReplayServer.ts:88-107). `DescribeConsumes` says exactly when that changes the next result, and
  `TurnGets` what every turn of a session gets; the session laws hold where no turn gets another's result.
- A MongoDB chunk is kept only when reading it has ended (src/record/protocols/mongoRecorder.ts:138-143), so a
  message that makes the reader throw takes its chunk with it, and the cut of the stream decides what is lost:
  `ChunksMerge` says exactly when, `CutDecides`, `LostBehindThrow` and `LateBytesDecide` show it.
- A PostgreSQL frame that makes a reader throw stays in the buffer with all frames before it
  (src/record/protocols/postgresRecorder.ts:82-90), so every later chunk records the results before it once more:
  `RecordedAgain`, `ResultTwice`.
- A refused TLS request leaves the recorder expecting typed frames while the client sends its untyped startup packet
  (src/record/protocols/postgresRecorder.ts:72-79): `DeafAfterRefusal`. Frames that arrive with the refusal wait for the
  next chunk: `ServerChunksMerge` says exactly when.
- The recorder keeps the first field of an error, the severity, not its text
  (src/record/protocols/postgresRecorder.ts:121): `ErrorTextIsNotRead`. A replayed error is recorded again as
  "ERROR", and so equals the recorded one exactly when that was its text: `Fixpoint`.
- `Number(header)` reads integer replies as doubles (src/record/protocols/resp.ts:54): `IntegerSurvives` says exactly
  which integers are read, and which are written back, as they were sent.
- A Redis signature joins its parts with spaces, and a MongoDB one its three parts
  (src/replay/redisReplayServer.ts:33-35, src/replay/mongoReplayServer.ts:63-68), so a space inside a part can confuse
  two commands: `SpaceConfuses`, `CollectionConfuses`; the laws of identity say exactly when.
- A missing Redis key is quoted in an error line as it is (src/replay/redisReplayServer.ts:67-70); one with a line end in
  it splits into two replies: `OneReplyPerCommand`, `KeySplits`.
- A handshake is made up, and yet filed in the recording (src/replay/mongoReplayServer.ts:75-97). A lookup that shares its
  signature gets the wrong response: `DueInTurn`, `NamesCollide`; clean command names rule it out: `CleanIsApart`.
- The recording is a JSON file, which has no NaN, no infinities and no negative zero (src/record/session.ts:173-175):
  `LastsExactly`, `KeysKept`.
- An OP_REPLY is written for an OP_QUERY but is no message the reader knows the body of
  (src/record/protocols/mongoRecorder.ts:50-56): `ReplyRoundTrip`.
- Values said to keep their type in a tagged wrapper do so only for four tags; a regular expression or a decimal is
  written as text, and so is an application's own object inside a document that has text under `$type`
  (src/record/protocols/bson.ts:154-200): `Canon`, `CanonIsIdentity`, `LookalikeLost`, `WrittenTwice`.

## Model

| member | source | states |
|---|---|---|
| `RedisEndToEnd.RecordThenReplay` | src/replay/redisReplayServer.ts:42-102 | A recorded Redis connection replays byte for byte: same client bytes in any chunks, any interleaving in which no reply completes before its command, well-formed replies, and distinct commands sharing signatures allowed. |
| `RedisEndToEnd.ReplayAnswersAlike` | src/replay/redisReplayServer.ts:62-102 | Replaying a causal run writes the recorded replies first, in recorded order, and nothing else exactly when every command was answered in the recording. |
| `RedisEndToEnd.PipelineReplays` | src/replay/redisReplayServer.ts:42-102 | For any commands sent as bulk arrays and any well-formed replies, what a pipelining client was sent is what its replay sends it. |
| `RedisEndToEnd.LoadedPairs` | src/replay/redisReplayServer.ts:42-53 | A pair that was described, stored and loaded is filed unchanged under its own command. |
| `RedisEndToEnd.OneReplyPerCommand` | src/replay/redisReplayServer.ts:62-102 | The client reads one reply per command, an error for a reply of unknown kind, if and only if no missing signature it asked for contains a line end (the error quotes the signature raw). |
| `RedisEndToEnd.KeySplits` | src/replay/redisReplayServer.ts:62-76 | A GET of a key that holds a line end and +OK shows it: one command, two replies, the second of them OK. |
| `RedisEndToEnd.IntegerSurvives` | src/record/protocols/resp.ts:54-54 | Exactly which integer replies survive: the value is read exactly if and only if it is a multiple of the gap between the doubles around it; the line is written back unchanged if and only if the integer is the multiple of its own power of ten nearest to its double and no rounding of the double to more zeros reads back. |
| `RedisEndToEnd.SafeIntegerReplaysExactly` | src/record/protocols/resp.ts:54-54 | Every integer reply up to 2^53 - 1 in magnitude is replayed as it was sent. |
| `RedisEndToEnd.OddIntegerReplaysWrong` | src/record/protocols/resp.ts:54-54 | No odd integer reply past 2^53 survives: the app receives another number. (One class of what IntegerSurvives decides for all.) |
| `RedisEndToEnd.OddIntegerLost` | src/record/protocols/resp.ts:54-54 | The reply 9007199254740993 is recorded as another number and replayed as another line. |
| `RedisEndToEnd.EvenIntegerLost` | src/record/protocols/resp.ts:125-125 | The reply 2^62 is recorded exactly and still replayed as another line. |
| `PostgresRerecord.ReplayRerecorded` | src/replay/postgresReplayServer.ts:133-242 | A recorder watching a client replay its turns in lock step (simple or extended protocol, statements parsed in the turn or bound by name from an earlier one, rows or errors, any chunks, signatures shared as long as no Describe gives a turn another turn's result) records exactly what each turn is recorded as, and the server throws on none of them. |
| `PostgresRerecord.PlainSession` | src/replay/postgresReplayServer.ts:210-242 | For any playable turns the session takes place: the server answers each turn with its recorded frames and the recorder records the recording. |
| `PostgresRerecord.Fixpoint` | src/record/protocols/postgresRecorder.ts:117-136 | That second recording equals the first exactly when every result is rows under columns that all have a type OID, or an error whose text is the severity. |
| `MongoEndToEnd.Rerecorded` | src/replay/mongoReplayServer.ts:162-191 | Whatever recording is loaded and whatever is asked, handshakes, misses and the OP_QUERY form included: the server reads the requests in any chunks, the recorder sees both streams in any others and in any interleaving in which no reply completes before its request and no waiting id is reused; nothing throws, and what is recorded is every request with the reply that was due to it, in canonical form, or empty where the request was an OP_QUERY. |
| `MongoEndToEnd.SessionExists` | src/replay/mongoReplayServer.ts:162-191 | For any requests under different ids whose replies can be written there is such a session. |
| `MongoEndToEnd.ServesBytes` | src/replay/mongoReplayServer.ts:169-183 | On the bytes of any requests, in any chunks, the server never throws and writes the replies that are due, framed, one after the other. |
| `MongoFixpoint.Fixpoint` | src/replay/mongoReplayServer.ts:94-111 | Where lookups keep their signatures and share none with a handshake or a housekeeping command, asking a recording again records it as it was exactly when every OP_QUERY response was recorded empty, every other handshake and housekeeping response is the one the server makes up, and nothing in a lookup response changes form in the file or on the wire, at any depth. |
| `MongoFixpoint.AnswersAlike` | src/replay/mongoReplayServer.ts:94-111 | Where no lookup shares its signature with a handshake or a housekeeping command, asking a recording again in order gives every lookup its recorded response, as it was stored, and the others the reply the server makes up. |
| `MongoFixpoint.DueInTurn` | src/replay/mongoReplayServer.ts:75-111 | What each command of any recording is answered when it is asked again in order: a lookup gets a response filed under its signature, as many places before its own as handshakes and housekeeping commands were filed there earlier. |
| `MongoFixpoint.CleanIsApart` | src/replay/mongoReplayServer.ts:63-68 | Command names that are not empty and hold no white space keep the signatures of lookups and handshakes apart. |
| `MongoFixpoint.NamesCollide` | src/replay/mongoReplayServer.ts:63-68 | A lookup named hello with a space behind it shows the collision: it gets the recorded response of the handshake hello. |
| `MongoFixpoint.KeysKept` | src/replay/mongoReplayServer.ts:63-68 | A command is filed under the signature it is looked up by, unless its filter is an infinity. |
| `MongoFixpoint.RecordedAs` | src/replay/mongoReplayServer.ts:162-191 | Under the same condition, what asking a recording again records, command by command and form by form. |
| `MongoFixpoint.ReplayExists` | src/replay/mongoReplayServer.ts:162-191 | For any recording, with any driver's bytes of its commands in any mix of OP_MSG and OP_QUERY, there is a session that asks it again, when the replies due can be written. |
| `MongoFixpoint.LogIsFiling` | src/replay/mongoReplayServer.ts:75-84 | Storing a recording as JSON and loading it files every stored response under the signature of its stored command, in order. |
| `MongoStored.LastsExactly` | src/record/session.ts:173-175 | A value comes back from the JSON file and over the wire as it was exactly when it is canonical and holds no NaN and no infinity, at any depth. |
| `MongoStored.StoredIsJson` | src/record/session.ts:173-175 | What is stored holds no NaN, no infinity and no negative zero; other values are stored as they are. |
| `MongoEndToEnd.ServesDue` | src/replay/mongoReplayServer.ts:172-181 | Handling any decoded requests in order: ids count up from 2 and each reply is the one due from the recording and the requests before it. |
| `MongoEndToEnd.PairedOneToOne` | src/record/protocols/mongoRecorder.ts:137-164 | Requests and replies interleaved in any way that is ordered and reuses no waiting id are paired one to one, and exactly the others are pending. |
| `Streams.FeedAnyChunks` | src/record/protocols/redisRecorder.ts:65-77 | The shared read loop: however a stream is cut into chunks, the buffer and the state end where the whole stream takes them. |
| `Streams.FeedSplit` | src/record/protocols/redisRecorder.ts:27-50 | One chunk or the same bytes in two chunks leave the same buffer and state, for every reader a finished read of which is final. |
| `Streams.ParseWritten` | src/record/protocols/redisRecorder.ts:65-77 | A stream of written values reads back as exactly those values with nothing left over. |
| `Streams.ParseRest` | src/record/protocols/redisRecorder.ts:65-77 | What the loop leaves in the buffer contains no whole value. |
| `Streams.NoProperPrefix` | src/record/protocols/postgresMessages.ts:28-38 | No proper prefix of a written value is read as a value, for every stable reader. |
| `Playback.FiledInOrder` | src/replay/redisReplayServer.ts:42-76 | Asking for the logged keys in order gives every logged reply back, however many entries share a key. |
| `Playback.Taken` | src/replay/postgresReplayServer.ts:99-107 | Taking from one queue returns its next entry, moves that queue alone, and empties none. |
| `Resp.Decode` | src/record/protocols/resp.ts:42-60 | Decoding ends on every input; a finished value takes at least 2 and at most the remaining bytes, at any nesting. |
| `Resp.DecodeItems` | src/record/protocols/resp.ts:78-93 | A finished array has exactly the declared number of items, each of at least 2 bytes. |
| `Resp.DecodeArray` | src/record/protocols/resp.ts:78-93 | The item loop computes that result, whatever count is declared. |
| `Resp.DecodeGrows` | src/record/protocols/resp.ts:42-93 | A finished decode is unchanged by bytes appended to the buffer. |
| `Resp.DecodeShifts` | src/record/protocols/resp.ts:42-93 | A decode does not depend on the bytes before its offset. |
| `Resp.DecodeOfEncode` | src/record/protocols/resp.ts:121-150 | decode(encode(v) ++ rest) is v with exactly the bytes of encode(v), for arbitrarily nested v without line ends in its lines. |
| `Resp.PrefixIsPartial` | src/record/protocols/resp.ts:38-46 | No proper prefix of an encoding decodes: it waits for more bytes. |
| `Resp.ReadInvertsEncode` | src/record/protocols/resp.ts:121-150 | Reading undoes writing for every well-formed value, whatever follows. |
| `Resp.EncodeAllInjective` | src/record/protocols/resp.ts:121-150 | Two reply sequences with the same bytes are the same replies. |
| `Resp.ParseEncodeAll` | src/record/protocols/resp.ts:121-150 | A stream of encoded replies reads back as those replies, with nothing left over. |
| `Resp.CommandOfBulkArray` | src/record/protocols/resp.ts:106-118 | A command sent as an array of bulk strings is read as its upper-cased verb and its arguments. |
| `Resp.FromDescribe` | src/record/protocols/resp.ts:153-167 | Loading a stored reply undoes describing it, at any nesting, on every value that can be read. |
| `RespGrammar.LineIs` | src/record/protocols/resp.ts:42-60 | In bytes: a line behind 43 is a status, behind 45 an error, and behind any byte that is no marker it is kept whole as not understood. |
| `RespGrammar.IntegerIs` | src/record/protocols/resp.ts:54-54 | In bytes: 58, decimal digits and a line end, with or without a minus, are that integer. |
| `RespGrammar.BulkIs` | src/record/protocols/resp.ts:62-76 | In bytes: 36, the decimal length, a line end, so many bytes and two more are that text, in exactly these bytes, whatever follows. |
| `RespGrammar.BulkWaits` | src/record/protocols/resp.ts:71-71 | While a byte of it is missing, a bulk string is waited for. |
| `RespGrammar.NullIs` | src/record/protocols/resp.ts:66-67 | In bytes: a negative length behind 36 is the null bulk, and behind 42 the null array. |
| `RespGrammar.ArrayIs` | src/record/protocols/resp.ts:78-93 | In bytes: 42, the decimal count, a line end and so many values are the array of them. |
| `RespGrammar.LineWaits` | src/record/protocols/resp.ts:44-45 | Bytes without a line end are waited on. |
| `RespGrammar.LinesWritten` | src/record/protocols/resp.ts:121-133 | The bytes written for a status, an error, a null, and a reply that was not understood. |
| `RespGrammar.BulkWritten` | src/record/protocols/resp.ts:135-142 | A text is written behind 36 and its decimal length. |
| `RespGrammar.ArrayWritten` | src/record/protocols/resp.ts:144-150 | An array is written behind 42 and its decimal count, item after item. |
| `RespGrammar.IntegerWritten` | src/record/protocols/resp.ts:125-125 | A safe integer is written behind 58 in decimal. |
| `RespGrammar.CommandIs` | src/record/protocols/resp.ts:106-112 | In bytes: an array of bulk strings is read by the recorder as one command, its verb in capitals. |
| `RespGrammar.OtherCommands` | src/record/protocols/resp.ts:106-118 | Parts of a command that are no strings count as empty; what is neither an array nor a line asks for nothing. |
| `RespGrammar.InlineIs` | src/record/protocols/resp.ts:113-116 | A bare line of words is a command, a blank one is none. |
| `RespGrammar.StoredAs` | src/record/protocols/redisRecorder.ts:80-88 | The shape in which each kind of reply is stored. |
| `Decimal.SafeIsExact` | src/record/protocols/resp.ts:54-54 | Number(text) and template printing are exact on safe integers. |
| `Decimal.ReadExactly` | src/record/protocols/resp.ts:54-54 | Number(text) of an integer literal is the nearest double, and exact if and only if the integer is a multiple of the gap around it. |
| `Decimal.PrintedBack` | src/record/protocols/resp.ts:125-125 | A literal is printed back unchanged if and only if it is the multiple of its own power of ten nearest to its double, and no rounding of the double to more zeros reads back. |
| `Decimal.Int64InRange` | src/record/protocols/resp.ts:54-54 | Every 64-bit integer, so every integer reply of Redis, is in the range these laws cover. |
| `Decimal.OddIsLost` | src/record/protocols/resp.ts:54-54 | An odd integer past 2^53 is read as an even neighbour and printed as another literal. |
| `Decimal.NumberOfPrint` | src/record/protocols/resp.ts:125-125 | Every integer-valued double survives printing and reading. |
| `RedisRecorders.RedisRecorder.OnClientData` | src/record/protocols/redisRecorder.ts:27-33 | The whole new state: values are read to the end of the buffer, each command joins the queue, the undecoded suffix stays. |
| `RedisRecorders.RedisRecorder.OnServerData` | src/record/protocols/redisRecorder.ts:35-50 | The whole new state: each reply takes the oldest command, or is dropped when none waits. |
| `RedisRecorders.PairedInOrder` | src/record/protocols/redisRecorder.ts:27-50 | In every causal run the k-th reply is paired with the k-th command and the other commands wait, across all drains. |
| `RedisRecorders.NothingLost` | src/record/protocols/redisRecorder.ts:27-56 | Conservation over every run: interactions, then queue, are the commands in the order they were sent. |
| `RedisRecorders.LosslessIffCausal` | src/record/protocols/redisRecorder.ts:38-42 | Every reply is recorded exactly in the runs where none completes before its command. |
| `RedisRecorders.ChunksMerge` | src/record/protocols/redisRecorder.ts:27-50 | Where chunks are cut changes neither buffers, queue nor interactions, from any state. |
| `RedisRecorders.Buffers` | src/record/protocols/redisRecorder.ts:65-77 | At every moment each buffer is exactly the undecodable suffix of its whole stream. |
| `RedisReplays.RedisReplay.constructor` | src/replay/redisReplayServer.ts:42-53 | Loading files every Redis reply of the recording in order and skips other protocols. |
| `RedisReplays.Connection.OnData` | src/replay/redisReplayServer.ts:90-103 | One chunk at the server: buffered bytes, replay state and bytes written. |
| `RedisReplays.NeverGuesses` | src/replay/redisReplayServer.ts:55-80 | Over any run of calls: the k-th call of a signature gets its k-th reply, then the last one again; an unrecorded one gets an error; missing is exactly the unrecorded signatures; matched and misses add up. |
| `RedisReplays.WrittenIs` | src/replay/redisReplayServer.ts:90-103 | However the client bytes are cut, the answers to their commands are written in order. |
| `RedisSignatures.SignatureIdentity` | src/replay/redisReplayServer.ts:33-35 | Two commands share a signature exactly when, verbs in capitals, splitting their parts at spaces gives the same texts. |
| `RedisSignatures.PlainCommandsApart` | src/replay/redisReplayServer.ts:33-35 | Without spaces inside their parts, commands share a signature exactly when verb, but for case, and arguments are equal. |
| `RedisSignatures.SpaceConfuses` | src/replay/redisReplayServer.ts:33-35 | SET of the one argument a b shares the signature of SET of a and b. |
| `RedisSignatures.UnrecordedIsError` | src/replay/redisReplayServer.ts:62-76 | Over any calls, a signature that was never recorded is answered with an error line that quotes it, byte for byte. |
| `PostgresMessages.ReadFrameIsStable` | src/record/protocols/postgresMessages.ts:34-44 | A finished frame is final and lies in the buffer. |
| `PostgresMessages.FrameAtOffset` | src/record/protocols/postgresMessages.ts:34-44 | Reading at an offset is reading the rest of the buffer. |
| `PostgresMessages.StartupGrows` | src/record/protocols/postgresMessages.ts:59-67 | A classified startup packet is classified alike when more bytes arrive, and what follows it stays where it is exactly when its length is not negative or no more bytes have arrived than it counts back. |
| `PostgresMessages.ReadRowDescriptionLoop` | src/record/protocols/postgresMessages.ts:88-100 | The column loop, including where it throws on a short payload. |
| `PostgresMessages.ReadValuesLoop` | src/record/protocols/postgresMessages.ts:103-144 | The value loop shared by DataRow and Bind, including where it throws. |
| `PostgresEncoder.MessageInverts` | src/replay/postgresEncoder.ts:16-21 | readFrame(message(t, p) ++ rest) gives t, p and the exact size. |
| `PostgresEncoder.ParseMessages` | src/replay/postgresEncoder.ts:16-21 | A stream of messages reads back as its frames with nothing left over. |
| `PostgresEncoder.DataRowRoundTrip` | src/replay/postgresEncoder.ts:81-96 | A row survives the wire: every text, every NULL, and NULL is never an empty text. |
| `PostgresEncoder.RowDescriptionRoundTrip` | src/replay/postgresEncoder.ts:64-78 | Column names, order and type OIDs survive; a missing OID comes back as text (25). |
| `PostgresEncoder.CommandCompleteRoundTrip` | src/replay/postgresEncoder.ts:98-100 | The command tag survives the wire. |
| `PostgresEncoder.ErrorTextIsNotRead` | src/record/protocols/postgresRecorder.ts:121-121 | What the recorder reads from an error response is the severity, whatever the error text. |
| `PostgresEncoder.BindRoundTrip` | src/record/protocols/postgresMessages.ts:121-158 | Parameters and statement name are read back past any number of format codes. |
| `PostgresEncoder.ParseRoundTrip` | src/record/protocols/postgresMessages.ts:147-151 | Statement name and SQL are read back from a Parse message. |
| `PostgresLayout.FrameIs` | src/record/protocols/postgresMessages.ts:34-44 | In bytes: a type, four bytes for the payload and themselves, and the payload are that frame. |
| `PostgresLayout.FrameWaits` | src/record/protocols/postgresMessages.ts:35-38 | With any byte of it missing, a frame is waited for. |
| `PostgresLayout.FrameWritten` | src/replay/postgresEncoder.ts:16-21 | A message is written in the same bytes. |
| `PostgresLayout.StartupIs` | src/record/protocols/postgresMessages.ts:59-67 | In bytes: a first packet asks for TLS exactly when its code is 4, 210, 22, 47, once as many bytes as its length says are there. |
| `PostgresLayout.RowIs` | src/record/protocols/postgresMessages.ts:103-118 | In bytes: a row is read from its count and its values, each behind its length, a negative one being NULL. |
| `PostgresLayout.RowWritten` | src/replay/postgresEncoder.ts:81-96 | A row is written as its count and values, in a message of type 68; NULL as four bytes of 255. |
| `PostgresLayout.DescriptionIs` | src/record/protocols/postgresMessages.ts:88-100 | In bytes: columns are read from their count and, for each, a name, six bytes, the type OID, eight bytes. |
| `PostgresLayout.ColumnWritten` | src/replay/postgresEncoder.ts:67-76 | A column is written as one of no table, with its type OID or 25, variable length, no modifier, text format. |
| `PostgresLayout.DescriptionWritten` | src/replay/postgresEncoder.ts:64-78 | Columns are written behind their count, in a message of type 84. |
| `PostgresLayout.TextsAre` | src/record/protocols/postgresMessages.ts:147-151 | In bytes: a Query holds its SQL, a Parse its name and SQL, each up to a zero. |
| `PostgresLayout.BindIs` | src/record/protocols/postgresMessages.ts:121-158 | In bytes: a Bind holds portal, statement, format codes, parameters. |
| `PostgresLayout.GreetingIs` | src/replay/postgresReplayServer.ts:162-168 | The greeting, byte for byte. |
| `PostgresLayout.FixedAre` | src/replay/postgresEncoder.ts:46-52 | The acknowledgements, readiness, a tag, and the refusal of TLS, byte for byte. |
| `PostgresLayout.ErrorIs` | src/replay/postgresEncoder.ts:109-117 | An error, read by its field codes: severity ERROR, code P0001, its message, and no other field. |
| `Buffers.FrameMessage` | src/replay/postgresEncoder.ts:16-21 | Filling the five header bytes in place gives the framed message. |
| `Buffers.ColumnMeta` | src/replay/postgresEncoder.ts:67-75 | Filling the 18 metadata bytes in place gives the column layout. |
| `Buffers.MongoHeader` | src/replay/mongoReplayServer.ts:118-125 | Filling the 16 header bytes in place gives the message header. |
| `PostgresRecorders.PostgresRecorder.OnClientData` | src/record/protocols/postgresRecorder.ts:42-63 | The whole new state in every phase, whether it returns or a field reader throws: then the frames before are handled and the buffer is left whole. |
| `PostgresRecorders.PostgresRecorder.OnServerData` | src/record/protocols/postgresRecorder.ts:65-91 | The whole new state in every phase, the one-byte TLS answer included, whether it returns or throws; the encrypted flag follows the phase. |
| `PostgresAnswers.ClientFrameIs` | src/record/protocols/postgresRecorder.ts:93-115 | In bytes: what a Query, a Parse, a Bind and any other client frame leave the recorder with. |
| `PostgresAnswers.ServerFrameIs` | src/record/protocols/postgresRecorder.ts:117-136 | In bytes: what columns, a row, a tag, an error and any other server frame leave it with; a result that ends before any statement is not recorded. |
| `PostgresAnswers.TlsIs` | src/record/protocols/postgresRecorder.ts:65-80 | After a TLS request the byte 83 ends the recording of the connection, and any other byte lets frames follow. |
| `PostgresRecorders.ClientChunksMerge` | src/record/protocols/postgresRecorder.ts:42-63 | While no field reader throws, where client chunks are cut changes nothing, in every phase, unless a negative startup length counts back over the cut; at a TLS request exactly then. |
| `PostgresRecorders.NegativeLengthCut` | src/record/protocols/postgresRecorder.ts:49-49 | A startup packet of length -1 shows it: the cut decides which bytes are kept. |
| `PostgresRecorders.ServerChunksMerge` | src/record/protocols/postgresRecorder.ts:65-91 | While no field reader throws, where server chunks are cut changes nothing, except at a refused TLS request, and there exactly when a frame arrives with the refusal. |
| `PostgresThrows.ServerCut` | src/record/protocols/postgresRecorder.ts:82-90 | Server bytes with frames that throw: cut before the bad frame, the results are the same and the state exactly when no frame was complete; cut behind it, the frames before it are handled again, and the state is the same exactly when that changes nothing. |
| `PostgresThrows.ClientCut` | src/record/protocols/postgresRecorder.ts:42-63 | Client bytes with frames that throw, in every phase, the chunk with the startup packet included, unless its negative length counts back over the cut: cut before the bad frame, the core is the same and the state exactly when no frame was complete; cut behind it, the frames before it are handled again, and the state is the same exactly when that changes nothing. |
| `PostgresThrows.RecordedAgain` | src/record/protocols/postgresRecorder.ts:82-90 | After a frame that throws, every later server chunk throws, nothing leaves the buffer, and for each chunk the results before the bad frame are recorded once more. |
| `PostgresThrows.ResultTwice` | src/record/protocols/postgresRecorder.ts:82-90 | A CommandComplete and an empty DataRow in one chunk show it: with the next chunk the statement is recorded twice, cut between the two frames it is recorded once. |
| `PostgresRecorders.DeafAfterRefusal` | src/record/protocols/postgresRecorder.ts:69-80 | After any TLS request and any refusal, the bytes the client sends from its startup packet on wait unread exactly until 256 for every byte of the packet, and one, have arrived. |
| `Statements.SignatureText` | src/replay/postgresReplayServer.ts:34-36 | The signature, byte for byte: the words with a space between them, a bar, and the parameters in brackets with commas between them, each null or a JSON string that reads as it. |
| `Statements.SignatureIdentity` | src/replay/postgresReplayServer.ts:34-36 | Two signatures are equal exactly when the SQL has the same words and the parameters are equal. |
| `Statements.JsonInjective` | src/replay/postgresReplayServer.ts:35-35 | Equal JSON texts come from equal parameter lists (strings as in section 7 of RFC 8259). |
| `Statements.NoBarBefore` | src/replay/postgresReplayServer.ts:35-35 | The separator before the parameters is the last bar outside a JSON string, so SQL and parameters cannot be confused. |
| `Words.NormaliseJoins` | src/replay/postgresReplayServer.ts:120-122 | Normalised SQL is its words with one space between them. |
| `Words.NormaliseIdentity` | src/replay/postgresReplayServer.ts:120-122 | Two texts normalise alike exactly when they have the same words. |
| `Words.NormaliseTwice` | src/replay/postgresReplayServer.ts:120-122 | Normalising is final. |
| `Words.WordsSpelled` | src/replay/postgresReplayServer.ts:35-35 | The words of a text are exactly what lies between tabs, line feeds, vertical tabs, form feeds, carriage returns and spaces. |
| `Words.TrimIs` | src/replay/mongoReplayServer.ts:67-67 | Trimming leaves a text without those bytes at its ends. |
| `PostgresReplays.PostgresReplay.constructor` | src/replay/postgresReplayServer.ts:49-67 | Loading queues every Postgres result twice, by signature and by SQL. |
| `PostgresReplays.TwoTiers` | src/replay/postgresReplayServer.ts:69-107 | Over any mix of peeks and lookups: a recorded signature gets its next result, an unrecorded one the next of its SQL counting fallbacks only, any other nothing; the tiers do not disturb each other and no queue empties. |
| `PostgresReplays.CountsAreExact` | src/replay/postgresReplayServer.ts:77-111 | Matched counts the answered lookups, and missing is exactly the SQL of the others; peeks count for neither. |
| `PostgresReplays.DescribeConsumes` | src/replay/postgresReplayServer.ts:88-107 | After any calls, an Execute behind a Describe is answered as the Execute alone would be, exactly when no more than one result of its queue is left or the next two are equal; in either tier. |
| `PostgresReplays.DescribedGetsSecond` | src/replay/postgresReplayServer.ts:88-107 | A statement recorded twice shows it: executed alone it gets its first result, described before it gets its second. |
| `PostgresServers.Connection.HandleFrame` | src/replay/postgresReplayServer.ts:173-208 | What one client frame does to session, replay and output, and whether it throws. |
| `PostgresServers.Connection.OnData` | src/replay/postgresReplayServer.ts:218-234 | One chunk at the server: startup first, a refused TLS request waiting for the next chunk, then frames; and what has been written when a frame throws. |
| `PostgresAnswers.StatementIsAnswered` | src/replay/postgresReplayServer.ts:133-208 | Over any calls on any recording, a Query and an Execute are answered with the rows and tag, or the error, due to their statement; where nothing is due, with one error whose message quotes the statement, and never with rows or a tag. |
| `PostgresAnswers.DescribeIsAnswered` | src/replay/postgresReplayServer.ts:196-202 | Over any calls, a Describe tells the columns of the result due to its statement, or that there are none. |
| `PostgresAnswers.OthersAreAnswered` | src/replay/postgresReplayServer.ts:183-207 | In bytes: what Parse, Bind and Sync do to the session and are answered with; any other frame is answered with nothing. |
| `PostgresAnswers.StaysClean` | src/replay/postgresReplayServer.ts:173-208 | No statement of a session ever holds a zero byte. |
| `PostgresAnswers.OpeningIs` | src/replay/postgresReplayServer.ts:153-171 | In bytes: a TLS request is refused with 78 and what follows waits; any other first packet is greeted and what follows is read as frames. |
| `PostgresShape.ServedWhole` | src/replay/postgresReplayServer.ts:218-234 | A stream that opens with a plain startup packet is served alike however it is cut. |
| `PostgresShape.StreamShape` | src/replay/postgresReplayServer.ts:133-242 | Everything written parses into whole messages, in any chunks: the handshake, then one well-shaped answer per client frame in order, up to the first frame that makes the source throw, if any. |
| `PostgresShape.ReadyOncePerTurn` | src/replay/postgresReplayServer.ts:153-208 | ReadyForQuery is sent once for the startup, once per Query and once per Sync, and never otherwise. |
| `PostgresFixpoint.TurnFinds` | src/replay/postgresReplayServer.ts:69-107 | Each lookup of a turn finds that turn's own result, in every session in which no turn is disturbed. |
| `PostgresFixpoint.TurnGets` | src/replay/postgresReplayServer.ts:69-107 | What a turn gets in any session replayed in order: with k turns before it on its signature, e of them describing it, its first lookup takes result k + e and a second one the next, up to the last. |
| `PostgresFixpoint.UndisturbedExactly` | src/replay/postgresReplayServer.ts:69-107 | The sessions in which every lookup finds its own turn's result are exactly those in which the results so taken equal the turn's own. |
| `PostgresFixpoint.SteadyIsUndisturbed` | src/replay/postgresReplayServer.ts:69-107 | No turn is disturbed wherever a signature that is ever described was recorded with one result only, and so wherever nothing is described. |
| `PostgresFixpoint.TurnServed` | src/replay/postgresReplayServer.ts:173-208 | Serving the frames of a turn writes exactly its recorded answer, rows or error, and leaves the server ready for the next turn. |
| `PostgresFixpoint.ServerHandled` | src/record/protocols/postgresRecorder.ts:117-136 | Watching the answer to a turn records exactly its interaction, with nothing half recorded. |
| `PostgresFixpoint.ClientHandled` | src/record/protocols/postgresRecorder.ts:93-115 | Watching the request of a turn leaves its SQL, its parameters and the statements prepared so far, in either protocol. |
| `PostgresRerecord.OpeningLeg` | src/replay/postgresReplayServer.ts:153-171 | A plain startup and the handshake leave the recorder idle and empty. |
| `PostgresRerecord.TurnLeg` | src/record/protocols/postgresRecorder.ts:42-91 | One turn in any chunks is answered from the recording and recorded again. |
| `Doubles.NumberOfBits` | src/record/protocols/bson.ts:161-170 | Writing a number as a double and reading the pattern gives the number back. |
| `Doubles.NumberOfIsNumber` | src/record/protocols/bson.ts:49-49 | Any 64-bit pattern is read as one number in its one representation. |
| `BsonLayout.DoubleIs` | src/record/protocols/bson.ts:49-49 | A 64-bit pattern, by sign, exponent and fraction, is NaN, a zero, or the integer its significand and exponent make; every other is no safe integer. |
| `Documents.PutIsObject` | src/record/protocols/bson.ts:135-135 | Assigning a key keeps an object in an order JavaScript can give it: indices ascending, then the others. |
| `Documents.PutIs` | src/record/protocols/bson.ts:135-135 | Assigning a key of an object gives it the value, there once, and leaves every other entry, in its order. |
| `Documents.MergeIs` | src/record/protocols/mongoRecorder.ts:94-94 | After spreading one object over another, a key has the value of the second where that has it, and else the one it had. |
| `Documents.MergeAppends` | src/record/protocols/mongoRecorder.ts:94-94 | Spreading keys in an object's own order only appends. |
| `Documents.CanonTwice` | src/record/protocols/bson.ts:154-200 | Taking canonical form twice changes nothing more exactly when no object turns into one that looks like a tagged wrapper the first time. |
| `Documents.WrittenTwice` | src/record/protocols/bson.ts:154-200 | A regular expression under a $type key shows it: written once it is text, written twice its whole object is the text beside it. |
| `Documents.CanonIsIdentity` | src/record/protocols/bson.ts:154-200 | Exactly the values without negative zero, safe longs, other tags or objects that look like one, at any depth, are canonical. |
| `Bson.ReadElement` | src/record/protocols/bson.ts:47-118 | A value ends inside the buffer, at or after where it starts. (The laws of BsonLayout say what each type is.) |
| `BsonLayout.DoubleElement` | src/record/protocols/bson.ts:49-49 | In bytes: type 1 is eight bytes of a double. |
| `BsonLayout.TextElement` | src/record/protocols/bson.ts:50-53 | In bytes: type 2 is a length that counts the final zero, and the text. |
| `BsonLayout.NestedElement` | src/record/protocols/bson.ts:54-62 | In bytes: types 3 and 4 are a document, and the values of one. |
| `BsonLayout.BinaryElement` | src/record/protocols/bson.ts:63-70 | In bytes: type 5 is a length, a subtype that is dropped, and the bytes. |
| `BsonLayout.PlainElements` | src/record/protocols/bson.ts:71-87 | In bytes: types 6 and 10 are null in no bytes, 7 twelve bytes of an id, 8 one byte of which only 1 is true. |
| `BsonLayout.DateElement` | src/record/protocols/bson.ts:79-85 | In bytes: type 9 is eight bytes of milliseconds; a date JavaScript cannot show makes it throw. |
| `BsonLayout.RegexElement` | src/record/protocols/bson.ts:100-104 | In bytes: type 11 is a pattern and flags, kept as /pattern/flags. |
| `BsonLayout.IntElement` | src/record/protocols/bson.ts:88-88 | In bytes: type 16 is four bytes of an integer. |
| `BsonLayout.LongElements` | src/record/protocols/bson.ts:89-99 | In bytes: types 17 and 18 are eight bytes of an integer, a number where it is safe and else a long. |
| `BsonLayout.DecimalElement` | src/record/protocols/bson.ts:105-111 | In bytes: type 19 is sixteen bytes, kept in hexadecimal. |
| `BsonLayout.OtherElements` | src/record/protocols/bson.ts:112-116 | Every other type makes it throw. |
| `BsonLayout.CutElements` | src/record/protocols/bson.ts:47-118 | A number, a date or a length whose bytes are not all there makes it throw. |
| `BsonLayout.DocumentOfOne` | src/record/protocols/bson.ts:121-139 | In bytes: a size, a type, a name and a zero, a value, and a zero are the document of that element. |
| `Bson.DecodeElement` | src/record/protocols/bson.ts:47-118 | The element reader, nested documents and arrays included. |
| `Bson.DecodeDocument` | src/record/protocols/bson.ts:121-139 | The document loop ends on every input and computes the reading. |
| `Bson.ReadElementsIsObject` | src/record/protocols/bson.ts:130-138 | Whatever is read has distinct keys in a possible order. |
| `Bson.DocumentWithin` | src/record/protocols/bson.ts:121-139 | A document is read alike wherever its buffer lies in a longer one. |
| `BsonWriter.DocumentBack` | src/record/protocols/bson.ts:203-210 | decodeDocument(encodeDocument(d)) is the canonical form of d, in which an object inside d whose $type is none of the four tags is the text under its value key; the size field is the bytes written. The $type of d itself does not matter. |
| `BsonWriter.LookalikeLost` | src/record/protocols/bson.ts:154-155 | The object with $type x and value y, inside a document, comes back as the text y. |
| `BsonWriter.LookalikeKept` | src/record/protocols/bson.ts:203-210 | The same object as a whole document comes back as it is. |
| `BsonWriter.ValueBack` | src/record/protocols/bson.ts:141-200 | Every value, at every depth, reads back as its canonical form in exactly the bytes written for it. |
| `BsonWriter.ItemsBack` | src/record/protocols/bson.ts:150-153 | Array items read back under their indices, in order. |
| `BsonWriter.FrameBack` | src/record/protocols/bson.ts:202-210 | A declared size covers exactly its document. |
| `BsonWriter.EncodeDocument` | src/record/protocols/bson.ts:203-210 | The length prefix equals the length written. |
| `BsonLayout.NumberWritten` | src/record/protocols/bson.ts:161-170 | Integers up to 2^31 - 1 in magnitude are written in four bytes as type 16, negative zero as 0, other numbers in eight as type 1. |
| `BsonLayout.ScalarsWritten` | src/record/protocols/bson.ts:146-200 | The type and the bytes written for null, truth values, ids, texts, other tags, bytes, dates and longs. |
| `BsonLayout.NestedWritten` | src/record/protocols/bson.ts:150-156 | The type and the bytes written for documents and arrays. |
| `BsonWriter.DocumentIsSound` | src/record/protocols/bson.ts:47-139 | Reading yields only what JavaScript holds: safe integers, dates that can be shown, 12-byte ids. |
| `BsonWriter.ReadThenWrite` | src/record/protocols/bson.ts:203-210 | Writing a document that was read is followed exactly when every object inside it with $type text is kept as text; then it is written unless it outgrows its size field, and reads as its canonical form. |
| `MongoMessages.ReadMessageAt` | src/record/protocols/mongoRecorder.ts:39-57 | A finished message takes at least its header and lies in the buffer; one whose body makes the source throw is told apart from one that has not arrived. |
| `MongoMessages.ReadMessageIsStable` | src/record/protocols/mongoRecorder.ts:39-57 | A finished message is final whatever arrives later. |
| `MongoMessages.MessageAtOffset` | src/record/protocols/mongoRecorder.ts:39-117 | Reading at an offset is reading the rest of the buffer. |
| `MongoMessages.DecodeSections` | src/record/protocols/mongoRecorder.ts:81-117 | The section loop ends on every input and computes the merged body. |
| `MongoMessages.DecodeSequence` | src/record/protocols/mongoRecorder.ts:103-109 | The loop over a document sequence. |
| `MongoCommands.SplitReadsAsWhole` | src/record/protocols/mongoRecorder.ts:73-117 | A command split into a document section and a document sequence is read as the command sent whole, with or without a checksum, for any elements and documents that can be read. |
| `MongoCommands.QueryBack` | src/record/protocols/mongoRecorder.ts:65-71 | A command in OP_QUERY form is read as its document, whatever collection it names. |
| `MongoMessages.ReplyRoundTrip` | src/replay/mongoReplayServer.ts:134-159 | readMessage of an OP_MSG reply recovers both ids, the length and the canonical body; of an OP_REPLY everything but the body. |
| `MongoLayout.MessageIs` | src/record/protocols/mongoRecorder.ts:39-87 | In bytes: four numbers, the code 2013, flags, sections, and a checksum of four bytes where the lowest flag is set. |
| `MongoLayout.SectionsRead` | src/record/protocols/mongoRecorder.ts:89-113 | In bytes: a section of kind 0 is one document, one of kind 1 a size, a name and documents. |
| `MongoLayout.QueryIs` | src/record/protocols/mongoRecorder.ts:59-71 | In bytes: a message of code 2004 is flags, a collection, two limits, and its document. |
| `MongoLayout.OthersAre` | src/record/protocols/mongoRecorder.ts:39-56 | A message of any other code has no body; one that is not all there is waited for, and so is one shorter than its header. |
| `MongoLayout.ReplyWritten` | src/replay/mongoReplayServer.ts:134-159 | A reply, byte for byte: an OP_REPLY of one document to an OP_QUERY, an OP_MSG of one section to anything else. |
| `MongoRecorders.MongoRecorder.OnClientData` | src/record/protocols/mongoRecorder.ts:137-144 | The whole new state, whether it returns or throws: each request is pending under its id, and a throw loses the chunk. |
| `MongoRecorders.MongoRecorder.OnServerData` | src/record/protocols/mongoRecorder.ts:146-164 | The whole new state, whether it returns or throws: each reply completes the request it names, or changes nothing. |
| `MongoRecorders.ChunksMerge` | src/record/protocols/mongoRecorder.ts:137-164 | When the first part is read without a throw, the cut changes neither buffers, pending map nor interactions, unless reading the whole throws, and then it changes nothing exactly when the first part added nothing to the buffer. When the first part throws, the cut changes nothing exactly when reading the rest behind all that was unread leaves what reading it behind the old buffer leaves; and if the message still throws, the rest is lost in one chunk. |
| `MongoRecorders.CutDecides` | src/record/protocols/mongoRecorder.ts:137-164 | A message with an unknown BSON type shows it: whole it is lost without trace, cut after ten bytes it leaves those ten in front of what comes next. |
| `MongoRecorders.LostBehindThrow` | src/record/protocols/mongoRecorder.ts:137-144 | In one chunk with the unreadable message before it, a request is lost; in a chunk of its own it is pending. |
| `MongoRecorders.LateBytesDecide` | src/record/protocols/mongoRecorder.ts:84-84 | An OP_MSG that ends before its flags throws alone, and is read when four more bytes are in its chunk. |
| `MongoRecorders.TraceIsStreams` | src/record/protocols/mongoRecorder.ts:173-182 | The messages of a run in which nothing throws are those of its two streams read as a whole, and the buffers hold what is left. |
| `MongoRecorders.PairedById` | src/record/protocols/mongoRecorder.ts:137-164 | For any ids: what waits is pending, what is answered is recorded, in reply order. |
| `MongoRecorders.MatchedIsAnswered` | src/record/protocols/mongoRecorder.ts:149-161 | A request is matched to exactly the first reply that names its id, if no later request took the id before. |
| `MongoRecorders.Conserved` | src/record/protocols/mongoRecorder.ts:137-164 | Every request is pending, recorded once, or was displaced by a request that reused its id. |
| `MongoRecorders.RunPairs` | src/record/protocols/mongoRecorder.ts:129-171 | Over any interleaving of chunks and drains, and also where reading throws: pairing by id, and no request is lost exactly when no waiting id is reused. |
| `MongoReplays.MongoReplay.constructor` | src/replay/mongoReplayServer.ts:75-84 | Loading queues every MongoDB response under its signature, in order. |
| `MongoReplays.NeverGuesses` | src/replay/mongoReplayServer.ts:86-115 | Over any run: a lookup gets its signature's next recorded reply, then the last again, or an error naming it; missing is exact; handshakes and housekeeping take nothing. |
| `MongoSignatures.SignatureIdentity` | src/replay/mongoReplayServer.ts:63-68 | Two commands with clean names and collections share a signature exactly when command and collection are equal and either neither has a truthy filter or both have one of the same JSON text. |
| `MongoSignatures.SignatureText` | src/replay/mongoReplayServer.ts:63-68 | Every signature is the command, the collection and the JSON of the truthy filter with a space between them, without the white space at either end. |
| `MongoSignatures.CollectionConfuses` | src/replay/mongoReplayServer.ts:63-68 | The collection users 1 shares its signature with the collection users under the filter 1. |
| `MongoSignatures.NeverMadeUp` | src/replay/mongoReplayServer.ts:48-111 | Over any calls: the six negotiating commands are welcomed as by a writable server of wire versions 0 to 17, the seven bookkeeping ones acknowledged, any other gets a recorded response of its signature, or an error that quotes it. |
| `MongoReplays.Connection.OnData` | src/replay/mongoReplayServer.ts:169-183 | One chunk at the server: buffer, replay, the shared id counter and the bytes written; whether it throws, on a message it cannot read or on a field of a reply that does not fit; and whether a reply holds an object on which the writer is not followed. |
| `Divergence.WrittenTables` | src/replay/divergence.ts:69-72 | A table counts as written exactly when an earlier statement of the run wrote it. |
| `Divergence.StaleExactly` | src/replay/divergence.ts:69-89 | A statement is a stale read exactly when it is an unrecorded write, or a read of a table this run wrote before. |
| `Divergence.SaidExactly` | src/replay/divergence.ts:69-100 | At every point of a run, exactly what is said of a statement: an unrecorded write, else a read of a written table, else the first of clock, random and identifier that its text shows, and else nothing; with its words, cut at 87 bytes past 90. |
| `Divergence.RaisedOnce` | src/replay/divergence.ts:53-61 | What is said of a statement is raised unless the same kind was said of the same text before. |
| `Divergence.KeyIdentity` | src/replay/divergence.ts:56-56 | Two warnings share a key exactly when kind and compacted statement agree. |
| `Divergence.AllIsDeduplicated` | src/replay/divergence.ts:53-61 | all() is every evaluated warning, in order, each kind and statement once. |
| `BodyBuffers.BodyBuffer.OnData` | src/record/bodyBuffer.ts:53-66 | What is held is the whole body so far, or nothing once it is past the cap. |
| `BodyBuffers.BodyBuffer.OnEnd` | src/record/bodyBuffer.ts:68-73 | The result is a function of the bytes relayed and the cap. |
| `BodyBuffers.Capture` | src/record/bodyBuffer.ts:42-78 | For any chunking: held bytes stay within the cap, truncated means past the cap, and otherwise the text is the whole body. |
| `BodyBuffers.DefaultOutcome` | src/record/bodyBuffer.ts:42-78 | By default a body within two megabytes that is text is kept whole, and a longer one is counted and dropped. |

## Left out

- HTTP proxies, TLS interception, certificates, sessions, commands and UI: sockets, processes and text with little state of their own.
- The order of recorder calls in the TCP relay. Of a PostgreSQL replay server that threw, what it has written is modelled, of a MongoDB one nothing; of the recorders, the whole state.
- Timing fields (`durationMs`, `sentAt`) and the sorting of missing keys in `stats`: dropped; the missing keys are a set.
- Invalid UTF-8, case mapping and white space beyond ASCII: text is its bytes; `toUpperCase` and `\s` act on ASCII.
- String lengths: a JavaScript string length is counted in UTF-16 units; `Divergence.Compact` counts bytes.
- Resp.Decode: headers that are not integer literals (fractions, exponents, NaN), integers of magnitude 10^21 or more, and marker bytes past 127 are not modelled.
- Resp.FromDescribe: covers the shapes the recorder stores, not recordings edited by hand.
- Bson.ReadElement: where the source clamps a field that runs past the buffer, or follows a missing terminator or a negative size, the reading is `Malformed`; what the source then makes of it is not modelled, and the recorder's laws are about runs that meet none.
- BsonWriter.DocumentBack: an object inside a document whose own `$type` key holds one of the four tags, or other text without text under `value`, is not followed through the writer, nor is the key `__proto__`; `Connection.OnData` calls such a reply unmodelled.
- Binary subtypes: the reader drops them and the writer writes 0, so they are no part of the value.
- MongoMessages.ReadMessageAt: an OP_QUERY without a document in the buffer is malformed here; the source reads an empty command or bytes of the next message.
- Doubles.NumberOf: the payload of a NaN is not modelled; every NaN is one number.
- MongoReplays.NeverGuesses: `JSON.stringify` of a filter and the clock are parameters; `MongoFixpoint.KeysKept` asks of the first that it does not tell a value from the stored one.
- Divergence.StaleExactly: the SQL patterns are parameters, so nothing is said about which statements they match.
- Divergence.SaidExactly: the sentences around a table or a reason in a warning's detail are not spelled out.
- BodyBuffers.Capture: UTF-8 validity is a parameter, and back-pressure and stream errors are not modelled.
- PostgresRecorders.ClientChunksMerge: with a plain startup packet of negative length the condition is sufficient; whether the frames read from different remainders happen to agree is left open.
- PostgresThrows.ClientCut: says nothing where a negative startup length counts back over the cut.
- PostgresShape.StreamShape: assumes that the length field of the startup packet is not negative.
- PostgresRerecord.ReplayRerecorded: pipelined sessions and queries with several results are not covered; the recorder keeps one statement at a time.
- PostgresRerecord.ReplayRerecorded: a leg is complete in one direction before the answer is seen; finer interleavings inside a turn are not covered.
- The growth of JavaScript buffers, copies made for garbage collection, and server life cycles.
