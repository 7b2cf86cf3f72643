/**
 * Which Redis commands share a signature: `signatureOf` of src/replay/redisReplayServer.ts.
 */
module RedisSignatures {
  import opened Wire
  import opened RedisReplays
  import opened RespGrammar
  import opened Playback
  import Words
  import Resp

  /** `split(' ')`: the texts between spaces, empty ones included. */
  function Pieces(t: Text): (pieces: seq<Text>)
    ensures pieces != []
  {
    if t == [] then [[]]
    else
      var rest := Pieces(t[1..]);
      if t[0] == 32 then [[]] + rest else [[t[0]] + rest[0]] + rest[1..]
  }

  function AllPieces(parts: seq<Text>): seq<Text> {
    if parts == [] then [] else Pieces(parts[0]) + AllPieces(parts[1..])
  }

  lemma {:induction false} FirstByte(t: Text)
    ensures Pieces([]) == [[]]
    ensures t != [] ==>
              var rest := Pieces(t[1..]);
              Pieces(t) == if t[0] == 32 then [[]] + rest else [[t[0]] + rest[0]] + rest[1..]
  {
  }

  lemma {:induction false} PiecesAppend(a: Text, b: Text)
    ensures Pieces(a + [32] + b) == Pieces(a) + Pieces(b)
    decreases |a|
  {
    hide Pieces;
    var whole := a + [32] + b;
    FirstByte(a);
    FirstByte(whole);
    if a == [] {
      assert whole[1..] == b;
    } else {
      assert whole[0] == a[0] && whole[1..] == a[1..] + [32] + b;
      PiecesAppend(a[1..], b);
      var rest := Pieces(a[1..]);
      assert (rest + Pieces(b))[1..] == rest[1..] + Pieces(b);
    }
  }

  lemma {:induction false} PiecesOfJoin(parts: seq<Text>)
    requires parts != []
    ensures Pieces(Words.Join(parts)) == AllPieces(parts)
    decreases |parts|
  {
    hide Pieces;
    if |parts| == 1 {
      assert AllPieces(parts[1..]) == [] && Pieces(parts[0]) + [] == Pieces(parts[0]);
    } else {
      PiecesOfJoin(parts[1..]);
      PiecesAppend(parts[0], Words.Join(parts[1..]));
    }
  }

  lemma {:induction false} PiecesInjective(a: Text, b: Text)
    requires Pieces(a) == Pieces(b)
    ensures a == b
    decreases |a|
  {
    if a != [] && b != [] {
      var p, q := Pieces(a[1..]), Pieces(b[1..]);
      if a[0] == 32 {
        assert Pieces(a)[0] == Pieces(b)[0] == [];
        assert Pieces(a)[1..] == p && Pieces(b)[1..] == q;
      } else {
        assert Pieces(a)[0][0] == a[0] && Pieces(a)[0][1..] == p[0] && Pieces(a)[1..] == p[1..];
        assert Pieces(b)[0][0] == b[0] && Pieces(b)[0][1..] == q[0] && Pieces(b)[1..] == q[1..];
        assert p == [p[0]] + p[1..] && q == [q[0]] + q[1..];
      }
      PiecesInjective(a[1..], b[1..]);
      assert a == [a[0]] + a[1..] && b == [b[0]] + b[1..];
    }
  }

  /**
   * Two commands share a signature exactly when, with the verbs in capitals, splitting their parts at the spaces gives
   * the same texts: letters of the verb may differ in case, and a space inside a part reads like one between parts.
   */
  lemma {:induction false} SignatureIdentity(verb: Text, args: seq<Text>, other: Text, others: seq<Text>, u: Text,
          v: Text)
    requires IsUpperOf(u, verb) && IsUpperOf(v, other)
    ensures SignatureOf(verb, args) == SignatureOf(other, others) <==> AllPieces([u] + args) == AllPieces([v] + others)
  {
    hide Pieces, AllPieces, Words.Join;
    OnlyUpper(u, verb);
    OnlyUpper(v, other);
    PiecesOfJoin([u] + args);
    PiecesOfJoin([v] + others);
    if AllPieces([u] + args) == AllPieces([v] + others) {
      PiecesInjective(Words.Join([u] + args), Words.Join([v] + others));
    }
  }

  lemma {:induction false} OnlyUpper(u: Text, t: Text)
    requires IsUpperOf(u, t)
    ensures Resp.Upper(t) == u
  {
  }

  predicate HasNoSpace(t: Text) {
    forall i | 0 <= i < |t| :: t[i] != 32
  }

  lemma {:induction false} WholePiece(t: Text)
    requires HasNoSpace(t)
    ensures Pieces(t) == [t]
  {
    if t != [] {
      WholePiece(t[1..]);
      assert [t[0]] + t[1..] == t;
    }
  }

  lemma {:induction false} WholePieces(parts: seq<Text>)
    requires forall i | 0 <= i < |parts| :: HasNoSpace(parts[i])
    ensures AllPieces(parts) == parts
    decreases |parts|
  {
    hide Pieces;
    if parts != [] {
      WholePiece(parts[0]);
      WholePieces(parts[1..]);
      assert [parts[0]] + parts[1..] == parts;
    }
  }

  /** Without spaces inside their parts, commands share a signature exactly when they are the same but for case. */
  lemma {:induction false} PlainCommandsApart(verb: Text, args: seq<Text>, other: Text, others: seq<Text>, u: Text,
          v: Text)
    requires IsUpperOf(u, verb) && IsUpperOf(v, other) && HasNoSpace(u) && HasNoSpace(v)
    requires forall i | 0 <= i < |args| :: HasNoSpace(args[i])
    requires forall i | 0 <= i < |others| :: HasNoSpace(others[i])
    ensures SignatureOf(verb, args) == SignatureOf(other, others) <==> u == v && args == others
  {
    hide AllPieces, SignatureOf;
    SignatureIdentity(verb, args, other, others, u, v);
    WholePieces([u] + args);
    WholePieces([v] + others);
    assert ([u] + args)[0] == u && ([u] + args)[1..] == args;
    assert ([v] + others)[0] == v && ([v] + others)[1..] == others;
  }

  /** `SET` of the one argument `a b` is answered as `SET` of `a` and `b`. */
  lemma {:induction false} SpaceConfuses()
    ensures SignatureOf([83, 69, 84], [[97, 32, 98]]) == SignatureOf([115, 101, 116], [[97], [98]])
  {
    var one, two := [[83, 69, 84], [97, 32, 98]], [[83, 69, 84], [97], [98]];
    assert Resp.Upper([83, 69, 84]) == [83, 69, 84] == Resp.Upper([115, 101, 116]);
    assert [[83, 69, 84]] + [[97, 32, 98]] == one && [[83, 69, 84]] + [[97], [98]] == two;
    assert one[1..] == [[97, 32, 98]] && two[1..] == [[97], [98]] && two[1..][1..] == [[98]];
  }

  // ----- an unrecorded command -----

  /** Over any calls, a signature that was never recorded is answered with an error line that quotes it. */
  lemma {:induction false} UnrecordedIsError(log: seq<(Text, Resp.Value)>, keys: seq<Text>, i: nat)
    requires i < |keys| && forall j | 0 <= j < |log| :: log[j].0 != keys[i]
    ensures Resp.Encode(Ask(Load(log), keys).replies[i])
            == [45] + (Ascii("ERR cognivox has no recording for: ") + keys[i]) + [13, 10]
  {
    hide Ask, Load, Resp.Encode, Filed;
    NeverGuesses(log, keys);
    FiledNone(log, keys[i]);
    LinesWritten(Ascii("ERR cognivox has no recording for: ") + keys[i]);
  }
}
