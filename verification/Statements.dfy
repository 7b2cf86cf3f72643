/**
 * The identity a SQL statement is filed under: `signatureOf` of src/replay/postgresReplayServer.ts.
 *
 * The signature is the normalised SQL, a bar, and the parameters as JSON. SQL and parameters may both contain bars and
 * brackets, so that the two cannot be confused needs an argument: it counts quotes.
 */
module Statements {
  import opened Wire
  import opened Words

  const QUOTE: byte := 34
  const BACKSLASH: byte := 92
  const BAR: byte := 124
  const OPEN: byte := 91
  const CLOSE: byte := 93
  const COMMA: byte := 44
  const NULL: Text := [110, 117, 108, 108]

  type Params = seq<Option<Text>>

  // ----- JSON of the parameters -----

  /** One byte inside a JSON string (RFC 8259, section 7). */
  function Escape(c: byte): (e: Text)
    ensures e != []
  {
    if c == QUOTE then [BACKSLASH, QUOTE]
    else if c == BACKSLASH then [BACKSLASH, BACKSLASH]
    else if c == 8 then [BACKSLASH, 98]
    else if c == 12 then [BACKSLASH, 102]
    else if c == 10 then [BACKSLASH, 110]
    else if c == 13 then [BACKSLASH, 114]
    else if c == 9 then [BACKSLASH, 116]
    else if c < 32 then [BACKSLASH, 117, 48, 48, HexDigit(c / 16), HexDigit(c % 16)]
    else [c]
  }

  function EscapeAll(t: Text): Text {
    if t == [] then [] else Escape(t[0]) + EscapeAll(t[1..])
  }

  function JsonValue(v: Option<Text>): (j: Text)
    ensures j != []
  {
    match v
    case None => NULL
    case Some(t) => [QUOTE] + EscapeAll(t) + [QUOTE]
  }

  /** The values after the first, each behind a comma, and the closing bracket. */
  function JsonRest(params: Params): (j: Text)
    ensures j != [] && (j[0] == COMMA || j[0] == CLOSE)
  {
    if params == [] then [CLOSE] else [COMMA] + JsonValue(params[0]) + JsonRest(params[1..])
  }

  /** `JSON.stringify(params)`. */
  function Json(params: Params): Text {
    [OPEN] + (if params == [] then [CLOSE] else JsonValue(params[0]) + JsonRest(params[1..]))
  }

  function SignatureOf(sql: Text, params: Params): Text {
    Normalise(sql) + [BAR] + Json(params)
  }

  // ----- JSON texts determine their values -----

  lemma {:induction false} EscapeIsPrefixFree(c: byte, d: byte, x: Text, y: Text)
    requires Escape(c) + x == Escape(d) + y
    ensures c == d && x == y
  {
    var s := Escape(c) + x;
    assert s[0] == Escape(c)[0] == Escape(d)[0];
    if s[0] == BACKSLASH {
      assert s[1] == Escape(c)[1] == Escape(d)[1];
      if s[1] == 117 {
        assert s[4] == Escape(c)[4] == Escape(d)[4];
        assert s[5] == Escape(c)[5] == Escape(d)[5];
      }
    }
    assert s[|Escape(c)|..] == x && s[|Escape(d)|..] == y;
  }

  lemma {:induction false} EscapeAllEnds(s: Text, t: Text, x: Text, y: Text)
    requires EscapeAll(s) + [QUOTE] + x == EscapeAll(t) + [QUOTE] + y
    ensures s == t && x == y
    decreases |s|
  {
    hide Escape;
    var whole := EscapeAll(s) + [QUOTE] + x;
    if s == [] || t == [] {
      assert whole[0] == if s == [] then QUOTE else Escape(s[0])[0];
      assert whole[0] == if t == [] then QUOTE else Escape(t[0])[0];
      EscapeIsNotQuote(s);
      EscapeIsNotQuote(t);
      assert whole[1..] == x && whole[1..] == y;
    } else {
      assert whole == Escape(s[0]) + (EscapeAll(s[1..]) + [QUOTE] + x);
      assert whole == Escape(t[0]) + (EscapeAll(t[1..]) + [QUOTE] + y);
      EscapeIsPrefixFree(s[0], t[0], EscapeAll(s[1..]) + [QUOTE] + x, EscapeAll(t[1..]) + [QUOTE] + y);
      EscapeAllEnds(s[1..], t[1..], x, y);
      assert [s[0]] + s[1..] == s && [t[0]] + t[1..] == t;
    }
  }

  lemma {:induction false} EscapeIsNotQuote(t: Text)
    ensures t != [] ==> Escape(t[0])[0] != QUOTE
  {
  }

  lemma {:induction false} QuotedEnds(s: Text, t: Text, x: Text, y: Text)
    requires JsonValue(Some(s)) + x == JsonValue(Some(t)) + y
    ensures s == t && x == y
  {
    hide EscapeAll;
    var whole := JsonValue(Some(s)) + x;
    assert whole[1..] == EscapeAll(s) + [QUOTE] + x;
    assert (JsonValue(Some(t)) + y)[1..] == EscapeAll(t) + [QUOTE] + y;
    EscapeAllEnds(s, t, x, y);
  }

  lemma {:induction false} JsonValueEnds(v: Option<Text>, w: Option<Text>, x: Text, y: Text)
    requires JsonValue(v) + x == JsonValue(w) + y
    ensures v == w && x == y
  {
    hide EscapeAll;
    assert (JsonValue(v) + x)[0] == JsonValue(v)[0] && (JsonValue(w) + y)[0] == JsonValue(w)[0];
    if v.Some? {
      QuotedEnds(v.value, w.value, x, y);
    } else {
      assert (NULL + x)[4..] == x && (NULL + y)[4..] == y;
    }
  }

  lemma {:induction false} JsonRestInjective(p: Params, q: Params)
    requires JsonRest(p) == JsonRest(q)
    ensures p == q
    decreases |p|
  {
    hide JsonValue;
    if p != [] && q != [] {
      assert JsonRest(p)[1..] == JsonValue(p[0]) + JsonRest(p[1..]);
      assert JsonRest(q)[1..] == JsonValue(q[0]) + JsonRest(q[1..]);
      JsonValueEnds(p[0], q[0], JsonRest(p[1..]), JsonRest(q[1..]));
      JsonRestInjective(p[1..], q[1..]);
      assert [p[0]] + p[1..] == p && [q[0]] + q[1..] == q;
    }
  }

  lemma {:induction false} JsonOpening(p: Params)
    ensures |Json(p)| >= 2 && (Json(p)[1] == CLOSE <==> p == [])
  {
  }

  lemma {:induction false} JsonInjective(p: Params, q: Params)
    requires Json(p) == Json(q)
    ensures p == q
  {
    hide JsonValue;
    JsonOpening(p);
    JsonOpening(q);
    if p != [] {
      assert Json(p)[1..] == JsonValue(p[0]) + JsonRest(p[1..]);
      assert Json(q)[1..] == JsonValue(q[0]) + JsonRest(q[1..]);
      JsonValueEnds(p[0], q[0], JsonRest(p[1..]), JsonRest(q[1..]));
      JsonRestInjective(p[1..], q[1..]);
      assert [p[0]] + p[1..] == p && [q[0]] + q[1..] == q;
    }
  }

  // ----- quotes -----

  /** Reading left to right: whether an odd number of quotes has been seen, and whether the next byte is escaped. */
  datatype Scan = Scan(inside: bool, escaped: bool)

  const OUTSIDE := Scan(false, false)
  const INSIDE := Scan(true, false)

  function Next(s: Scan, c: byte): Scan {
    if s.escaped then Scan(s.inside, false)
    else if c == BACKSLASH then Scan(s.inside, true)
    else if c == QUOTE then Scan(!s.inside, false)
    else s
  }

  function ScanAll(s: Scan, t: Text): Scan
    decreases |t|
  {
    if t == [] then s else ScanAll(Next(s, t[0]), t[1..])
  }

  lemma {:induction false} ScanAppend(s: Scan, a: Text, b: Text)
    ensures ScanAll(s, a + b) == ScanAll(ScanAll(s, a), b)
    decreases |a|
  {
    if a == [] {
      assert a + b == b;
    } else {
      assert (a + b)[1..] == a[1..] + b;
      ScanAppend(Next(s, a[0]), a[1..], b);
    }
  }

  function Flip(s: Scan): Scan {
    Scan(!s.inside, s.escaped)
  }

  lemma {:induction false} ScanFlip(s: Scan, t: Text)
    ensures ScanAll(Flip(s), t) == Flip(ScanAll(s, t))
    decreases |t|
  {
    if t != [] {
      ScanFlip(Next(s, t[0]), t[1..]);
    }
  }

  /** Every bar of `t`, read from `s`, stands inside a string. */
  ghost predicate BarsInside(s: Scan, t: Text) {
    forall k | 0 <= k < |t| && t[k] == BAR :: ScanAll(s, t[..k]) == INSIDE
  }

  lemma {:induction false} BarsAppend(s: Scan, a: Text, b: Text)
    requires BarsInside(s, a) && BarsInside(ScanAll(s, a), b)
    ensures BarsInside(s, a + b)
    ensures ScanAll(s, a + b) == ScanAll(ScanAll(s, a), b)
  {
    ScanAppend(s, a, b);
    forall k | 0 <= k < |a + b| && (a + b)[k] == BAR ensures ScanAll(s, (a + b)[..k]) == INSIDE {
      if k < |a| {
        assert (a + b)[..k] == a[..k];
      } else {
        assert (a + b)[..k] == a + b[..k - |a|];
        ScanAppend(s, a, b[..k - |a|]);
      }
    }
  }

  lemma {:induction false} ScanByte(s: Scan, c: byte)
    requires c != BAR
    ensures ScanAll(s, [c]) == Next(s, c) && BarsInside(s, [c])
  {
  }

  /** Bytes that mean nothing to the scan. */
  lemma {:induction false} ScanPlain(t: Text)
    requires forall i | 0 <= i < |t| :: t[i] != QUOTE && t[i] != BACKSLASH
    ensures ScanAll(INSIDE, t) == INSIDE && BarsInside(INSIDE, t)
  {
    if t != [] {
      ScanPlain(t[1..]);
      assert [t[0]][1..] == [];
      assert BarsInside(INSIDE, [t[0]]);
      assert [t[0]] + t[1..] == t;
      BarsAppend(INSIDE, [t[0]], t[1..]);
    }
  }

  lemma {:induction false} ScanEscape(c: byte)
    ensures ScanAll(INSIDE, Escape(c)) == INSIDE && BarsInside(INSIDE, Escape(c))
  {
    var e := Escape(c);
    if e[0] == BACKSLASH {
      ScanByte(INSIDE, BACKSLASH);
      ScanByte(Scan(true, true), e[1]);
      BarsAppend(INSIDE, [BACKSLASH], [e[1]]);
      ScanPlain(e[2..]);
      BarsAppend(INSIDE, [BACKSLASH] + [e[1]], e[2..]);
      assert e == [BACKSLASH] + [e[1]] + e[2..];
    } else {
      ScanPlain(e);
    }
  }

  lemma {:induction false} ScanEscapeAll(t: Text)
    ensures ScanAll(INSIDE, EscapeAll(t)) == INSIDE && BarsInside(INSIDE, EscapeAll(t))
  {
    hide Escape;
    if t != [] {
      ScanEscape(t[0]);
      ScanEscapeAll(t[1..]);
      BarsAppend(INSIDE, Escape(t[0]), EscapeAll(t[1..]));
    }
  }

  lemma {:induction false} ScanValue(v: Option<Text>)
    ensures ScanAll(OUTSIDE, JsonValue(v)) == OUTSIDE && BarsInside(OUTSIDE, JsonValue(v))
  {
    match v
    case None =>
      assert NULL[1..] == [117, 108, 108] && NULL[1..][1..] == [108, 108] && NULL[1..][1..][1..] == [108];
    case Some(t) =>
      ScanByte(OUTSIDE, QUOTE);
      ScanByte(INSIDE, QUOTE);
      ScanEscapeAll(t);
      BarsAppend(OUTSIDE, [QUOTE], EscapeAll(t));
      BarsAppend(OUTSIDE, [QUOTE] + EscapeAll(t), [QUOTE]);
  }

  lemma {:induction false} ScanRest(params: Params)
    ensures ScanAll(OUTSIDE, JsonRest(params)) == OUTSIDE && BarsInside(OUTSIDE, JsonRest(params))
  {
    hide JsonValue;
    if params == [] {
      ScanByte(OUTSIDE, CLOSE);
    } else {
      ScanByte(OUTSIDE, COMMA);
      ScanValue(params[0]);
      ScanRest(params[1..]);
      BarsAppend(OUTSIDE, [COMMA], JsonValue(params[0]));
      BarsAppend(OUTSIDE, [COMMA] + JsonValue(params[0]), JsonRest(params[1..]));
    }
  }

  /** In the JSON of a parameter list quotes pair up, and every bar is inside a string. */
  lemma {:induction false} ScanJson(params: Params)
    ensures ScanAll(OUTSIDE, Json(params)) == OUTSIDE && BarsInside(OUTSIDE, Json(params))
  {
    hide JsonValue;
    ScanByte(OUTSIDE, OPEN);
    ScanByte(OUTSIDE, CLOSE);
    if params == [] {
      BarsAppend(OUTSIDE, [OPEN], [CLOSE]);
    } else {
      ScanValue(params[0]);
      ScanRest(params[1..]);
      BarsAppend(OUTSIDE, JsonValue(params[0]), JsonRest(params[1..]));
      BarsAppend(OUTSIDE, [OPEN], JsonValue(params[0]) + JsonRest(params[1..]));
    }
  }

  /** Parameter JSON never ends in a bar followed by the JSON of other parameters: the quotes would not pair up. */
  lemma {:induction false} NoBarBefore(p: Params, q: Params, before: Text)
    ensures Json(p) != before + [BAR] + Json(q)
  {
    hide Json, SignatureOf;
    var whole := before + [BAR] + Json(q);
    if Json(p) == whole {
      ScanJson(p);
      ScanJson(q);
      assert whole[..|before|] == before && whole[|before|] == BAR;
      assert ScanAll(OUTSIDE, before) == INSIDE;
      assert [BAR][1..] == [];
      ScanAppend(OUTSIDE, before, [BAR]);
      ScanAppend(OUTSIDE, before + [BAR], Json(q));
      ScanFlip(OUTSIDE, Json(q));
    }
  }

  lemma {:induction false} BarsDiffer(m: Text, n: Text, p: Params, q: Params)
    requires |m| < |n|
    ensures m + [BAR] + Json(p) != n + [BAR] + Json(q)
  {
    hide Json;
    var before := n[|m| + 1..];
    NoBarBefore(p, q, before);
    assert (m + [BAR] + Json(p))[|m| + 1..] == Json(p);
    assert (n + [BAR] + Json(q))[|m| + 1..] == before + [BAR] + Json(q);
  }

  /** The bar between SQL and parameters is found again, whatever either contains. */
  lemma {:induction false} SplitAtBar(m: Text, n: Text, p: Params, q: Params)
    requires m + [BAR] + Json(p) == n + [BAR] + Json(q)
    ensures m == n && p == q
  {
    hide Json;
    if |m| < |n| {
      BarsDiffer(m, n, p, q);
    } else if |n| < |m| {
      BarsDiffer(n, m, q, p);
    }
    var s := m + [BAR] + Json(p);
    assert s[..|m|] == m && s[..|n|] == n;
    assert s[|m| + 1..] == Json(p) && (n + [BAR] + Json(q))[|n| + 1..] == Json(q);
    JsonInjective(p, q);
  }

  /**
   * Two statements share a signature exactly when their SQL has the same words in the same order and their parameter
   * lists are equal: white space is all that is forgotten.
   */
  lemma {:induction false} SignatureIdentity(s: Text, t: Text, p: Params, q: Params)
    ensures SignatureOf(s, p) == SignatureOf(t, q) <==> WordsOf(s) == WordsOf(t) && p == q
  {
    hide Json, Normalise;
    NormaliseIdentity(s, t);
    if SignatureOf(s, p) == SignatureOf(t, q) {
      SplitAtBar(Normalise(s), Normalise(t), p, q);
    }
  }

  // ----- the signature in bytes -----

  function HexValue(c: byte): (v: Option<nat>)
    ensures v.Some? ==> v.value < 16
  {
    if 48 <= c <= 57 then Some(c - 48) else if 97 <= c <= 102 then Some(c - 87) else None
  }

  function Behind(c: byte, rest: Option<Text>): Option<Text> {
    if rest.None? then None else Some([c] + rest.value)
  }

  /** What a string written by JavaScript as JSON (RFC 8259, section 7) says, read between its quotes. */
  function Unquoted(e: Text): Option<Text>
    decreases |e|
  {
    if e == [] then Some([])
    else if e[0] == 34 || e[0] < 32 then None
    else if e[0] != 92 then Behind(e[0], Unquoted(e[1..]))
    else if |e| < 2 then None
    else
      match e[1]
      case 34 => Behind(34, Unquoted(e[2..]))
      case 92 => Behind(92, Unquoted(e[2..]))
      case 98 => Behind(8, Unquoted(e[2..]))
      case 102 => Behind(12, Unquoted(e[2..]))
      case 110 => Behind(10, Unquoted(e[2..]))
      case 114 => Behind(13, Unquoted(e[2..]))
      case 116 => Behind(9, Unquoted(e[2..]))
      case 117 =>
        if |e| < 6 || e[2..4] != [48, 48] || HexValue(e[4]).None? || HexValue(e[5]).None? then None
        else
          var c := 16 * HexValue(e[4]).value + HexValue(e[5]).value;
          if c in {8, 9, 10, 12, 13} || c >= 32 then None else Behind(c, Unquoted(e[6..]))
      case _ => None
  }

  lemma {:induction false} UnquotedOne(c: byte, e: Text)
    ensures Unquoted(Escape(c) + e) == Behind(c, Unquoted(e))
  {
    var all := Escape(c) + e;
    assert all[|Escape(c)|..] == e;
    if all[0] == 92 && all[1] == 117 {
      assert all[2..4] == [48, 48];
    }
  }

  lemma {:induction false} UnquotedBack(t: Text)
    ensures Unquoted(EscapeAll(t)) == Some(t)
  {
    hide Escape;
    if t != [] {
      UnquotedBack(t[1..]);
      UnquotedOne(t[0], EscapeAll(t[1..]));
      assert t == [t[0]] + t[1..];
    }
  }

  /** `null` for NULL, and for a text a JSON string that says it. */
  predicate IsItem(item: Text, v: Option<Text>) {
    match v
    case None => item == [110, 117, 108, 108]
    case Some(t) =>
      |item| >= 2 && item[0] == 34 && item[|item| - 1] == 34 && Unquoted(item[1..|item| - 1]) == Some(t)
  }

  predicate AreItems(items: seq<Text>, params: Params) {
    |items| == |params| && forall i | 0 <= i < |items| :: IsItem(items[i], params[i])
  }

  function WithCommas(items: seq<Text>): Text {
    if items == [] then [] else if |items| == 1 then items[0] else items[0] + [44] + WithCommas(items[1..])
  }

  lemma {:induction false} ItemIs(v: Option<Text>)
    ensures IsItem(JsonValue(v), v)
  {
    if v.Some? {
      UnquotedBack(v.value);
      var e := EscapeAll(v.value);
      assert JsonValue(v)[1..1 + |e|] == e;
    }
  }

  lemma {:induction false} ItemsAre(params: Params) returns (items: seq<Text>)
    requires params != []
    ensures AreItems(items, params)
    ensures JsonValue(params[0]) + JsonRest(params[1..]) == WithCommas(items) + [93]
    decreases |params|
  {
    hide IsItem, JsonValue;
    ItemIs(params[0]);
    if |params| == 1 {
      items := [JsonValue(params[0])];
      assert JsonRest(params[1..]) == [93] && WithCommas(items) == items[0];
    } else {
      var others := ItemsAre(params[1..]);
      items := [JsonValue(params[0])] + others;
      assert items[1..] == others;
      assert JsonRest(params[1..]) == [44] + (JsonValue(params[1]) + JsonRest(params[1..][1..]));
      assert WithCommas(items) == items[0] + [44] + WithCommas(others);
      forall i | 0 <= i < |items| ensures IsItem(items[i], params[i]) {
        assert 0 < i ==> items[i] == others[i - 1] && params[i] == params[1..][i - 1];
      }
    }
  }

  /** The signature: the words with a space between them, a bar, and the parameters as a JSON array. */
  lemma {:induction false} SignatureText(sql: Text, params: Params) returns (items: seq<Text>)
    ensures AreItems(items, params)
    ensures SignatureOf(sql, params) == Join(WordsOf(sql)) + [124, 91] + WithCommas(items) + [93]
  {
    hide IsItem, JsonValue, Join, WordsOf, Normalise;
    NormaliseJoins(sql);
    if params == [] {
      items := [];
    } else {
      items := ItemsAre(params);
    }
  }
}
