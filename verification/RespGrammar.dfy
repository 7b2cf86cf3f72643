/**
 * RESP in bytes: what a Redis peer puts on the wire, byte by byte, and how src/record/protocols/resp.ts reads and
 * writes it. Nothing here is stated through the reader's or the writer's own markers, line ends or digits.
 */
module RespGrammar {
  import opened Wire
  import opened Streams
  import Decimal
  import Resp
  import opened RedisRecorders
  import Words

  // ----- lines and numbers -----

  /** A carriage return and a line feed follow each other nowhere in it. */
  predicate NoBreak(t: Bytes) {
    forall i | 0 <= i < |t| - 1 :: t[i] != 13 || t[i + 1] != 10
  }

  predicate AreDigits(t: Bytes) {
    t != [] && forall i | 0 <= i < |t| :: 48 <= t[i] <= 57
  }

  /** The number a run of digits stands for. */
  function ValueOf(t: Bytes): nat
    requires forall i | 0 <= i < |t| :: 48 <= t[i] <= 57
  {
    if t == [] then 0 else 10 * ValueOf(t[..|t| - 1]) + (t[|t| - 1] - 48)
  }

  /** The digits of `n`, without zeros in front. */
  predicate IsDecimal(t: Bytes, n: nat) {
    AreDigits(t) && ValueOf(t) == n && (t[0] == 48 ==> |t| == 1)
  }

  const MAX_SAFE := 9007199254740991

  lemma {:induction false} ValueIs(t: Bytes)
    requires forall i | 0 <= i < |t| :: 48 <= t[i] <= 57
    ensures Decimal.IsDigits(t) && Decimal.Magnitude(t) == ValueOf(t)
  {
    if t != [] {
      ValueIs(t[..|t| - 1]);
    }
  }

  lemma {:induction false} SafeRead(t: Text, n: int)
    requires Decimal.Denoted(t) == Some(n) && -MAX_SAFE <= n <= MAX_SAFE
    ensures Decimal.Number(t) == Some(n)
  {
    hide Decimal.Denoted;
    Decimal.SafeIsDouble(n);
  }

  lemma {:induction false} NumberRead(d: Bytes)
    requires AreDigits(d) && ValueOf(d) <= MAX_SAFE
    ensures Decimal.Number(d) == Some(ValueOf(d)) && Decimal.Number([45] + d) == Some(0 - ValueOf(d))
  {
    hide Decimal.Number, Decimal.Magnitude, ValueOf;
    ValueIs(d);
    var signed := [45] + d;
    assert signed[1..] == d;
    SafeRead(d, ValueOf(d));
    SafeRead(signed, 0 - ValueOf(d));
  }

  /** The digits the program writes for a number, which are its decimal form. */
  lemma {:induction false} DigitsWritten(n: nat)
    ensures IsDecimal(Decimal.Digits(n), n)
  {
    if n >= 10 {
      DigitsWritten(n / 10);
      var d := Decimal.Digits(n);
      assert d[..|d| - 1] == Decimal.Digits(n / 10);
      assert d[0] == Decimal.Digits(n / 10)[0];
      assert ValueOf(Decimal.Digits(n / 10)) == n / 10 > 0;
      if Decimal.Digits(n / 10)[0] == 48 {
        ZeroAlone(Decimal.Digits(n / 10));
      }
    }
  }

  lemma {:induction false} ZeroAlone(t: Bytes)
    requires |t| == 1 && t[0] == 48
    ensures ValueOf(t) == 0
  {
    assert t[..0] == [];
  }

  // ----- reading -----

  lemma {:induction false} LineRead(marker: byte, text: Text, rest: Bytes)
    requires marker != 13 && NoBreak(text)
    ensures Resp.ReadHeader([marker] + text + [13, 10] + rest, 0) == Some(Resp.Header(marker, text, |text| + 3))
  {
    var b := [marker] + text + [13, 10] + rest;
    forall i | 0 <= i < 1 + |text| ensures !Resp.EndsLine(b, i) {
      if 0 < i {
        assert b[i] == text[i - 1] && b[i + 1] == if i < |text| then text[i] else 13;
      }
    }
    assert b[1 + |text|] == 13 && b[2 + |text|] == 10;
    Resp.LineEndIs(b, 0, 1 + |text|);
    assert b[1..1 + |text|] == text;
  }

  lemma {:induction false} NoBreakInDigits(d: Bytes)
    requires AreDigits(d)
    ensures NoBreak(d) && NoBreak([45] + d)
  {
  }

  /** `+text` is a status, `-text` an error, and a line behind any byte that is no marker is kept whole. */
  lemma {:induction false} LineIs(marker: byte, text: Text, rest: Bytes)
    requires NoBreak(text) && marker !in {13, 36, 42, 58}
    ensures Resp.Read([marker] + text + [13, 10] + rest)
            == Done(if marker == 43 then Resp.Simple(text)
                    else if marker == 45 then Resp.Error(text)
                    else Resp.Unsupported([marker] + text), |text| + 3)
  {
    hide Resp.ReadHeader;
    LineRead(marker, text, rest);
  }

  /** `:n` is an integer, with or without a sign. */
  lemma {:induction false} IntegerIs(d: Bytes, rest: Bytes)
    requires AreDigits(d) && ValueOf(d) <= MAX_SAFE
    ensures Resp.Read([58] + d + [13, 10] + rest) == Done(Resp.Integer(ValueOf(d)), |d| + 3)
    ensures Resp.Read([58] + ([45] + d) + [13, 10] + rest) == Done(Resp.Integer(0 - ValueOf(d)), |d| + 4)
  {
    hide Resp.ReadHeader, Decimal.Number, ValueOf;
    NumberRead(d);
    NoBreakInDigits(d);
    LineRead(58, d, rest);
    LineRead(58, [45] + d, rest);
  }

  /** `$n`, a line end, n bytes and two more are a text of n bytes, whatever the two are. */
  lemma {:induction false} BulkIs(d: Bytes, text: Text, end: Bytes, rest: Bytes)
    requires AreDigits(d) && ValueOf(d) == |text| <= MAX_SAFE && |end| == 2
    ensures Resp.Read([36] + d + [13, 10] + text + end + rest) == Done(Resp.Bulk(text), |d| + |text| + 5)
  {
    hide Resp.ReadHeader, Decimal.Number, ValueOf;
    NumberRead(d);
    NoBreakInDigits(d);
    var b := [36] + d + [13, 10] + text + end + rest;
    assert b == [36] + d + [13, 10] + (text + end + rest);
    LineRead(36, d, text + end + rest);
    assert b[|d| + 3..|d| + 3 + |text|] == text;
  }

  /** Until its last byte is there, it is waited for. */
  lemma {:induction false} BulkWaits(d: Bytes, part: Bytes)
    requires AreDigits(d) && |part| < ValueOf(d) + 2 && ValueOf(d) <= MAX_SAFE
    ensures Resp.Read([36] + d + [13, 10] + part) == Partial
  {
    hide Resp.ReadHeader, Decimal.Number, ValueOf;
    NumberRead(d);
    NoBreakInDigits(d);
    LineRead(36, d, part);
  }

  /** A negative size is the null bulk behind `$`, and the null array behind `*`. */
  lemma {:induction false} NullIs(d: Bytes, rest: Bytes)
    requires AreDigits(d) && 0 < ValueOf(d) <= MAX_SAFE
    ensures Resp.Read([36] + ([45] + d) + [13, 10] + rest) == Done(Resp.NullBulk, |d| + 4)
    ensures Resp.Read([42] + ([45] + d) + [13, 10] + rest) == Done(Resp.NullArray, |d| + 4)
  {
    hide Resp.ReadHeader, Decimal.Number, ValueOf;
    NumberRead(d);
    NoBreakInDigits(d);
    LineRead(36, [45] + d, rest);
    LineRead(42, [45] + d, rest);
  }

  /** `*n`, a line end and n values are an array of them. */
  lemma {:induction false} ArrayIs(d: Bytes, parts: seq<Bytes>, items: seq<Resp.Value>, rest: Bytes)
    requires AreDigits(d) && ValueOf(d) == |items| == |parts| <= MAX_SAFE
    requires forall i | 0 <= i < |items| :: Inverts(Resp.Read, items[i], parts[i])
    ensures Resp.Read([42] + d + [13, 10] + Concat(parts) + rest)
            == Done(Resp.Array(items), |d| + 3 + |Concat(parts)|)
  {
    hide Resp.ReadHeader, Decimal.Number, ValueOf, Resp.DecodeItems, Inverts;
    NumberRead(d);
    NoBreakInDigits(d);
    var head := [42] + d + [13, 10];
    assert head + Concat(parts) + rest == head + (Concat(parts) + rest);
    LineRead(42, d, Concat(parts) + rest);
    ItemsAre(parts, items, rest);
    Resp.DecodeItemsShift(head, Concat(parts) + rest, 0, |items|);
  }

  lemma {:induction false} FirstIs(item: Resp.Value, part: Bytes, rest: Bytes)
    requires Inverts(Resp.Read, item, part)
    ensures Resp.Decode(part + rest, 0) == Done(item, |part|)
  {
    hide Resp.Decode;
    assert Undoes(Resp.Read, item, part, rest);
  }

  lemma {:induction false} ItemsAre(parts: seq<Bytes>, items: seq<Resp.Value>, rest: Bytes)
    requires |items| == |parts| && forall i | 0 <= i < |items| :: Inverts(Resp.Read, items[i], parts[i])
    ensures Resp.DecodeItems(Concat(parts) + rest, 0, |items|) == Done(items, |Concat(parts)|)
    decreases |parts|
  {
    hide Resp.Decode, Inverts;
    if items != [] {
      var first, others := parts[0], Concat(parts[1..]) + rest;
      FirstIs(items[0], first, others);
      assert Concat(parts) + rest == first + others;
      ItemsAre(parts[1..], items[1..], rest);
      Resp.DecodeItemsShift(first, others, 0, |items| - 1);
      assert [items[0]] + items[1..] == items;
    }
  }

  /** Bytes without a line end are waited on. */
  lemma {:induction false} LineWaits(b: Bytes)
    requires NoBreak(b)
    ensures Resp.Read(b) == Partial
  {
    if b != [] {
      Resp.LineEndFirst(b, 0);
    }
  }

  // ----- writing -----

  /** What is written for a status, an error, a null, and a value that was not understood. */
  lemma {:induction false} LinesWritten(text: Text)
    ensures Resp.Encode(Resp.Simple(text)) == [43] + text + [13, 10]
    ensures Resp.Encode(Resp.Error(text)) == [45] + text + [13, 10]
    ensures Resp.Encode(Resp.NullBulk) == [36, 45, 49, 13, 10]
    ensures Resp.Encode(Resp.NullArray) == [42, 45, 49, 13, 10]
    ensures Resp.Encode(Resp.Unsupported(text)) == [45] + Ascii("ERR cognivox recorded an unsupported reply") + [13, 10]
  {
    assert Decimal.Digits(1) == [49];
  }

  /** A text is written behind `$` and its length. */
  lemma {:induction false} BulkWritten(text: Text) returns (d: Bytes)
    ensures IsDecimal(d, |text|) && Resp.Encode(Resp.Bulk(text)) == [36] + d + [13, 10] + text + [13, 10]
  {
    d := Decimal.Digits(|text|);
    DigitsWritten(|text|);
  }

  /** An array is written behind `*` and its count, its items one after the other. */
  lemma {:induction false} ArrayWritten(items: seq<Resp.Value>) returns (d: Bytes)
    ensures IsDecimal(d, |items|)
    ensures Resp.Encode(Resp.Array(items)) == [42] + d + [13, 10] + Concat(Encodings(items))
  {
    d := Decimal.Digits(|items|);
    DigitsWritten(|items|);
    AllWritten(items);
  }

  function Encodings(items: seq<Resp.Value>): (parts: seq<Bytes>)
    ensures |parts| == |items|
  {
    seq(|items|, i requires 0 <= i < |items| => Resp.Encode(items[i]))
  }

  lemma {:induction false} AllWritten(items: seq<Resp.Value>)
    ensures Resp.EncodeAll(items) == Concat(Encodings(items))
    decreases |items|
  {
    hide Resp.Encode;
    if items != [] {
      AllWritten(items[1..]);
      assert Encodings(items)[1..] == Encodings(items[1..]);
    }
  }

  /** A safe integer is written behind `:` in decimal. */
  lemma {:induction false} IntegerWritten(n: int) returns (d: Bytes)
    requires -MAX_SAFE <= n <= MAX_SAFE
    ensures Decimal.IsDouble(n) && IsDecimal(d, if n < 0 then -n else n)
    ensures Resp.Encode(Resp.Integer(n)) == [58] + (if n < 0 then [45] + d else d) + [13, 10]
  {
    d := Decimal.Digits(if n < 0 then -n else n);
    DigitsWritten(if n < 0 then -n else n);
    Decimal.SafeIsExact(n);
    hide Decimal.Print, IsDecimal;
  }

  // ----- commands -----

  /** `t` with its letters in capitals. */
  predicate IsUpperOf(u: Text, t: Text) {
    |u| == |t| && forall i | 0 <= i < |t| :: u[i] == if 97 <= t[i] <= 122 then t[i] - 32 else t[i]
  }

  /** A bulk string as a client writes it. */
  ghost predicate IsBulk(b: Bytes, text: Text) {
    exists d :: AreDigits(d) && ValueOf(d) == |text| <= MAX_SAFE && b == [36] + d + [13, 10] + text + [13, 10]
  }

  lemma {:induction false} BulkInverts(b: Bytes, text: Text)
    requires IsBulk(b, text)
    ensures Inverts(Resp.Read, Resp.Bulk(text), b)
  {
    hide Resp.Read, ValueOf;
    var d :| AreDigits(d) && ValueOf(d) == |text| <= MAX_SAFE && b == [36] + d + [13, 10] + text + [13, 10];
    forall rest ensures Undoes(Resp.Read, Resp.Bulk(text), b, rest) {
      BulkIs(d, text, [13, 10], rest);
    }
  }

  /** `*n` and n bulk strings: the recorder takes the first for the verb, in capitals, and the others for arguments. */
  lemma {:induction false} CommandIs(d: Bytes, parts: seq<Bytes>, words: seq<Text>)
    requires AreDigits(d) && ValueOf(d) == |parts| == |words| <= MAX_SAFE && words != []
    requires forall i | 0 <= i < |words| :: IsBulk(parts[i], words[i])
    ensures var commands := CommandsIn(Parse(Resp.Read, [42] + d + [13, 10] + Concat(parts)).values);
            |commands| == 1 && IsUpperOf(commands[0].verb, words[0]) && commands[0].args == words[1..]
  {
    hide Resp.Read, IsBulk, ValueOf, Resp.Upper, Resp.ToCommand;
    var value, b := Resp.BulkArray(words), [42] + d + [13, 10] + Concat(parts);
    forall i | 0 <= i < |words| ensures Inverts(Resp.Read, value.items[i], parts[i]) {
      BulkInverts(parts[i], words[i]);
    }
    ArrayIs(d, parts, value.items, []);
    assert b + [] == b && b[|b|..] == [];
    LineWaits([]);
    assert Parse(Resp.Read, []) == Parsed([], []);
    assert Parse(Resp.Read, b) == Parsed([value], []);
    Resp.CommandOfBulkArray(words);
    assert [value][1..] == [];
    UpperIs(words[0]);
  }

  lemma {:induction false} UpperIs(t: Text)
    ensures IsUpperOf(Resp.Upper(t), t)
  {
  }

  function TextOf(value: Resp.Value): Text {
    if value.Bulk? || value.Simple? then value.text else []
  }

  /** Any array with items is a command, parts that are no strings counting as empty; other replies are none. */
  lemma {:induction false} OtherCommands(items: seq<Resp.Value>, value: Resp.Value)
    ensures items != [] ==>
              var c := Resp.ToCommand(Resp.Array(items));
              && c.Some? && |c.value.args| == |items| - 1 && IsUpperOf(c.value.verb, TextOf(items[0]))
              && forall i | 0 < i < |items| :: c.value.args[i - 1] == TextOf(items[i])
    ensures (!value.Array? && !value.Simple?) || value == Resp.Array([]) ==> Resp.ToCommand(value).None?
  {
  }

  /** A word holds no tab, line feed, vertical tab, form feed, carriage return or space. */
  predicate IsPlain(word: Text) {
    word != [] && forall i | 0 <= i < |word| :: word[i] !in {9, 10, 11, 12, 13, 32}
  }

  /** Words with a space between them. */
  function Spaced(words: seq<Text>): Text {
    if words == [] then []
    else if |words| == 1 then words[0]
    else words[0] + [32] + Spaced(words[1..])
  }

  lemma {:induction false} SpacedIsJoin(words: seq<Text>)
    ensures Spaced(words) == Words.Join(words)
  {
    if |words| > 1 {
      SpacedIsJoin(words[1..]);
    }
  }

  /** A bare line of words is the command a terminal sends; a blank line is none. */
  lemma {:induction false} InlineIs(words: seq<Text>)
    requires forall i | 0 <= i < |words| :: IsPlain(words[i])
    ensures var c := Resp.ToCommand(Resp.Simple(Spaced(words)));
            if words == [] then c.None?
            else c.Some? && IsUpperOf(c.value.verb, words[0]) && c.value.args == words[1..]
  {
    SpacedIsJoin(words);
    forall i | 0 <= i < |words| ensures Words.IsWord(words[i]) {
      assert IsPlain(words[i]);
    }
    Words.WordsOfJoin(words);
    if words != [] {
      UpperIs(words[0]);
    }
  }

  // ----- the recording -----

  /** A reply is stored under the name of its kind, with its text, its number, its items, or null. */
  lemma {:induction false} StoredAs(text: Text, n: Decimal.JsInteger, items: seq<Resp.Value>)
    ensures Resp.Describe(Resp.Simple(text)) == Resp.Stored("simple", Resp.String(text))
    ensures Resp.Describe(Resp.Error(text)) == Resp.Stored("error", Resp.String(text))
    ensures Resp.Describe(Resp.Integer(n)) == Resp.Stored("integer", Resp.Number(n))
    ensures Resp.Describe(Resp.Bulk(text)) == Resp.Stored("bulk", Resp.String(text))
    ensures Resp.Describe(Resp.NullBulk) == Resp.Stored("bulk", Resp.Null)
    ensures Resp.Describe(Resp.NullArray) == Resp.Stored("array", Resp.Null)
    ensures Resp.Describe(Resp.Unsupported(text)) == Resp.Stored("unsupported", Resp.String(text))
    ensures var stored := Resp.Describe(Resp.Array(items));
            && stored.kind == "array" && stored.value.List? && |stored.value.items| == |items|
            && forall i | 0 <= i < |items| :: stored.value.items[i] == Resp.Describe(items[i])
  {
    forall i | 0 <= i < |items| ensures Resp.DescribeAll(items)[i] == Resp.Describe(items[i]) {
      StoredItem(items, i);
    }
  }

  lemma {:induction false} StoredItem(items: seq<Resp.Value>, i: nat)
    requires i < |items|
    ensures Resp.DescribeAll(items)[i] == Resp.Describe(items[i])
    decreases |items|
  {
    hide Resp.Describe;
    if i > 0 {
      StoredItem(items[1..], i - 1);
    }
  }
}
