/**
 * The JSON file between a MongoDB recording and its replay: `writeDependencies` of src/record/session.ts.
 *
 * Objects, texts and lists come back as they were. JSON has no infinities, no NaN and no negative zero.
 */
module MongoStored {
  import opened Wire
  import opened Documents
  import Decimal
  import Doubles

  predicate IsInfinite(n: Doubles.JsNumber) {
    n.Float? && n.bits / Doubles.TWO52 % 2048 == 2047
  }

  function StoredNumber(n: Doubles.JsNumber): Value {
    if n.NotANumber? || IsInfinite(n) then Null
    else if n.NegativeZero? then Num(Doubles.Int(0))
    else Num(n)
  }

  /** `JSON.parse(JSON.stringify(v))`. */
  function Stored(v: Value): Value
    decreases v
  {
    match v
    case Num(n) => StoredNumber(n)
    case Arr(items) => Arr(StoredItems(items))
    case Doc(entries) => Doc(StoredDocument(entries))
    case _ => v
  }

  function StoredItems(items: seq<Value>): (s: seq<Value>)
    ensures |s| == |items|
    decreases items
  {
    if items == [] then [] else [Stored(items[0])] + StoredItems(items[1..])
  }

  function StoredDocument(d: Document): (s: Document)
    ensures |s| == |d| && forall i | 0 <= i < |d| :: s[i].key == d[i].key
    decreases d
  {
    if d == [] then [] else [Entry(d[0].key, Stored(d[0].value))] + StoredDocument(d[1..])
  }

  // ----- looking into a stored object -----

  lemma {:induction false} StoredAt(d: Document, i: nat)
    requires i < |d|
    ensures StoredDocument(d)[i].value == Stored(d[i].value)
    decreases |d|
  {
    hide Stored;
    if i > 0 {
      StoredAt(d[1..], i - 1);
    }
  }

  /** Where a key is found depends on the keys alone. */
  lemma {:induction false} FoundAlike(d: Document, e: Document, key: Text)
    requires |d| == |e| && forall i | 0 <= i < |d| :: d[i].key == e[i].key
    ensures Find(d, key) == Find(e, key)
    decreases |d|
  {
    if d != [] {
      FoundAlike(d[..|d| - 1], e[..|e| - 1], key);
    }
  }

  lemma {:induction false} StoredText(d: Document, key: Text)
    ensures TextAt(StoredDocument(d), key) == TextAt(d, key)
  {
    FoundAlike(StoredDocument(d), d, key);
    hide Find, StoredDocument;
    if Find(d, key).Some? {
      StoredAt(d, Find(d, key).value);
    }
  }

  lemma {:induction false} StoredWrapper(d: Document)
    ensures WrappedText(StoredDocument(d)) == WrappedText(d)
  {
    hide TextAt;
    StoredText(d, TYPE_KEY);
    StoredText(d, VALUE_KEY);
  }

  // ----- what lasts -----

  /** What storing, writing and reading leave alone: canonical values without NaN and infinities, at any depth. */
  predicate Lasts(v: Value)
    decreases v
  {
    match v
    case Num(n) => !n.NegativeZero? && !n.NotANumber? && !IsInfinite(n)
    case Long(n) => !Decimal.IsSafe(n)
    case Other(_, _) => false
    case Arr(items) => forall i | 0 <= i < |items| :: Lasts(items[i])
    case Doc(entries) => WrappedText(entries).None? && LastsDocument(entries)
    case _ => true
  }

  predicate LastsDocument(d: Document)
    decreases d
  {
    forall i | 0 <= i < |d| :: Lasts(d[i].value)
  }

  /** A value comes back from the file and over the wire as it was exactly when it lasts. */
  lemma {:induction false} LastsExactly(v: Value)
    ensures Canon(Stored(v)) == v <==> Lasts(v)
    decreases v
  {
    hide WrappedText;
    match v
    case Arr(items) => ItemsLast(items);
    case Doc(entries) =>
      StoredWrapper(entries);
      DocumentLasts(entries);
    case _ =>
  }

  lemma {:induction false} ItemsLast(items: seq<Value>)
    ensures CanonItems(StoredItems(items)) == items <==> forall i | 0 <= i < |items| :: Lasts(items[i])
    decreases items
  {
    hide Canon, Stored, Lasts;
    if items != [] {
      LastsExactly(items[0]);
      ItemsLast(items[1..]);
      assert items == [items[0]] + items[1..];
      var s := StoredItems(items);
      assert s[1..] == StoredItems(items[1..]) && CanonItems(s) == [Canon(s[0])] + CanonItems(s[1..]);
    }
  }

  lemma {:induction false} DocumentLasts(d: Document)
    ensures CanonDocument(StoredDocument(d)) == d <==> LastsDocument(d)
    decreases d
  {
    hide Canon, Stored, Lasts;
    if d != [] {
      LastsExactly(d[0].value);
      DocumentLasts(d[1..]);
      assert d == [d[0]] + d[1..];
      var s := StoredDocument(d);
      assert s[1..] == StoredDocument(d[1..]);
      assert CanonDocument(s) == [Entry(s[0].key, Canon(s[0].value))] + CanonDocument(s[1..]);
    }
  }

  // ----- what JSON can hold -----

  /** No NaN, no infinity and no negative zero, at any depth. */
  predicate IsJson(v: Value)
    decreases v
  {
    match v
    case Num(n) =>
      && n != Doubles.NotANumber && n != Doubles.NegativeZero
      && n != Doubles.Float(0x7ff0_0000_0000_0000) && n != Doubles.Float(0xfff0_0000_0000_0000)
    case Arr(items) => forall i | 0 <= i < |items| :: IsJson(items[i])
    case Doc(entries) => forall i | 0 <= i < |entries| :: IsJson(entries[i].value)
    case _ => true
  }

  lemma {:induction false} Infinities(n: Doubles.JsNumber)
    requires Doubles.IsNumber(n)
    ensures IsInfinite(n) <==> n == Doubles.Float(0x7ff0_0000_0000_0000) || n == Doubles.Float(0xfff0_0000_0000_0000)
  {
    if n.Float? && n.bits / Doubles.TWO52 % 2048 == 2047 {
      assert n.bits % Doubles.TWO52 == 0;
      assert n.bits == n.bits / Doubles.TWO52 * Doubles.TWO52;
      assert n.bits / Doubles.TWO52 == 2047 || n.bits / Doubles.TWO52 == 4095;
    }
  }

  /** Numbers in their one representation, at any depth. */
  predicate HasNumbers(v: Value)
    decreases v
  {
    match v
    case Num(n) => Doubles.IsNumber(n)
    case Arr(items) => forall i | 0 <= i < |items| :: HasNumbers(items[i])
    case Doc(entries) => forall i | 0 <= i < |entries| :: HasNumbers(entries[i].value)
    case _ => true
  }

  /** What was stored is JSON; JSON values are stored as they are; NaN and infinities become null and -0 zero. */
  lemma {:induction false} StoredIsJson(v: Value)
    requires HasNumbers(v)
    ensures IsJson(Stored(v)) && (IsJson(v) ==> Stored(v) == v)
    ensures v.Num? && !IsJson(v) ==> Stored(v) == if v.n == Doubles.NegativeZero then Num(Doubles.Int(0)) else Null
    decreases v
  {
    match v
    case Num(n) => Infinities(n);
    case Arr(items) =>
      forall i | 0 <= i < |items|
        ensures StoredItems(items)[i] == Stored(items[i])
        ensures IsJson(Stored(items[i])) && (IsJson(items[i]) ==> Stored(items[i]) == items[i])
      {
        StoredItemAt(items, i);
        StoredIsJson(items[i]);
      }
    case Doc(entries) =>
      forall i | 0 <= i < |entries|
        ensures StoredDocument(entries)[i].value == Stored(entries[i].value)
        ensures IsJson(Stored(entries[i].value))
        ensures IsJson(entries[i].value) ==> Stored(entries[i].value) == entries[i].value
      {
        StoredAt(entries, i);
        StoredIsJson(entries[i].value);
      }
    case _ =>
  }

  lemma {:induction false} StoredItemAt(items: seq<Value>, i: nat)
    requires i < |items|
    ensures StoredItems(items)[i] == Stored(items[i])
    decreases |items|
  {
    hide Stored;
    if i > 0 {
      StoredItemAt(items[1..], i - 1);
    }
  }
}
