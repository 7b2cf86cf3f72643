/**
 * BSON values as JavaScript holds them, and the order of an object's keys.
 *
 * An object lists its array indices first, in ascending order, and then its other keys in the order they were added.
 */
module Documents {
  import opened Wire
  import Decimal
  import Doubles

  /** A decoded value. The last five are tagged wrappers: objects whose own `$type` names what they hold. */
  datatype Value =
    | Null
    | Bool(b: bool)
    | Num(n: Doubles.JsNumber)
    | Str(text: Text)
    | Arr(items: seq<Value>)
    | Doc(entries: Document)
    | ObjectId(id: Bytes)
    | Binary(bytes: Bytes)
    | Date(ms: int)
    | Long(value: int)
    | Other(kind: Text, shown: Text)

  datatype Entry = Entry(key: Text, value: Value)

  type Document = seq<Entry>

  // ----- array indices -----

  const MAX_INDEX := 0xffff_ffff

  /** A key that is an array index: the decimal form of a number below 2^32 - 1. */
  predicate IsIndex(key: Text) {
    && key != [] && Decimal.IsDigits(key)
    && Decimal.Magnitude(key) < MAX_INDEX && key == Decimal.Digits(Decimal.Magnitude(key))
  }

  function IndexOf(key: Text): nat
    requires IsIndex(key)
  {
    Decimal.Magnitude(key)
  }

  lemma {:induction false} DigitsAreIndex(n: nat)
    requires n < MAX_INDEX
    ensures IsIndex(Decimal.Digits(n)) && IndexOf(Decimal.Digits(n)) == n
  {
    Decimal.MagnitudeOfDigits(n);
  }

  /** `a` comes before `b` whatever the order they are added in. */
  predicate Precedes(a: Text, b: Text) {
    IsIndex(a) && IsIndex(b) && IndexOf(a) < IndexOf(b)
  }

  // ----- objects -----

  /** An order of entries a JavaScript object can have. */
  predicate IsObject(d: Document) {
    && (forall i, j | 0 <= i < j < |d| :: d[i].key != d[j].key)
    && (forall i, j | 0 <= i < j < |d| :: IsIndex(d[j].key) ==> Precedes(d[i].key, d[j].key))
  }

  function Find(d: Document, key: Text): (at: Option<nat>)
    ensures at.Some? ==> at.value < |d| && d[at.value].key == key
    ensures at.None? <==> forall i | 0 <= i < |d| :: d[i].key != key
    decreases |d|
  {
    if d == [] then None
    else if d[|d| - 1].key == key then Some(|d| - 1)
    else Find(d[..|d| - 1], key)
  }

  /** Where a new key goes: an index before the first key that is not a smaller index, any other key at the end. */
  function Place(d: Document, key: Text): (at: nat)
    ensures at <= |d|
    ensures forall i | 0 <= i < at :: !IsIndex(key) || Precedes(d[i].key, key)
    ensures at < |d| ==> IsIndex(key) && !Precedes(d[at].key, key)
    decreases |d|
  {
    if !IsIndex(key) then |d|
    else if d == [] || !Precedes(d[0].key, key) then 0
    else 1 + Place(d[1..], key)
  }

  /** `document[key] = value`. */
  function Put(d: Document, key: Text, value: Value): Document {
    match Find(d, key)
    case Some(at) => d[at := Entry(key, value)]
    case None =>
      var at := Place(d, key);
      d[..at] + [Entry(key, value)] + d[at..]
  }

  /** `{ ...d, ...more }`. */
  function Merge(d: Document, more: Document): Document
    decreases |more|
  {
    if more == [] then d else Merge(Put(d, more[0].key, more[0].value), more[1..])
  }

  /** Assignment keeps an object's order. */
  lemma {:induction false} PutIsObject(d: Document, key: Text, value: Value)
    requires IsObject(d)
    ensures IsObject(Put(d, key, value))
  {
    hide Find, Place, IsIndex;
    if Find(d, key).None? {
      var at := Place(d, key);
      forall j | at <= j < |d| ensures IsIndex(d[j].key) ==> Precedes(key, d[j].key) {
        AfterPlace(d, key, at, j);
      }
      Inserted(d, at, Entry(key, value));
    } else {
      var at := Find(d, key).value;
      forall i | 0 <= i < |d| ensures Put(d, key, value)[i].key == d[i].key {
      }
    }
  }

  lemma {:induction false} Inserted(d: Document, at: nat, e: Entry)
    requires IsObject(d) && at <= |d| && forall i | 0 <= i < |d| :: d[i].key != e.key
    requires forall i | 0 <= i < at :: IsIndex(e.key) ==> Precedes(d[i].key, e.key)
    requires forall j | at <= j < |d| :: IsIndex(d[j].key) ==> Precedes(e.key, d[j].key)
    ensures IsObject(d[..at] + [e] + d[at..])
  {
    hide IsIndex, Precedes;
    var p := d[..at] + [e] + d[at..];
    forall j | 0 <= j < |p|
      ensures p[j] == if j < at then d[j] else if j == at then e else d[j - 1]
    {
    }
  }

  lemma {:induction false} AfterPlace(d: Document, key: Text, at: nat, j: nat)
    requires IsObject(d) && (forall i | 0 <= i < |d| :: d[i].key != key)
    requires at <= j < |d| && IsIndex(key) && !Precedes(d[at].key, key)
    ensures IsIndex(d[j].key) ==> Precedes(key, d[j].key)
  {
  }

  lemma {:induction false} MergeIsObject(d: Document, more: Document)
    requires IsObject(d)
    ensures IsObject(Merge(d, more))
    decreases |more|
  {
    if more != [] {
      PutIsObject(d, more[0].key, more[0].value);
      MergeIsObject(Put(d, more[0].key, more[0].value), more[1..]);
    }
  }

  // ----- what assignment and spreading hold -----

  predicate HasKey(d: Document, key: Text) {
    exists i :: 0 <= i < |d| && d[i].key == key
  }

  function Without(d: Document, key: Text): Document {
    if d == [] then []
    else if d[0].key == key then Without(d[1..], key)
    else [d[0]] + Without(d[1..], key)
  }

  lemma {:induction false} WithoutAppend(a: Document, b: Document, key: Text)
    ensures Without(a + b, key) == Without(a, key) + Without(b, key)
    decreases |a|
  {
    if a == [] {
      assert a + b == b;
    } else {
      assert (a + b)[1..] == a[1..] + b;
      WithoutAppend(a[1..], b, key);
    }
  }

  lemma {:induction false} WithoutOne(a: Document, e: Entry, b: Document)
    ensures Without(a + [e] + b, e.key) == Without(a + b, e.key)
  {
    WithoutAppend(a + [e], b, e.key);
    WithoutAppend(a, [e], e.key);
    WithoutAppend(a, b, e.key);
    assert Without([e], e.key) == [];
  }

  /** Assignment gives the key the value, there once, and leaves every other entry, in its order. */
  lemma {:induction false} PutIs(d: Document, key: Text, value: Value)
    requires IsObject(d)
    ensures var p := Put(d, key, value);
            && |p| == |d| + (if HasKey(d, key) then 0 else 1)
            && (forall e: Entry :: e in p <==> if e.key == key then e.value == value else e in d)
            && Without(p, key) == Without(d, key)
  {
    hide IsIndex, Precedes, Find, Place, Without;
    var e, p := Entry(key, value), Put(d, key, value);
    if Find(d, key).None? {
      var at := Place(d, key);
      WithoutOne(d[..at], e, d[at..]);
      assert d[..at] + d[at..] == d && p == d[..at] + [e] + d[at..];
      assert forall x: Entry :: x in d <==> x in d[..at] || x in d[at..];
    } else {
      var at := Find(d, key).value;
      WithoutOne(d[..at], e, d[at + 1..]);
      WithoutOne(d[..at], d[at], d[at + 1..]);
      assert p == d[..at] + [e] + d[at + 1..] && d == d[..at] + [d[at]] + d[at + 1..];
      assert forall x: Entry :: x in d <==> x in d[..at] || x == d[at] || x in d[at + 1..];
      assert forall x: Entry | x in d[..at] || x in d[at + 1..] :: x.key != key;
    }
  }

  /** After spreading, a key has the value it has in `more` if it is there, and else the one it had. */
  lemma {:induction false} MergeIs(d: Document, more: Document, e: Entry)
    requires IsObject(d) && IsObject(more)
    ensures e in Merge(d, more) <==> e in more || (!HasKey(more, e.key) && e in d)
    decreases |more|
  {
    hide Put, IsObject, Without;
    if more != [] {
      var first, rest := more[0], more[1..];
      Tail(more);
      PutIsObject(d, first.key, first.value);
      PutIs(d, first.key, first.value);
      MergeIs(Put(d, first.key, first.value), rest, e);
      assert more == [first] + rest;
    }
  }

  lemma {:induction false} Tail(d: Document)
    requires IsObject(d) && d != []
    ensures IsObject(d[1..]) && !HasKey(d[1..], d[0].key)
    ensures forall key :: HasKey(d, key) <==> key == d[0].key || HasKey(d[1..], key)
    ensures forall e: Entry | e in d && e.key == d[0].key :: e == d[0]
  {
    var rest := d[1..];
    forall i | 0 <= i < |rest| ensures rest[i] == d[i + 1] {
    }
    forall key ensures HasKey(d, key) <==> key == d[0].key || HasKey(rest, key) {
      if HasKey(rest, key) {
        var i :| 0 <= i < |rest| && rest[i].key == key;
        assert d[i + 1].key == key;
      }
    }
  }

  /** Adding keys in an object's own order only ever appends. */
  lemma {:induction false} PutAppends(d: Document, e: Entry)
    requires IsObject(d + [e])
    ensures Put(d, e.key, e.value) == d + [e]
  {
    var whole := d + [e];
    assert whole[|d|] == e;
    forall i | 0 <= i < |d| ensures d[i].key != e.key && (IsIndex(e.key) ==> Precedes(d[i].key, e.key)) {
      assert whole[i] == d[i];
    }
  }

  lemma {:induction false} MergeAppends(d: Document, more: Document)
    requires IsObject(d + more)
    ensures Merge(d, more) == d + more
    decreases |more|
  {
    if more == [] {
      assert d + more == d;
    } else {
      assert d + more == (d + [more[0]]) + more[1..];
      ObjectPrefix(d + [more[0]], more[1..]);
      PutAppends(d, more[0]);
      MergeAppends(d + [more[0]], more[1..]);
    }
  }

  lemma {:induction false} ObjectPrefix(d: Document, more: Document)
    requires IsObject(d + more)
    ensures IsObject(d)
  {
    forall i | 0 <= i < |d| ensures (d + more)[i] == d[i] {
    }
  }

  // ----- tagged wrappers -----

  const TYPE_KEY: Text := Ascii("$type")
  const VALUE_KEY: Text := Ascii("value")

  /** The tags that have a writer of their own. */
  const TAGS := {Ascii("objectId"), Ascii("date"), Ascii("long"), Ascii("binary")}

  function TextAt(d: Document, key: Text): Option<Text> {
    match Find(d, key)
    case None => None
    case Some(at) => if d[at].value.Str? then Some(d[at].value.text) else None
  }

  /** Inside a document, an object whose own `$type` key holds text is taken for a tagged wrapper. */
  predicate LooksTagged(d: Document) {
    TextAt(d, TYPE_KEY).Some?
  }

  /** What is kept of such an object when its `$type` is none of the four tags: the text under `value`. */
  function WrappedText(d: Document): Option<Text> {
    var kind := TextAt(d, TYPE_KEY);
    if kind.None? || kind.value in TAGS then None else TextAt(d, VALUE_KEY)
  }

  // ----- canonical values -----

  /**
   * What a value inside a document comes back as after being written and read: a long a number can hold is that number,
   * negative zero is zero, a tag with no writer of its own (a regular expression, a decimal) is its text, and so is an
   * object that looks like one.
   */
  function Canon(v: Value): (c: Value)
    decreases v
  {
    match v
    case Num(NegativeZero) => Num(Doubles.Int(0))
    case Long(n) => if Decimal.IsSafe(n) then Num(Doubles.Int(n)) else v
    case Other(_, shown) => Str(shown)
    case Arr(items) => Arr(CanonItems(items))
    case Doc(entries) =>
      (match WrappedText(entries)
       case Some(text) => Str(text)
       case None => Doc(CanonDocument(entries)))
    case _ => v
  }

  function CanonItems(items: seq<Value>): (c: seq<Value>)
    ensures |c| == |items|
    decreases items
  {
    if items == [] then [] else [Canon(items[0])] + CanonItems(items[1..])
  }

  function CanonDocument(d: Document): (c: Document)
    ensures |c| == |d| && forall i | 0 <= i < |d| :: c[i].key == d[i].key
    decreases d
  {
    if d == [] then [] else [Entry(d[0].key, Canon(d[0].value))] + CanonDocument(d[1..])
  }

  /**
   * The values writing and reading leave alone: no negative zero, no long a number can hold, no other tag and no object
   * that looks like one, at any depth.
   */
  predicate IsCanonical(v: Value)
    decreases v
  {
    match v
    case Num(n) => !n.NegativeZero?
    case Long(n) => !Decimal.IsSafe(n)
    case Other(_, _) => false
    case Arr(items) => forall i | 0 <= i < |items| :: IsCanonical(items[i])
    case Doc(entries) => WrappedText(entries).None? && IsCanonicalDocument(entries)
    case _ => true
  }

  /** A whole document is written as it is, whatever its own `$type`. */
  predicate IsCanonicalDocument(d: Document)
    decreases d
  {
    forall i | 0 <= i < |d| :: IsCanonical(d[i].value)
  }

  lemma {:induction false} CanonIsIdentity(v: Value)
    ensures Canon(v) == v <==> IsCanonical(v)
    decreases v
  {
    match v
    case Arr(items) => CanonItemsIsIdentity(items);
    case Doc(entries) => CanonDocumentIsIdentity(entries);
    case _ =>
  }

  lemma {:induction false} CanonItemsIsIdentity(items: seq<Value>)
    ensures CanonItems(items) == items <==> forall i | 0 <= i < |items| :: IsCanonical(items[i])
    decreases items
  {
    if items != [] {
      CanonIsIdentity(items[0]);
      CanonItemsIsIdentity(items[1..]);
      assert items == [items[0]] + items[1..];
      assert CanonItems(items)[1..] == CanonItems(items[1..]);
    }
  }

  lemma {:induction false} CanonDocumentIsIdentity(d: Document)
    ensures CanonDocument(d) == d <==> IsCanonicalDocument(d)
    decreases d
  {
    if d != [] {
      CanonIsIdentity(d[0].value);
      CanonDocumentIsIdentity(d[1..]);
      assert d == [d[0]] + d[1..];
      assert CanonDocument(d)[1..] == CanonDocument(d[1..]);
    }
  }

  lemma {:induction false} CanonAt(d: Document, i: nat)
    requires i < |d|
    ensures CanonDocument(d)[i].value == Canon(d[i].value)
    decreases |d|
  {
    if i > 0 {
      CanonAt(d[1..], i - 1);
    }
  }

  lemma {:induction false} CanonItemAt(items: seq<Value>, i: nat)
    requires i < |items|
    ensures CanonItems(items)[i] == Canon(items[i])
    decreases |items|
  {
    if i > 0 {
      CanonItemAt(items[1..], i - 1);
    }
  }

  /** No object inside the value turns into one that looks like a wrapper when what it holds takes canonical form. */
  predicate Settles(v: Value)
    decreases v
  {
    match v
    case Arr(items) => forall i | 0 <= i < |items| :: Settles(items[i])
    case Doc(entries) =>
      WrappedText(entries).Some? || (WrappedText(CanonDocument(entries)).None? && SettlesDocument(entries))
    case _ => true
  }

  predicate SettlesDocument(d: Document)
    decreases d
  {
    forall i | 0 <= i < |d| :: Settles(d[i].value)
  }

  lemma {:induction false} SettledIsCanonical(v: Value)
    ensures IsCanonical(Canon(v)) <==> Settles(v)
    decreases v
  {
    hide WrappedText;
    match v
    case Arr(items) =>
      forall i | 0 <= i < |items| ensures IsCanonical(CanonItems(items)[i]) <==> Settles(items[i]) {
        CanonItemAt(items, i);
        SettledIsCanonical(items[i]);
      }
    case Doc(entries) => SettledDocumentIsCanonical(entries);
    case _ =>
  }

  lemma {:induction false} SettledDocumentIsCanonical(d: Document)
    ensures IsCanonicalDocument(CanonDocument(d)) <==> SettlesDocument(d)
    decreases d
  {
    hide Canon, IsCanonical, Settles;
    forall i | 0 <= i < |d| ensures IsCanonical(CanonDocument(d)[i].value) <==> Settles(d[i].value) {
      CanonAt(d, i);
      SettledIsCanonical(d[i].value);
    }
  }

  /** Writing and reading once more changes nothing exactly when the document settles the first time. */
  lemma {:induction false} CanonTwice(d: Document)
    ensures CanonDocument(CanonDocument(d)) == CanonDocument(d) <==> SettlesDocument(d)
  {
    SettledDocumentIsCanonical(d);
    CanonDocumentIsIdentity(CanonDocument(d));
  }

  /** The object `{ $type: kind, value: "y" }`. */
  function Lookalike(kind: Value): Document {
    [Entry(TYPE_KEY, kind), Entry(VALUE_KEY, Str(Ascii("y")))]
  }

  function Holding(v: Value): Document {
    [Entry(Ascii("a"), v)]
  }

  /** A regular expression under `$type` is written as text, and the next time its whole object is. */
  lemma {:induction false} WrittenTwice()
    ensures var d := Holding(Doc(Lookalike(Other(Ascii("regex"), Ascii("/x/")))));
            && CanonDocument(d) == Holding(Doc(Lookalike(Str(Ascii("/x/")))))
            && CanonDocument(CanonDocument(d)) == Holding(Str(Ascii("y")))
  {
    var regex, text := Other(Ascii("regex"), Ascii("/x/")), Str(Ascii("/x/"));
    LookalikeIsText(regex);
    LookalikeIsText(text);
    assert |Ascii("/x/")| == 3 && Ascii("/x/") !in TAGS;
    CanonOfTwo(Lookalike(regex)[0], Lookalike(regex)[1]);
    CanonOfOne(Doc(Lookalike(regex)));
    CanonOfOne(Doc(Lookalike(text)));
  }

  lemma {:induction false} LookalikeIsText(kind: Value)
    ensures WrappedText(Lookalike(kind)) ==
            if kind.Str? && kind.text !in TAGS then Some(Ascii("y")) else None
  {
    KeysDiffer();
    FindsFirst(Lookalike(kind)[0], Lookalike(kind)[1]);
  }

  lemma {:induction false} CanonOfOne(v: Value)
    ensures CanonDocument(Holding(v)) == Holding(Canon(v))
  {
    hide Canon;
  }

  lemma {:induction false} CanonOfTwo(a: Entry, b: Entry)
    ensures CanonDocument([a, b]) == [Entry(a.key, Canon(a.value)), Entry(b.key, Canon(b.value))]
  {
    hide Canon;
    assert [a, b][1..] == [b];
  }

  lemma {:induction false} KeysDiffer()
    ensures TYPE_KEY != VALUE_KEY
  {
    assert TYPE_KEY[0] == 36 && VALUE_KEY[0] == 118;
  }

  lemma {:induction false} FindsFirst(a: Entry, b: Entry)
    requires a.key != b.key
    ensures Find([a, b], a.key) == Some(0) && Find([a, b], b.key) == Some(1)
  {
    assert [a, b][..1] == [a];
  }

  lemma {:induction false} CanonKeepsOrder(d: Document)
    ensures IsObject(CanonDocument(d)) <==> IsObject(d)
  {
    hide IsIndex;
  }

  lemma {:induction false} CanonAppend(d: Document, more: Document)
    ensures CanonDocument(d + more) == CanonDocument(d) + CanonDocument(more)
    decreases |d|
  {
    if d == [] {
      assert d + more == more;
    } else {
      assert (d + more)[1..] == d[1..] + more;
      CanonAppend(d[1..], more);
    }
  }
}
