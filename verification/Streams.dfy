/**
 * Reading framed values out of a byte stream that arrives in chunks.
 *
 * Every recorder and replay server keeps the undecoded bytes of its stream, appends each chunk, reads as many whole
 * values as it can and keeps what is left. This module states that loop once, over any reader, and proves that
 * where the chunks are cut does not matter.
 */
module Streams {
  import opened Wire

  /**
   * One attempt to read a value at the front of a buffer. Partial: more bytes are needed.
   * Foreign: the source throws or leaves the modelled domain on these bytes.
   */
  datatype Outcome<+V> = Partial | Done(value: V, bytes: nat) | Foreign

  type Reader<+V> = Bytes -> Outcome<V>

  datatype Parsed<+V> = Parsed(values: seq<V>, rest: Bytes)

  /** The read loop: whole values from the front, and the bytes left over. */
  function Parse<V>(read: Reader<V>, b: Bytes): (p: Parsed<V>)
    ensures |p.rest| <= |b|
    decreases |b|
  {
    match read(b)
    case Done(v, n) =>
      if 0 < n <= |b| then
        var p := Parse(read, b[n..]);
        Parsed([v] + p.values, p.rest)
      else
        Parsed([], b)
    case _ => Parsed([], b)
  }

  /** A finished read took bytes that were there and is not changed by what arrives later. */
  ghost predicate Settled<V>(read: Reader<V>, b: Bytes, more: Bytes) {
    read(b).Done? ==> 0 < read(b).bytes <= |b| && read(b + more) == read(b)
  }

  ghost predicate Stable<V(!new)>(read: Reader<V>) {
    forall b, more :: Settled(read, b, more)
  }

  /** Reading `a + b` at once gives the values of reading `a`, then `b` after what `a` left over. */
  lemma {:induction false} ParseSplit<V(!new)>(read: Reader<V>, a: Bytes, b: Bytes)
    requires Stable(read)
    ensures var p := Parse(read, a);
            var q := Parse(read, p.rest + b);
            Parse(read, a + b) == Parsed(p.values + q.values, q.rest)
    decreases |a|
  {
    if read(a).Done? {
      var v, n := read(a).value, read(a).bytes;
      assert Settled(read, a, b);
      assert (a + b)[n..] == a[n..] + b;
      ParseSplit(read, a[n..], b);
      var p := Parse(read, a[n..]);
      var q := Parse(read, p.rest + b);
      assert [v] + (p.values + q.values) == ([v] + p.values) + q.values;
    } else {
      var q := Parse(read, a + b);
      assert [] + q.values == q.values;
    }
  }

  /** The leftover holds no whole value, so reading it again finds nothing. */
  lemma {:induction false} ParseRest<V(!new)>(read: Reader<V>, b: Bytes)
    requires Stable(read)
    ensures Parse(read, Parse(read, b).rest) == Parsed([], Parse(read, b).rest)
    decreases |b|
  {
    if read(b).Done? {
      assert Settled(read, b, []);
      ParseRest(read, b[read(b).bytes..]);
    }
  }

  /** A writer undone by a reader: reading what was written, whatever follows, gives the value and its exact size. */
  ghost predicate Undoes<V>(read: Reader<V>, v: V, written: Bytes, rest: Bytes) {
    0 < |written| && read(written + rest) == Done(v, |written|)
  }

  ghost predicate Inverts<V>(read: Reader<V>, v: V, written: Bytes) {
    forall rest :: Undoes(read, v, written, rest)
  }

  /** A stream of written values reads back as exactly those values, with nothing left over. */
  lemma {:induction false} ParseWritten<V(!new)>(read: Reader<V>, values: seq<V>, written: seq<Bytes>)
    requires |values| == |written|
    requires forall i | 0 <= i < |values| :: Inverts(read, values[i], written[i])
    requires !read([]).Done?
    ensures Parse(read, Concat(written)) == Parsed(values, [])
    decreases |values|
  {
    if values != [] {
      var n := |written[0]|;
      var b := Concat(written);
      assert Inverts(read, values[0], written[0]);
      assert Undoes(read, values[0], written[0], Concat(written[1..]));
      assert b[n..] == Concat(written[1..]);
      ParseWritten(read, values[1..], written[1..]);
      assert [values[0]] + values[1..] == values;
    }
  }

  /** No proper prefix of a written value is read as a value. */
  lemma {:induction false} NoProperPrefix<V(!new)>(read: Reader<V>, v: V, written: Bytes, k: nat)
    requires Stable(read) && Inverts(read, v, written) && k < |written|
    ensures !read(written[..k]).Done?
  {
    assert written[..k] + written[k..] == written + [];
    assert Settled(read, written[..k], written[k..]) && Undoes(read, v, written, []);
  }

  // ----- handling the values -----

  function Fold<S, V>(step: (S, V) -> S, s: S, values: seq<V>): S
    decreases |values|
  {
    if values == [] then s else Fold(step, step(s, values[0]), values[1..])
  }

  lemma {:induction false} FoldAppend<S, V>(step: (S, V) -> S, s: S, xs: seq<V>, ys: seq<V>)
    ensures Fold(step, s, xs + ys) == Fold(step, Fold(step, s, xs), ys)
    decreases |xs|
  {
    if xs == [] {
      assert xs + ys == ys;
    } else {
      assert (xs + ys)[1..] == xs[1..] + ys;
      FoldAppend(step, step(s, xs[0]), xs[1..], ys);
    }
  }

  /** One direction of a connection: the bytes not yet decoded, and what the decoded values built up. */
  datatype Lane<+S> = Lane(buffered: Bytes, state: S)

  /** Where reading `b` to its end takes state `s`. */
  function Finish<S, V>(read: Reader<V>, step: (S, V) -> S, s: S, b: Bytes): Lane<S> {
    var p := Parse(read, b);
    Lane(p.rest, Fold(step, s, p.values))
  }

  /** One turn of the read loop leaves the end unchanged; when nothing more can be read, that is the end. */
  lemma {:induction false} FinishStep<S, V>(read: Reader<V>, step: (S, V) -> S, s: S, b: Bytes)
    requires read(b).Done? ==> 0 < read(b).bytes <= |b|
    ensures Finish(read, step, s, b) ==
            match read(b)
            case Done(v, n) => Finish(read, step, step(s, v), b[n..])
            case _ => Lane(b, s)
  {
  }

  function Feed<S, V>(read: Reader<V>, step: (S, V) -> S, lane: Lane<S>, chunk: Bytes): Lane<S> {
    Finish(read, step, lane.state, lane.buffered + chunk)
  }

  function FeedAll<S, V>(read: Reader<V>, step: (S, V) -> S, lane: Lane<S>, chunks: seq<Bytes>): Lane<S>
    decreases |chunks|
  {
    if chunks == [] then lane else FeedAll(read, step, Feed(read, step, lane, chunks[0]), chunks[1..])
  }

  /** Delivering `a + b` as one chunk or as two leaves the same buffer and the same state. */
  lemma {:induction false} FeedSplit<S, V(!new)>(read: Reader<V>, step: (S, V) -> S, lane: Lane<S>, a: Bytes, b: Bytes)
    requires Stable(read)
    ensures Feed(read, step, lane, a + b) == Feed(read, step, Feed(read, step, lane, a), b)
  {
    assert lane.buffered + (a + b) == (lane.buffered + a) + b;
    ParseSplit(read, lane.buffered + a, b);
    var p := Parse(read, lane.buffered + a);
    FoldAppend(step, lane.state, p.values, Parse(read, p.rest + b).values);
  }

  /** However a stream is cut into chunks, a connection that starts empty ends where the whole stream takes it. */
  lemma {:induction false} FeedAnyChunks<S, V(!new)>(read: Reader<V>, step: (S, V) -> S, lane: Lane<S>,
          chunks: seq<Bytes>)
    requires Stable(read)
    requires Parse(read, lane.buffered) == Parsed([], lane.buffered)
    ensures FeedAll(read, step, lane, chunks) == Feed(read, step, lane, Concat(chunks))
    decreases |chunks|
  {
    if chunks == [] {
      assert lane.buffered + [] == lane.buffered;
    } else {
      var next := Feed(read, step, lane, chunks[0]);
      ParseRest(read, lane.buffered + chunks[0]);
      FeedAnyChunks(read, step, next, chunks[1..]);
      FeedSplit(read, step, lane, chunks[0], Concat(chunks[1..]));
    }
  }
}
