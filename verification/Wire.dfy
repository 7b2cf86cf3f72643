/** Bytes on a socket, and the fixed-width integers the wire protocols are built from. */
module Wire {
  type byte = b: int | 0 <= b < 256

  type Bytes = seq<byte>

  /** Text is its UTF-8 bytes: decoding and encoding valid UTF-8 undo each other. */
  type Text = Bytes

  datatype Option<+T> = None | Some(value: T)

  /** The bytes of an ASCII literal. */
  function Ascii(s: string): (t: Text)
    ensures |t| == |s|
  {
    seq(|s|, i requires 0 <= i < |s| => if s[i] as int < 128 then s[i] as int else 63)
  }

  function HexDigit(n: int): byte
    requires 0 <= n < 16
  {
    if n < 10 then 48 + n else 87 + n
  }

  function Min(a: int, b: int): int {
    if a <= b then a else b
  }

  /** `toString(start, end)` and `subarray`: both ends are clamped to the buffer. */
  function Slice(b: Bytes, start: nat, end: nat): (r: Bytes)
    ensures start <= end <= |b| ==> r == b[start..end]
  {
    if start <= Min(end, |b|) then b[start..Min(end, |b|)] else []
  }

  function Concat(chunks: seq<Bytes>): Bytes {
    if chunks == [] then [] else chunks[0] + Concat(chunks[1..])
  }

  lemma {:induction false} ConcatAppend(xs: seq<Bytes>, ys: seq<Bytes>)
    ensures Concat(xs + ys) == Concat(xs) + Concat(ys)
  {
    if xs == [] {
      assert xs + ys == ys;
    } else {
      assert (xs + ys)[1..] == xs[1..] + ys;
      ConcatAppend(xs[1..], ys);
    }
  }

  // ----- null-terminated texts -----

  /** Index of the first zero byte at or after `offset`. */
  function ZeroAt(b: Bytes, offset: nat): (end: Option<nat>)
    ensures end.Some? ==> offset <= end.value < |b|
    decreases |b| - offset
  {
    if offset >= |b| then None
    else if b[offset] == 0 then Some(offset)
    else ZeroAt(b, offset + 1)
  }

  /** A text a null terminator can end. */
  predicate NoZero(t: Text) {
    forall i | 0 <= i < |t| :: t[i] != 0
  }

  lemma {:induction false} ZeroAtIs(b: Bytes, offset: nat, end: nat)
    requires offset <= end < |b| && b[end] == 0 && forall i | offset <= i < end :: b[i] != 0
    ensures ZeroAt(b, offset) == Some(end)
    decreases end - offset
  {
    if offset < end {
      ZeroAtIs(b, offset + 1, end);
    }
  }

  // ----- fixed-width integers -----

  predicate FitsInt16(n: int) { -0x8000 <= n < 0x8000 }

  predicate FitsInt32(n: int) { -0x8000_0000 <= n < 0x8000_0000 }

  predicate FitsInt64(n: int) { -0x8000_0000_0000_0000 <= n < 0x8000_0000_0000_0000 }

  /** Two's complement: the unsigned value of `n` in a field of `size` values, and back. */
  function Unsigned(n: int, size: nat): int {
    if n < 0 then n + size else n
  }

  function Signed(u: int, size: nat): int {
    if 2 * u >= size then u - size else u
  }

  function Int16BE(n: int): (r: Bytes)
    requires FitsInt16(n)
    ensures |r| == 2
  {
    var u := Unsigned(n, 0x1_0000);
    [u / 256, u % 256]
  }

  function ReadInt16BE(b: Bytes, at: nat): (n: int)
    requires at + 2 <= |b|
    ensures FitsInt16(n)
  {
    Signed(256 * b[at] as int + b[at + 1], 0x1_0000)
  }

  /** Four bytes, most significant first, as an unsigned number. */
  function Join32(b3: int, b2: int, b1: int, b0: int): int {
    b3 * 0x100_0000 + b2 * 0x1_0000 + b1 * 256 + b0
  }

  function Int32BE(n: int): (r: Bytes)
    requires FitsInt32(n)
    ensures |r| == 4
  {
    var u := Unsigned(n, 0x1_0000_0000);
    [u / 0x100_0000, u / 0x1_0000 % 256, u / 256 % 256, u % 256]
  }

  function ReadInt32BE(b: Bytes, at: nat): (n: int)
    requires at + 4 <= |b|
    ensures FitsInt32(n)
  {
    Signed(Join32(b[at], b[at + 1], b[at + 2], b[at + 3]), 0x1_0000_0000)
  }

  function Int32LE(n: int): (r: Bytes)
    requires FitsInt32(n)
    ensures |r| == 4
  {
    var u := Unsigned(n, 0x1_0000_0000);
    [u % 256, u / 256 % 256, u / 0x1_0000 % 256, u / 0x100_0000]
  }

  function ReadInt32LE(b: Bytes, at: nat): (n: int)
    requires at + 4 <= |b|
    ensures FitsInt32(n)
  {
    Signed(Join32(b[at + 3], b[at + 2], b[at + 1], b[at]), 0x1_0000_0000)
  }

  lemma {:induction false} Int16BERoundTrip(pre: Bytes, n: int, rest: Bytes)
    requires FitsInt16(n)
    ensures ReadInt16BE(pre + Int16BE(n) + rest, |pre|) == n
  {
  }

  lemma {:induction false} JoinSplit(u: int)
    requires 0 <= u < 0x1_0000_0000
    ensures Join32(u / 0x100_0000, u / 0x1_0000 % 256, u / 256 % 256, u % 256) == u
  {
    assert u / 0x1_0000 == u / 256 / 256 && u / 0x100_0000 == u / 0x1_0000 / 256;
  }

  lemma {:induction false} SignedUnsigned(n: int)
    requires FitsInt32(n)
    ensures 0 <= Unsigned(n, 0x1_0000_0000) < 0x1_0000_0000
    ensures Signed(Unsigned(n, 0x1_0000_0000), 0x1_0000_0000) == n
  {
  }

  lemma {:induction false} Int32BERoundTrip(pre: Bytes, n: int, rest: Bytes)
    requires FitsInt32(n)
    ensures ReadInt32BE(pre + Int32BE(n) + rest, |pre|) == n
  {
    var b, f := pre + Int32BE(n) + rest, Int32BE(n);
    assert forall i | 0 <= i < 4 :: b[|pre| + i] == f[i];
    assert b[|pre|] == f[0];
    JoinSplit(Unsigned(n, 0x1_0000_0000));
    SignedUnsigned(n);
  }

  lemma {:induction false} Int32LERoundTrip(pre: Bytes, n: int, rest: Bytes)
    requires FitsInt32(n)
    ensures ReadInt32LE(pre + Int32LE(n) + rest, |pre|) == n
  {
    var b, f := pre + Int32LE(n) + rest, Int32LE(n);
    assert forall i | 0 <= i < 4 :: b[|pre| + i] == f[i];
    assert b[|pre|] == f[0];
    JoinSplit(Unsigned(n, 0x1_0000_0000));
    SignedUnsigned(n);
  }

  // ----- 64 bits -----

  function Uint64LE(u: int): (r: Bytes)
    requires 0 <= u < 0x1_0000_0000_0000_0000
    ensures |r| == 8
  {
    var low, high := u % 0x1_0000_0000, u / 0x1_0000_0000;
    [low % 256, low / 256 % 256, low / 0x1_0000 % 256, low / 0x100_0000,
     high % 256, high / 256 % 256, high / 0x1_0000 % 256, high / 0x100_0000]
  }

  function ReadUint64LE(b: Bytes, at: nat): (u: int)
    requires at + 8 <= |b|
    ensures 0 <= u < 0x1_0000_0000_0000_0000
  {
    Join32(b[at + 7], b[at + 6], b[at + 5], b[at + 4]) * 0x1_0000_0000
    + Join32(b[at + 3], b[at + 2], b[at + 1], b[at])
  }

  function Int64LE(n: int): (r: Bytes)
    requires FitsInt64(n)
    ensures |r| == 8
  {
    Uint64LE(Unsigned(n, 0x1_0000_0000_0000_0000))
  }

  function ReadInt64LE(b: Bytes, at: nat): (n: int)
    requires at + 8 <= |b|
    ensures FitsInt64(n)
  {
    Signed(ReadUint64LE(b, at), 0x1_0000_0000_0000_0000)
  }

  lemma {:induction false} Uint64LERoundTrip(pre: Bytes, u: int, rest: Bytes)
    requires 0 <= u < 0x1_0000_0000_0000_0000
    ensures ReadUint64LE(pre + Uint64LE(u) + rest, |pre|) == u
  {
    var b, f := pre + Uint64LE(u) + rest, Uint64LE(u);
    assert forall i | 0 <= i < 8 :: b[|pre| + i] == f[i];
    assert b[|pre|] == f[0];
    JoinSplit(u % 0x1_0000_0000);
    JoinSplit(u / 0x1_0000_0000);
  }

  lemma {:induction false} Int64LERoundTrip(pre: Bytes, n: int, rest: Bytes)
    requires FitsInt64(n)
    ensures ReadInt64LE(pre + Int64LE(n) + rest, |pre|) == n
  {
    Uint64LERoundTrip(pre, Unsigned(n, 0x1_0000_0000_0000_0000), rest);
  }
}
