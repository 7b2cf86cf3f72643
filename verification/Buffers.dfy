/**
 * Filling fresh buffers in place: `Buffer.alloc` and the `writeInt` calls the encoders are made of.
 *
 * Each writer changes its field and no other byte; each filled buffer is proved equal to the bytes of its layout.
 */
module Buffers {
  import opened Wire
  import opened PostgresMessages
  import opened PostgresEncoder
  import MongoMessages

  /** `bytes` laid over `b` at `at`. */
  function Over(b: Bytes, at: nat, bytes: Bytes): (r: Bytes)
    requires at + |bytes| <= |b|
    ensures |r| == |b|
  {
    b[..at] + bytes + b[at + |bytes|..]
  }

  method Alloc(size: nat) returns (b: array<byte>)
    ensures fresh(b) && b.Length == size && forall i | 0 <= i < size :: b[i] == 0
  {
    b := new byte[size](_ => 0);
  }

  method WriteInt16BE(b: array<byte>, n: int, at: nat)
    requires FitsInt16(n) && at + 2 <= b.Length
    modifies b
    ensures b[..] == Over(old(b[..]), at, Int16BE(n))
  {
    var u := Unsigned(n, 0x1_0000);
    b[at] := u / 256;
    b[at + 1] := u % 256;
  }

  method WriteInt32BE(b: array<byte>, n: int, at: nat)
    requires FitsInt32(n) && at + 4 <= b.Length
    modifies b
    ensures b[..] == Over(old(b[..]), at, Int32BE(n))
  {
    var u := Unsigned(n, 0x1_0000_0000);
    b[at] := u / 0x100_0000;
    b[at + 1] := u / 0x1_0000 % 256;
    b[at + 2] := u / 256 % 256;
    b[at + 3] := u % 256;
  }

  method WriteInt32LE(b: array<byte>, n: int, at: nat)
    requires FitsInt32(n) && at + 4 <= b.Length
    modifies b
    ensures b[..] == Over(old(b[..]), at, Int32LE(n))
  {
    var u := Unsigned(n, 0x1_0000_0000);
    b[at] := u % 256;
    b[at + 1] := u / 256 % 256;
    b[at + 2] := u / 0x1_0000 % 256;
    b[at + 3] := u / 0x100_0000;
  }

  /** Framing a Postgres message. */
  method FrameMessage(f: Frame) returns (b: Bytes)
    requires Writable(f)
    ensures b == Message(f)
  {
    var header := Alloc(5);
    header[0] := f.kind;
    WriteInt32BE(header, |f.payload| + 4, 1);
    assert header[..] == [f.kind] + Int32BE(|f.payload| + 4);
    b := header[..] + f.payload;
  }

  /** The 18 bytes behind a column's name. */
  method ColumnMeta(c: Column) returns (meta: array<byte>)
    requires FitsColumn(c)
    ensures fresh(meta) && CStringOf(c.name) + meta[..] == ColumnBytes(c)
  {
    hide Int32BE, Int16BE;
    meta := Alloc(18);
    WriteInt32BE(meta, 0, 0);
    WriteInt16BE(meta, 0, 4);
    assert meta[..6] == Int32BE(0) + Int16BE(0);
    WriteInt32BE(meta, OidOf(c), 6);
    WriteInt16BE(meta, VARIABLE_LENGTH, 10);
    assert meta[..12] == Int32BE(0) + Int16BE(0) + Int32BE(OidOf(c)) + Int16BE(VARIABLE_LENGTH);
    WriteInt32BE(meta, VARIABLE_LENGTH, 12);
    WriteInt16BE(meta, 0, 16);
    assert meta[..] == meta[..12] + Int32BE(VARIABLE_LENGTH) + Int16BE(0);
  }

  /** The header of a MongoDB message. */
  method MongoHeader(length: int, requestId: int, responseTo: int, opCode: int) returns (header: array<byte>)
    requires MongoMessages.FitsHeader(length, requestId, responseTo, opCode)
    ensures fresh(header) && header[..] == MongoMessages.Header(length, requestId, responseTo, opCode)
  {
    hide Int32LE;
    header := Alloc(16);
    WriteInt32LE(header, length, 0);
    WriteInt32LE(header, requestId, 4);
    assert header[..8] == Int32LE(length) + Int32LE(requestId);
    WriteInt32LE(header, responseTo, 8);
    WriteInt32LE(header, opCode, 12);
    assert header[..] == header[..8] + Int32LE(responseTo) + Int32LE(opCode);
  }
}
