/**
 The wire format of binary deltas: big-endian integers, the 82-byte header and the copy/data
 operations, with readers that consume a byte stream and report short reads.
 */
module DeltaCodec {
  import opened Basics

  type Digest = s: seq<byte> | |s| == 32 witness seq(32, _ => 0)

  datatype Header = Header(version: u16, blockSize: u32, src: Digest, dst: Digest, opCount: u32)

  datatype Op = Copy(target: u32, src: u32) | Data(target: u32, data: seq<byte>)

  datatype ReadError = ShortRead | BadMagic | UnknownOp(code: byte)

  /** A value and the bytes still unread, or an error. */
  datatype Read<T> = Ok(value: T, rest: seq<byte>) | Err(error: ReadError)

  const MAGIC: seq<byte> := [0x4e, 0x55, 0x52, 0x41, 0x44, 0x45, 0x4c, 0x54] // "NURADELT"
  const VERSION: u16 := 1
  const COPY: byte := 0
  const DATA: byte := 1

  const U32_LIMIT: nat := 0x1_0000_0000

  // ----- integers -----

  /** A number as a 32-bit field keeps it. */
  function Wrapped(n: nat): (r: u32)
    ensures r <= n && (r == n <==> n < U32_LIMIT)
  {
    n % U32_LIMIT
  }

  function U16(v: u16): (b: seq<byte>)
    ensures |b| == 2
  {
    [v / 0x100, v % 0x100]
  }

  function U32(v: u32): (b: seq<byte>)
    ensures |b| == 4
  {
    [v / 0x100_0000, v / 0x1_0000 % 0x100, v / 0x100 % 0x100, v % 0x100]
  }

  function U16Value(b: seq<byte>): u16
    requires |b| == 2
  {
    0x100 * (b[0] as int) + b[1]
  }

  function U32Value(b: seq<byte>): u32
    requires |b| == 4
  {
    0x100_0000 * (b[0] as int) + 0x1_0000 * (b[1] as int) + 0x100 * (b[2] as int) + b[3]
  }

  lemma U16Inverse(v: u16, b: seq<byte>)
    requires |b| == 2
    ensures U16Value(U16(v)) == v && U16(U16Value(b)) == b
  {
  }

  lemma U32OfBytes(b: seq<byte>)
    requires |b| == 4
    ensures U32(U32Value(b)) == b
  {
    var b0: nat, b1: nat, b2: nat, b3: nat := b[0], b[1], b[2], b[3];
    var y := 0x100 * b0 + b1;
    var x := 0x100 * y + b2;
    var v := 0x100 * x + b3;
    assert U32Value(b) == v;
    LastByte(x, b3);
    LastByte(y, b2);
    LastByte(b0, b1);
    DivideTwice(v);
    DivideThrice(v);
    var u := U32(v);
    assert u[0] == b0 && u[1] == b1 && u[2] == b2 && u[3] == b3;
  }

  lemma LastByte(x: nat, b: byte)
    ensures (0x100 * x + b) / 0x100 == x && (0x100 * x + b) % 0x100 == b
  {
  }

  lemma DivideTwice(v: nat)
    ensures v / 0x1_0000 == v / 0x100 / 0x100
  {
  }

  lemma DivideThrice(v: nat)
    ensures v / 0x100_0000 == v / 0x100 / 0x100 / 0x100
  {
  }

  lemma U32ValueOf(v: u32)
    ensures U32Value(U32(v)) == v
  {
    assert v / 0x1_0000 == 0x100 * (v / 0x100_0000) + v / 0x1_0000 % 0x100;
    assert v / 0x100 == 0x100 * (v / 0x1_0000) + v / 0x100 % 0x100;
  }

  // ----- readers -----

  /** Reads exactly `n` bytes or fails. */
  function ReadFull(r: seq<byte>, n: nat): (x: Read<seq<byte>>)
    ensures x.Ok? <==> |r| >= n
    ensures x.Ok? ==> |x.value| == n && r == x.value + x.rest
  {
    if |r| < n then Err(ShortRead) else Ok(r[..n], r[n..])
  }

  lemma ReadFullOf(a: seq<byte>, rest: seq<byte>)
    ensures ReadFull(a + rest, |a|) == Ok(a, rest)
  {
    assert (a + rest)[..|a|] == a && (a + rest)[|a|..] == rest;
  }

  function ReadU16(r: seq<byte>): Read<u16>
  {
    var b := ReadFull(r, 2);
    if b.Err? then Err(b.error) else Ok(U16Value(b.value), b.rest)
  }

  function ReadU32(r: seq<byte>): Read<u32>
  {
    var b := ReadFull(r, 4);
    if b.Err? then Err(b.error) else Ok(U32Value(b.value), b.rest)
  }

  lemma ReadU32Of(v: u32, rest: seq<byte>)
    ensures ReadU32(U32(v) + rest) == Ok(v, rest)
  {
    ReadFullOf(U32(v), rest);
    U32ValueOf(v);
  }

  lemma ReadU32Inverse(r: seq<byte>)
    ensures ReadU32(r).Ok? <==> |r| >= 4
    ensures ReadU32(r).Ok? ==> r == U32(ReadU32(r).value) + ReadU32(r).rest
  {
    if |r| >= 4 {
      U32OfBytes(r[..4]);
    }
  }

  /** The first byte counts most: numbers are ordered as their bytes are. */
  lemma BigEndian(b: seq<byte>, c: seq<byte>, k: nat)
    requires |b| == 4 && |c| == 4 && k < 4 && b[..k] == c[..k] && b[k] < c[k]
    ensures U32Value(b) < U32Value(c)
  {
    assert forall i :: 0 <= i < k ==> b[..k][i] == b[i] && c[..k][i] == c[i];
  }

  lemma BigEndian16(b: seq<byte>, c: seq<byte>)
    requires |b| == 2 && |c| == 2 && b[0] < c[0]
    ensures U16Value(b) < U16Value(c)
  {
  }

  // ----- operations -----

  /** Only the low 32 bits of a length are written, but all the data. */
  function EncodeOp(op: Op): seq<byte>
  {
    match op
    case Copy(t, s) => [COPY] + U32(t) + U32(s)
    case Data(t, d) => [DATA] + U32(t) + U32(Wrapped(|d|)) + d
  }

  function ReadOp(r: seq<byte>): (x: Read<Op>)
  {
    var code := ReadFull(r, 1);
    if code.Err? then Err(code.error) else
    var target := ReadU32(code.rest);
    if target.Err? then Err(target.error) else
    if code.value[0] == COPY then
      var src := ReadU32(target.rest);
      if src.Err? then Err(src.error) else Ok(Copy(target.value, src.value), src.rest)
    else if code.value[0] == DATA then
      var length := ReadU32(target.rest);
      if length.Err? then Err(length.error) else
      var data := ReadFull(length.rest, length.value);
      if data.Err? then Err(data.error) else Ok(Data(target.value, data.value), data.rest)
    else Err(UnknownOp(code.value[0]))
  }

  /** Where the fields of an operation are: type, target index, then source index, or length and
      data. */
  lemma OpLayout(op: Op)
    ensures var b := EncodeOp(op);
            && |b| >= 9 && U32Value(b[1..5]) == op.target
            && (op.Copy? ==> |b| == 9 && b[0] == 0 && U32Value(b[5..9]) == op.src)
            && (op.Data? ==> b[0] == 1 && U32Value(b[5..9]) == Wrapped(|op.data|) && b[9..] == op.data)
  {
    hide U32, U32Value, Wrapped;
    var b, third := EncodeOp(op), if op.Copy? then op.src else Wrapped(|op.data|);
    U32ValueOf(op.target);
    U32ValueOf(third);
    assert b[1..5] == U32(op.target);
    assert b[5..9] == U32(third);
  }

  /** Reading back a written operation returns it and leaves the rest of the stream, exactly when
      its length fits in 32 bits. */
  lemma ReadWrittenOp(op: Op, rest: seq<byte>)
    ensures ReadOp(EncodeOp(op) + rest) == Ok(op, rest) <==> (op.Data? ==> |op.data| < U32_LIMIT)
  {
    hide Wrapped, U32;
    match op
    case Copy(t, s) =>
      assert EncodeOp(op) + rest == [COPY] + (U32(t) + (U32(s) + rest));
      ReadFullOf([COPY], U32(t) + (U32(s) + rest));
      ReadU32Of(t, U32(s) + rest);
      ReadU32Of(s, rest);
    case Data(t, d) =>
      var n := Wrapped(|d|);
      assert EncodeOp(op) + rest == [DATA] + (U32(t) + (U32(n) + (d + rest)));
      ReadFullOf([DATA], U32(t) + (U32(n) + (d + rest)));
      ReadU32Of(t, U32(n) + (d + rest));
      ReadU32Of(n, d + rest);
      if |d| < U32_LIMIT {
        ReadFullOf(d, rest);
      }
  }

  /** When reading an operation fails, and how: the type and the target index are read before the
      type is looked at. */
  lemma ReadOpErrors(r: seq<byte>)
    ensures var x := ReadOp(r);
            && (|r| < 5 ==> x == Err(ShortRead))
            && (|r| >= 5 && r[0] > 1 ==> x == Err(UnknownOp(r[0])))
            && (5 <= |r| < 9 && r[0] <= 1 ==> x == Err(ShortRead))
            && (|r| >= 9 && r[0] == 0 ==> x.Ok?)
            && (|r| >= 9 && r[0] == 1 ==> if |r| - 9 < U32Value(r[5..9]) then x == Err(ShortRead) else x.Ok?)
  {
    hide U32Value;
    if |r| >= 9 {
      assert r[1..][4..][..4] == r[5..9];
    }
  }

  /** Whatever is read as an operation is what writing that operation produces. */
  lemma WriteReadOp(r: seq<byte>)
    requires ReadOp(r).Ok?
    ensures var op := ReadOp(r).value; (op.Data? ==> |op.data| < U32_LIMIT) && r == EncodeOp(op) + ReadOp(r).rest
  {
    var code := ReadFull(r, 1);
    assert code.value == [code.value[0]];
    ReadU32Inverse(code.rest);
    var target := ReadU32(code.rest);
    ReadU32Inverse(target.rest);
    var third := ReadU32(target.rest);
    if code.value[0] == COPY {
      Regroup([COPY], U32(target.value), U32(third.value), [], third.rest);
    } else {
      var data := ReadFull(third.rest, third.value);
      Regroup([DATA], U32(target.value), U32(third.value), data.value, data.rest);
    }
  }

  lemma Regroup(a: seq<byte>, b: seq<byte>, c: seq<byte>, d: seq<byte>, rest: seq<byte>)
    ensures a + (b + (c + (d + rest))) == a + b + c + d + rest
    ensures d == [] ==> a + (b + (c + rest)) == a + b + c + rest
  {
  }

  // ----- header -----

  function EncodeHeader(h: Header): (b: seq<byte>)
    ensures |b| == 82
  {
    MAGIC + U16(h.version) + U32(h.blockSize) + h.src + h.dst + U32(h.opCount)
  }

  /** The version is read but not checked. */
  function ReadHeader(r: seq<byte>): (x: Read<Header>)
  {
    var magic := ReadFull(r, 8);
    if magic.Err? then Err(magic.error) else
    if magic.value != MAGIC then Err(BadMagic) else
    var version := ReadU16(magic.rest);
    if version.Err? then Err(version.error) else
    var blockSize := ReadU32(version.rest);
    if blockSize.Err? then Err(blockSize.error) else
    var src := ReadFull(blockSize.rest, 32);
    if src.Err? then Err(src.error) else
    var dst := ReadFull(src.rest, 32);
    if dst.Err? then Err(dst.error) else
    var ops := ReadU32(dst.rest);
    if ops.Err? then Err(ops.error) else
    Ok(Header(version.value, blockSize.value, src.value, dst.value, ops.value), ops.rest)
  }

  /** When reading a header fails, and how. */
  lemma ReadHeaderErrors(r: seq<byte>)
    ensures var x := ReadHeader(r);
            && (|r| >= 8 && r[..8] != MAGIC ==> x == Err(BadMagic))
            && (|r| < 8 || (r[..8] == MAGIC && |r| < 82) ==> x == Err(ShortRead))
            && (|r| >= 82 && r[..8] == MAGIC ==> x.Ok?)
  {
    hide U32Value, U16Value;
  }

  /** Where the fields of the header are. */
  lemma HeaderLayout(h: Header)
    ensures var b := EncodeHeader(h);
            && b[..8] == MAGIC && U16Value(b[8..10]) == h.version && U32Value(b[10..14]) == h.blockSize
            && b[14..46] == h.src && b[46..78] == h.dst && U32Value(b[78..82]) == h.opCount
  {
    hide U32, U32Value, U16, U16Value;
    var b := EncodeHeader(h);
    U32ValueOf(h.blockSize);
    U32ValueOf(h.opCount);
    U16Inverse(h.version, U16(h.version));
    assert b[8..10] == U16(h.version) && b[10..14] == U32(h.blockSize) && b[78..82] == U32(h.opCount);
  }

  lemma ReadWrittenHeader(h: Header, rest: seq<byte>)
    ensures ReadHeader(EncodeHeader(h) + rest) == Ok(h, rest)
  {
    var r5 := U32(h.opCount) + rest;
    var r4 := h.dst + r5;
    var r3 := h.src + r4;
    var r2 := U32(h.blockSize) + r3;
    var r1 := U16(h.version) + r2;
    assert EncodeHeader(h) + rest == MAGIC + r1;
    ReadFullOf(MAGIC, r1);
    ReadFullOf(U16(h.version), r2);
    U16Inverse(h.version, U16(h.version));
    ReadU32Of(h.blockSize, r3);
    ReadFullOf(h.src, r4);
    ReadFullOf(h.dst, r5);
    ReadU32Of(h.opCount, rest);
  }

  lemma WriteReadHeader(r: seq<byte>)
    requires ReadHeader(r).Ok?
    ensures r == EncodeHeader(ReadHeader(r).value) + ReadHeader(r).rest
  {
    var h := ReadHeader(r).value;
    var magic := ReadFull(r, 8);
    var version := ReadFull(magic.rest, 2);
    U16Inverse(h.version, version.value);
    ReadU32Inverse(version.rest);
    var blockSize := ReadU32(version.rest);
    var src := ReadFull(blockSize.rest, 32);
    var dst := ReadFull(src.rest, 32);
    ReadU32Inverse(dst.rest);
    assert r == MAGIC + (U16(h.version) + (U32(h.blockSize) + (h.src + (h.dst + (U32(h.opCount) + ReadHeader(r).rest)))));
  }
}
