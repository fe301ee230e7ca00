/**
 Block-level binary deltas: the generator that matches target blocks against a hash index of
 the source, and the applier that rebuilds the target. SHA-256 is an abstract function; where
 a result needs it, the absence of collisions is assumed only between the blocks and images
 at hand.
 */
module Delta {
  import opened Basics
  import opened DeltaCodec

  const BLOCK_SIZE: nat := 4096

  type Bytes = seq<byte>

  datatype Stats = Stats(sourceBlocks: nat, targetBlocks: nat, copied: nat, added: nat, addedBytes: nat, fullBytes: nat)

  datatype Outcome =
    | Rebuilt(image: Bytes, copied: nat, added: nat)
    | HeaderError(error: ReadError)
    | WrongSource
    | OpError(index: nat, error: ReadError)
    | SourceOutOfRange(index: nat)
    | ApplyFailed
    | Diverges  // a zero block size and a non-empty source: the splitting loop never ends

  // ----- blocks -----

  /** A new zeroed block of size `bs` with `data` copied over its beginning. */
  function FullBlock(data: Bytes, bs: nat): (b: Bytes)
    ensures |b| == bs
    ensures |data| == bs ==> b == data
  {
    if |data| >= bs then data[..bs] else data + Repeat(0, bs - |data|)
  }

  /** As much of the data as fits, then zeros. */
  lemma FullBlockMeans(data: Bytes, bs: nat, i: nat)
    requires i < bs
    ensures FullBlock(data, bs)[i] == if i < |data| then data[i] else 0
  {
  }

  function Blocks(data: Bytes, bs: nat): (r: seq<Bytes>)
    requires bs > 0
    ensures forall i :: 0 <= i < |r| ==> |r[i]| == bs
  {
    if data == [] then []
    else if |data| <= bs then [FullBlock(data, bs)]
    else [data[..bs]] + Blocks(data[bs..], bs)
  }

  function Flatten(bs: seq<Bytes>): Bytes
  {
    if bs == [] then [] else bs[0] + Flatten(bs[1..])
  }

  /** Number of zeros that fill the last block of an `n`-byte image. */
  function Padding(n: nat, bs: nat): (k: nat)
    requires bs > 0
    ensures k < bs
  {
    if n == 0 then 0 else if n <= bs then bs - n else Padding(n - bs, bs)
  }

  /** The blocks of an image are the image followed by the zeros that fill its last block. */
  lemma {:induction false} FlattenBlocks(data: Bytes, bs: nat)
    requires bs > 0
    ensures Flatten(Blocks(data, bs)) == data + Repeat(0, Padding(|data|, bs))
  {
    var blocks := Blocks(data, bs);
    if data == [] {
      assert data + Repeat(0, 0) == [];
    } else if |data| <= bs {
      assert blocks[1..] == [];
      assert Flatten(blocks) == blocks[0];
      assert |data| == bs ==> data + Repeat(0, 0) == data;
    } else {
      var rest := data[bs..];
      FlattenBlocks(rest, bs);
      assert blocks[1..] == Blocks(rest, bs);
      assert data == data[..bs] + rest;
      assert data[..bs] + (rest + Repeat(0, Padding(|rest|, bs))) == data + Repeat(0, Padding(|data|, bs));
    }
  }

  /** No padding is needed exactly when the block size divides the length. */
  lemma {:induction false} NoPadding(n: nat, bs: nat)
    requires bs > 0
    ensures Padding(n, bs) == 0 <==> n % bs == 0
  {
    if 0 < n < bs {
      UniqueRemainder(n, bs, 0, n);
    } else if n == bs {
      UniqueRemainder(n, bs, 1, 0);
    } else if n > bs {
      NoPadding(n - bs, bs);
      var q, r := (n - bs) / bs, (n - bs) % bs;
      assert bs * (q + 1) == bs * q + bs;
      UniqueRemainder(n, bs, q + 1, r);
    }
  }

  lemma UniqueRemainder(n: nat, bs: nat, q: nat, r: nat)
    requires 0 < bs && n == bs * q + r && r < bs
    ensures n % bs == r
  {
    var p := n / bs;
    if p < q {
      AtLeastOne(bs, p, q);
    } else if p > q {
      AtLeastOne(bs, q, p);
    }
  }

  lemma AtLeastOne(bs: nat, p: nat, q: nat)
    requires p < q
    ensures bs * q >= bs * p + bs
  {
    assert bs * q == bs * p + bs * (q - p);
    assert bs * (q - p) == bs * (q - p - 1) + bs;
  }

  /** The splitting loop. */
  method SplitBlocks(data: Bytes, bs: nat) returns (blocks: seq<Bytes>)
    requires bs > 0
    ensures blocks == Blocks(data, bs)
  {
    blocks := [];
    var i := 0;
    assert data[0..] == data;
    while i < |data|
      invariant 0 <= i && (i <= |data| ==> blocks + Blocks(data[i..], bs) == Blocks(data, bs))
      invariant i > |data| ==> blocks == Blocks(data, bs)
    {
      var end := i + bs;
      ghost var tail := data[i..];
      if end > |data| {
        blocks := blocks + [FullBlock(data[i..], bs)];
      } else {
        blocks := blocks + [data[i..end]];
        assert tail[..bs] == data[i..end] && tail[bs..] == data[end..];
        if |tail| == bs {
          assert tail == data[i..end];
        }
      }
      i := i + bs;
    }
    if i == |data| {
      assert data[i..] == [];
    }
  }

  // ----- generating -----

  /** Digest of every source block, with the 32-bit index of the last block that has it. */
  function Index(hash: Bytes -> Digest, blocks: seq<Bytes>): (m: map<Digest, u32>)
    ensures forall h :: h in m ==> m[h] < |blocks|
  {
    if blocks == [] then map[]
    else Index(hash, blocks[..|blocks| - 1])[hash(blocks[|blocks| - 1]) := Wrapped(|blocks| - 1)]
  }

  /** Every indexed digest is the digest of some block, and the index is the position of the last
      such block as far as 32 bits go. */
  lemma {:induction false} IndexIsSound(hash: Bytes -> Digest, blocks: seq<Bytes>, h: Digest) returns (j: nat)
    requires h in Index(hash, blocks)
    ensures j < |blocks| && hash(blocks[j]) == h && Index(hash, blocks)[h] == Wrapped(j)
    ensures forall k :: j < k < |blocks| ==> hash(blocks[k]) != h
  {
    hide Wrapped;
    j := |blocks| - 1;
    if h != hash(blocks[j]) {
      j := IndexIsSound(hash, blocks[..j], h);
    }
  }

  /** Some block has this digest. */
  ghost predicate Occurs(hash: Bytes -> Digest, blocks: seq<Bytes>, h: Digest)
  {
    exists j :: 0 <= j < |blocks| && hash(blocks[j]) == h
  }

  /** The index holds the digest of every block, and no other. */
  lemma {:induction false} IndexIff(hash: Bytes -> Digest, blocks: seq<Bytes>, h: Digest)
    ensures h in Index(hash, blocks) <==> Occurs(hash, blocks, h)
  {
    hide Wrapped;
    if blocks != [] {
      var n := |blocks| - 1;
      IndexIff(hash, blocks[..n], h);
      if Occurs(hash, blocks[..n], h) {
        var j :| 0 <= j < n && hash(blocks[..n][j]) == h;
        assert hash(blocks[j]) == h;
      }
      if Occurs(hash, blocks, h) && hash(blocks[n]) != h {
        var j :| 0 <= j < |blocks| && hash(blocks[j]) == h;
        assert hash(blocks[..n][j]) == h;
      }
    }
  }

  function OpFor(hash: Bytes -> Digest, index: map<Digest, u32>, i: nat, block: Bytes): (op: Op)
  {
    if hash(block) in index then Copy(Wrapped(i), index[hash(block)]) else Data(Wrapped(i), block)
  }

  predicate Writable(ops: seq<Op>)
  {
    forall i :: 0 <= i < |ops| && ops[i].Data? ==> |ops[i].data| < U32_LIMIT
  }

  function Ops(hash: Bytes -> Digest, index: map<Digest, u32>, blocks: seq<Bytes>): (r: seq<Op>)
    ensures |r| == |blocks|
    ensures forall i :: 0 <= i < |r| ==> r[i] == OpFor(hash, index, i, blocks[i])
  {
    seq(|blocks|, i requires 0 <= i < |blocks| => OpFor(hash, index, i, blocks[i]))
  }

  function OpsOf(hash: Bytes -> Digest, src: Bytes, dst: Bytes, bs: nat): (r: seq<Op>)
    requires 0 < bs
    ensures |r| == |Blocks(dst, bs)|
  {
    Ops(hash, Index(hash, Blocks(src, bs)), Blocks(dst, bs))
  }

  function EncodeOps(ops: seq<Op>): Bytes
  {
    if ops == [] then [] else EncodeOp(ops[0]) + EncodeOps(ops[1..])
  }

  /** Number of copy (or of data) operations. */
  function Count(ops: seq<Op>, copies: bool): (n: nat)
  {
    if ops == [] then 0 else Count(ops[..|ops| - 1], copies) + (if ops[|ops| - 1].Copy? == copies then 1 else 0)
  }

  function DataBytes(ops: seq<Op>): (n: nat)
  {
    if ops == [] then 0
    else DataBytes(ops[..|ops| - 1]) + (if ops[|ops| - 1].Data? then |ops[|ops| - 1].data| else 0)
  }

  function EffectiveSize(blockSize: int): (bs: nat)
    ensures bs > 0
  {
    if blockSize <= 0 then BLOCK_SIZE else blockSize
  }

  function HeaderFor(hash: Bytes -> Digest, src: Bytes, dst: Bytes, bs: nat, n: nat): Header
  {
    Header(VERSION, Wrapped(bs), hash(src), hash(dst), Wrapped(n))
  }

  /** The delta file from `src` to `dst`. */
  function DeltaOf(hash: Bytes -> Digest, src: Bytes, dst: Bytes, bs: nat): Bytes
    requires 0 < bs
  {
    var ops := OpsOf(hash, src, dst, bs);
    EncodeHeader(HeaderFor(hash, src, dst, bs, |ops|)) + EncodeOps(ops)
  }

  function StatsOf(hash: Bytes -> Digest, src: Bytes, dst: Bytes, bs: nat): Stats
    requires 0 < bs
  {
    var ops := OpsOf(hash, src, dst, bs);
    Stats(|Blocks(src, bs)|, |Blocks(dst, bs)|, Count(ops, true), Count(ops, false), DataBytes(ops), |dst|)
  }

  /** What the i-th operation is: for target block i; a copy of the last source block with its
      digest if there is one, and the block itself otherwise. */
  lemma OpMeans(hash: Bytes -> Digest, src: Bytes, dst: Bytes, bs: nat, i: nat)
    requires 0 < bs && i < |Blocks(dst, bs)|
    ensures var op, block, from := OpsOf(hash, src, dst, bs)[i], Blocks(dst, bs)[i], Blocks(src, bs);
            && op.target == Wrapped(i)
            && (op.Copy? <==> Occurs(hash, from, hash(block)))
            && (op.Data? ==> op.data == block)
            && (op.Copy? ==> exists j :: 0 <= j < |from| && op.src == Wrapped(j) && IsLast(hash, from, hash(block), j))
  {
    hide Wrapped, Blocks, Index;
    var from, h := Blocks(src, bs), hash(Blocks(dst, bs)[i]);
    IndexIff(hash, from, h);
    if h in Index(hash, from) {
      var j := IndexIsSound(hash, from, h);
      assert IsLast(hash, from, h, j);
    }
  }

  ghost predicate IsLast(hash: Bytes -> Digest, blocks: seq<Bytes>, h: Digest, j: nat)
  {
    j < |blocks| && hash(blocks[j]) == h && forall k :: j < k < |blocks| ==> hash(blocks[k]) != h
  }

  /** Number of the first `n` target blocks whose digest occurs in the source. */
  ghost function Known(hash: Bytes -> Digest, from: seq<Bytes>, blocks: seq<Bytes>, n: nat): (k: nat)
    requires n <= |blocks|
    ensures k <= n
  {
    if n == 0 then 0 else Known(hash, from, blocks, n - 1) + if Occurs(hash, from, hash(blocks[n - 1])) then 1 else 0
  }

  lemma {:induction false} CountKnown(hash: Bytes -> Digest, src: Bytes, dst: Bytes, bs: nat, n: nat)
    requires 0 < bs && n <= |Blocks(dst, bs)|
    ensures var ops, known := OpsOf(hash, src, dst, bs)[..n], Known(hash, Blocks(src, bs), Blocks(dst, bs), n);
            Count(ops, true) == known && Count(ops, false) == n - known && DataBytes(ops) == (n - known) * bs
  {
    hide OpsOf, Blocks, Occurs;
    if n > 0 {
      var ops := OpsOf(hash, src, dst, bs);
      CountKnown(hash, src, dst, bs, n - 1);
      OpMeans(hash, src, dst, bs, n - 1);
      CountLast(ops, n);
      var known := Known(hash, Blocks(src, bs), Blocks(dst, bs), n - 1);
      assert (n - known) * bs == (n - 1 - known) * bs + bs;
    }
  }

  lemma CountLast(ops: seq<Op>, n: nat)
    requires 0 < n <= |ops|
    ensures var op := ops[n - 1];
            && (forall copies :: Count(ops[..n], copies) == Count(ops[..n - 1], copies) + if op.Copy? == copies then 1 else 0)
            && DataBytes(ops[..n]) == DataBytes(ops[..n - 1]) + if op.Data? then |op.data| else 0
  {
    assert ops[..n][..n - 1] == ops[..n - 1];
  }

  /** The reported numbers: copied are the target blocks whose digest occurs in the source, new
      are the others, each stored in full. */
  lemma StatsMean(hash: Bytes -> Digest, src: Bytes, dst: Bytes, bs: nat)
    requires 0 < bs
    ensures var stats, n := StatsOf(hash, src, dst, bs), |Blocks(dst, bs)|;
            && stats.sourceBlocks == |Blocks(src, bs)| && stats.targetBlocks == n && stats.fullBytes == |dst|
            && stats.copied == Known(hash, Blocks(src, bs), Blocks(dst, bs), n)
            && stats.added == n - stats.copied && stats.addedBytes == stats.added * bs
  {
    hide OpsOf, Blocks, Count, DataBytes, Known;
    var ops := OpsOf(hash, src, dst, bs);
    CountKnown(hash, src, dst, bs, |ops|);
    assert ops[..|ops|] == ops;
  }

  /** A delta between equal images stores no block. */
  lemma UnchangedIsCopied(hash: Bytes -> Digest, image: Bytes, bs: nat)
    requires 0 < bs
    ensures StatsOf(hash, image, image, bs).added == 0 && StatsOf(hash, image, image, bs).addedBytes == 0
  {
    hide Blocks, StatsOf;
    StatsMean(hash, image, image, bs);
    AllKnown(hash, Blocks(image, bs), |Blocks(image, bs)|);
  }

  lemma {:induction false} AllKnown(hash: Bytes -> Digest, blocks: seq<Bytes>, n: nat)
    requires n <= |blocks|
    ensures Known(hash, blocks, blocks, n) == n
  {
    if n > 0 {
      AllKnown(hash, blocks, n - 1);
      assert Occurs(hash, blocks, hash(blocks[n - 1]));
    }
  }

  method Generate(hash: Bytes -> Digest, src: Bytes, dst: Bytes, blockSize: int) returns (w: Bytes, stats: Stats)
    ensures w == DeltaOf(hash, src, dst, EffectiveSize(blockSize))
    ensures stats == StatsOf(hash, src, dst, EffectiveSize(blockSize))
  {
    var bs := EffectiveSize(blockSize);
    var srcBlocks := SplitBlocks(src, bs);
    var index := BuildIndex(hash, srcBlocks);
    var dstBlocks := SplitBlocks(dst, bs);
    var ops, copied, added, addedBytes := BuildOps(hash, index, dstBlocks);
    stats := Stats(|srcBlocks|, |dstBlocks|, copied, added, addedBytes, |dst|);
    w := EncodeHeader(HeaderFor(hash, src, dst, bs, |ops|));
    var body := WriteOps(ops);
    w := w + body;
  }

  method WriteOps(ops: seq<Op>) returns (w: Bytes)
    ensures w == EncodeOps(ops)
  {
    hide EncodeOps, EncodeOp;
    w := [];
    var i := 0;
    assert ops[0..] == ops;
    while i < |ops|
      invariant 0 <= i <= |ops|
      invariant w + EncodeOps(ops[i..]) == EncodeOps(ops)
    {
      EncodeStep(ops, i);
      Regroup(w, EncodeOp(ops[i]), EncodeOps(ops[i + 1..]));
      w := w + EncodeOp(ops[i]);
      i := i + 1;
    }
    EncodeStep(ops, i);
    assert w + [] == w;
  }

  lemma EncodeStep(ops: seq<Op>, i: nat)
    requires i <= |ops|
    ensures EncodeOps(ops[i..]) == if i == |ops| then [] else EncodeOp(ops[i]) + EncodeOps(ops[i + 1..])
  {
    if i < |ops| {
      assert ops[i..][1..] == ops[i + 1..];
    }
  }

  lemma Regroup(a: Bytes, b: Bytes, c: Bytes)
    ensures a + (b + c) == a + b + c
  {
  }

  method BuildIndex(hash: Bytes -> Digest, blocks: seq<Bytes>) returns (index: map<Digest, u32>)
    ensures index == Index(hash, blocks)
  {
    index := map[];
    for i := 0 to |blocks|
      invariant index == Index(hash, blocks[..i])
    {
      assert blocks[..i + 1][..i] == blocks[..i];
      index := index[hash(blocks[i]) := Wrapped(i)];
    }
    assert blocks[..|blocks|] == blocks;
  }

  method BuildOps(hash: Bytes -> Digest, index: map<Digest, u32>, blocks: seq<Bytes>)
    returns (ops: seq<Op>, copied: nat, added: nat, addedBytes: nat)
    ensures ops == Ops(hash, index, blocks)
    ensures copied == Count(ops, true) && added == Count(ops, false) && addedBytes == DataBytes(ops)
  {
    hide OpFor;
    ops, copied, added, addedBytes := [], 0, 0, 0;
    for i := 0 to |blocks|
      invariant |ops| == i
      invariant forall k :: 0 <= k < i ==> ops[k] == OpFor(hash, index, k, blocks[k])
      invariant copied == Count(ops, true) && added == Count(ops, false) && addedBytes == DataBytes(ops)
    {
      var op := OpForBlock(hash, index, i, blocks[i]);
      assert (ops + [op])[..|ops|] == ops;
      ops := ops + [op];
      if op.Copy? {
        copied := copied + 1;
      } else {
        added := added + 1;
        addedBytes := addedBytes + |op.data|;
      }
    }
  }

  method OpForBlock(hash: Bytes -> Digest, index: map<Digest, u32>, i: nat, block: Bytes) returns (op: Op)
    ensures op == OpFor(hash, index, i, block)
    ensures op.Data? ==> op.data == block
  {
    if hash(block) in index {
      op := Copy(Wrapped(i), index[hash(block)]);
    } else {
      op := Data(Wrapped(i), block);
    }
  }

  // ----- applying -----

  /** The blocks produced by the next `n` operations in the stream `r`. Target indices are
      ignored: blocks are appended in stream order. */
  function Execute(n: nat, i: nat, r: Bytes, srcBlocks: seq<Bytes>, bs: nat): (x: Outcome)
    ensures x.Rebuilt? || x.OpError? || x.SourceOutOfRange?
  {
    if n == 0 then Rebuilt([], 0, 0)
    else
      var op := ReadOp(r);
      if op.Err? then OpError(i, op.error)
      else if op.value.Copy? && op.value.src >= |srcBlocks| then SourceOutOfRange(i)
      else
        var rest := Execute(n - 1, i + 1, op.rest, srcBlocks, bs);
        if !rest.Rebuilt? then rest
        else if op.value.Copy? then Rebuilt(srcBlocks[op.value.src] + rest.image, rest.copied + 1, rest.added)
        else Rebuilt(FullBlock(op.value.data, bs) + rest.image, rest.copied, rest.added + 1)
  }

  /** Applying a delta file to an image. */
  function Applied(hash: Bytes -> Digest, delta: Bytes, src: Bytes): (x: Outcome)
    // a rebuilt image always carries the digest the delta announces, and the source matches too
    ensures x.Rebuilt? ==> ReadHeader(delta).Ok? && hash(x.image) == ReadHeader(delta).value.dst && hash(src) == ReadHeader(delta).value.src
  {
    var hdr := ReadHeader(delta);
    if hdr.Err? then HeaderError(hdr.error)
    else if hash(src) != hdr.value.src then WrongSource
    else
      var bs := hdr.value.blockSize;
      if bs == 0 && src != [] then Diverges
      else
        var x := Execute(hdr.value.opCount, 0, hdr.rest, if bs == 0 then [] else Blocks(src, bs), bs);
        if x.Rebuilt? && hash(x.image) != hdr.value.dst then ApplyFailed else x
  }

  method Apply(hash: Bytes -> Digest, delta: Bytes, src: Bytes) returns (x: Outcome)
    ensures x == Applied(hash, delta, src)
  {
    var hdr := ReadHeader(delta);
    if hdr.Err? {
      return HeaderError(hdr.error);
    }
    if hash(src) != hdr.value.src {
      return WrongSource;
    }
    var bs := hdr.value.blockSize;
    if bs == 0 && src != [] {
      return Diverges;
    }
    var srcBlocks: seq<Bytes> := [];
    if bs != 0 {
      srcBlocks := SplitBlocks(src, bs);
    }
    x := RunOps(hdr.value.opCount, hdr.rest, srcBlocks, bs);
    if x.Rebuilt? && hash(x.image) != hdr.value.dst {
      return ApplyFailed;
    }
  }

  /** The operation loop. */
  method RunOps(n: nat, stream: Bytes, srcBlocks: seq<Bytes>, bs: nat) returns (x: Outcome)
    ensures x == Execute(n, 0, stream, srcBlocks, bs)
  {
    hide ReadOp, FullBlock;
    var out, copied, added := [], 0, 0;
    var r, i := stream, 0;
    while i < n
      invariant 0 <= i <= n
      invariant Execute(n, 0, stream, srcBlocks, bs) == Prepend(out, copied, added, Execute(n - i, i, r, srcBlocks, bs))
    {
      var op := ReadOp(r);
      if op.Err? {
        return OpError(i, op.error);
      }
      if op.value.Copy? && op.value.src >= |srcBlocks| {
        return SourceOutOfRange(i);
      }
      ghost var rest := Execute(n - i - 1, i + 1, op.rest, srcBlocks, bs);
      if op.value.Copy? {
        PrependStep(out, copied, added, srcBlocks[op.value.src], 1, 0, rest);
        out := out + srcBlocks[op.value.src];
        copied := copied + 1;
      } else {
        PrependStep(out, copied, added, FullBlock(op.value.data, bs), 0, 1, rest);
        out := out + FullBlock(op.value.data, bs);
        added := added + 1;
      }
      r := op.rest;
      i := i + 1;
    }
    assert out + [] == out;
    return Rebuilt(out, copied, added);
  }

  lemma PrependStep(out: Bytes, copied: nat, added: nat, b: Bytes, c: nat, a: nat, x: Outcome)
    ensures Prepend(out, copied, added, Prepend(b, c, a, x)) == Prepend(out + b, copied + c, added + a, x)
  {
    if x.Rebuilt? {
      assert out + (b + x.image) == out + b + x.image;
    }
  }

  ghost function Prepend(out: Bytes, copied: nat, added: nat, x: Outcome): Outcome
  {
    if x.Rebuilt? then Rebuilt(out + x.image, copied + x.copied, added + x.added) else x
  }

  /** What is left of a stream after `k` operations have been read. */
  function Skip(k: nat, r: Bytes): Bytes
  {
    if k == 0 || ReadOp(r).Err? then r else Skip(k - 1, ReadOp(r).rest)
  }

  /** An error is that of the first operation that cannot be read or refers to no source block, and
      carries its position. */
  lemma {:induction false} FirstBadOperation(n: nat, i: nat, r: Bytes, srcBlocks: seq<Bytes>, bs: nat)
    requires !Execute(n, i, r, srcBlocks, bs).Rebuilt?
    ensures var x := Execute(n, i, r, srcBlocks, bs);
            var k := x.index - i;
            && 0 <= k < n && Execute(k, i, r, srcBlocks, bs).Rebuilt?
            && var op := ReadOp(Skip(k, r));
               && (x.OpError? ==> op == Err(x.error))
               && (x.SourceOutOfRange? ==> op.Ok? && op.value.Copy? && op.value.src >= |srcBlocks|)
    decreases n
  {
    hide ReadOp, FullBlock;
    var op := ReadOp(r);
    if op.Ok? && !(op.value.Copy? && op.value.src >= |srcBlocks|) {
      FirstBadOperation(n - 1, i + 1, op.rest, srcBlocks, bs);
    }
  }

  /** When each outcome of an application happens. */
  lemma AppliedIff(hash: Bytes -> Digest, delta: Bytes, src: Bytes)
    ensures var x, hdr := Applied(hash, delta, src), ReadHeader(delta);
            && (x.HeaderError? <==> hdr.Err?)
            && (x.HeaderError? ==> x.error == hdr.error)
            && (x.WrongSource? <==> hdr.Ok? && hash(src) != hdr.value.src)
            && (x.Diverges? <==> hdr.Ok? && hash(src) == hdr.value.src && hdr.value.blockSize == 0 && src != [])
            && (x.OpError? || x.SourceOutOfRange? || x.Rebuilt? || x.ApplyFailed? ==>
                  var run := Execute(hdr.value.opCount, 0, hdr.rest, if hdr.value.blockSize == 0 then [] else Blocks(src, hdr.value.blockSize), hdr.value.blockSize);
                  && (x.ApplyFailed? <==> run.Rebuilt? && hash(run.image) != hdr.value.dst)
                  && (!x.ApplyFailed? ==> x == run))
  {
    hide ReadHeader, Execute, Blocks;
  }

  // ----- generating, then applying -----

  /** No two different members of `s` share a digest. */
  ghost predicate NoCollision(hash: Bytes -> Digest, s: set<Bytes>)
  {
    forall x, y :: x in s && y in s && hash(x) == hash(y) ==> x == y
  }

  /** The block the applier puts in the i-th place: the one the index leads to, or the target's
      own. */
  ghost function Placed(hash: Bytes -> Digest, src: Bytes, dst: Bytes, bs: nat, i: nat): (b: Bytes)
    requires bs > 0 && i < |Blocks(dst, bs)|
    ensures |b| == bs
  {
    var index, block := Index(hash, Blocks(src, bs)), Blocks(dst, bs)[i];
    if hash(block) in index then Blocks(src, bs)[index[hash(block)]] else block
  }

  ghost function Assembled(hash: Bytes -> Digest, src: Bytes, dst: Bytes, bs: nat): (r: seq<Bytes>)
    requires bs > 0
    ensures |r| == |Blocks(dst, bs)| && forall i :: 0 <= i < |r| ==> r[i] == Placed(hash, src, dst, bs, i)
  {
    seq(|Blocks(dst, bs)|, i requires 0 <= i < |Blocks(dst, bs)| => Placed(hash, src, dst, bs, i))
  }

  /** Every copied block is the target block it stands for. */
  ghost predicate CopiesMatch(hash: Bytes -> Digest, src: Bytes, dst: Bytes, bs: nat)
    requires bs > 0
  {
    Assembled(hash, src, dst, bs) == Blocks(dst, bs)
  }

  /** Up to 2^32 source blocks, copies can only go wrong through a collision. */
  lemma OpReproducesBlock(hash: Bytes -> Digest, src: Bytes, dst: Bytes, bs: nat)
    requires 0 < bs && |Blocks(src, bs)| <= U32_LIMIT
    requires NoCollision(hash, (set b | b in Blocks(src, bs)) + (set b | b in Blocks(dst, bs)))
    ensures CopiesMatch(hash, src, dst, bs)
  {
    hide Blocks, Index;
    var srcBlocks, dstBlocks := Blocks(src, bs), Blocks(dst, bs);
    forall i | 0 <= i < |dstBlocks| ensures Placed(hash, src, dst, bs, i) == dstBlocks[i] {
      var block := dstBlocks[i];
      if hash(block) in Index(hash, srcBlocks) {
        var j := IndexIsSound(hash, srcBlocks, hash(block));
        assert srcBlocks[j] in srcBlocks && block in dstBlocks;
      }
    }
  }

  /** What the applier assembles: the blocks that the 32-bit operation count still announces. */
  ghost function Announced(hash: Bytes -> Digest, src: Bytes, dst: Bytes, bs: nat): Bytes
    requires bs > 0
  {
    Flatten(Assembled(hash, src, dst, bs)[..Wrapped(|Blocks(dst, bs)|)])
  }

  ghost predicate SameSizes(a: seq<Bytes>, b: seq<Bytes>)
  {
    |a| == |b| && forall i :: 0 <= i < |a| ==> |a[i]| == |b[i]|
  }

  lemma {:induction false} FlattenInjective(a: seq<Bytes>, b: seq<Bytes>)
    requires SameSizes(a, b)
    ensures |Flatten(a)| == |Flatten(b)| && (Flatten(a) == Flatten(b) ==> a == b)
  {
    if a != [] {
      FlattenInjective(a[1..], b[1..]);
      if Flatten(a) == Flatten(b) {
        assert Flatten(a)[..|a[0]|] == a[0] && Flatten(b)[..|b[0]|] == b[0];
        assert Flatten(a)[|a[0]|..] == Flatten(a[1..]) && Flatten(b)[|b[0]|..] == Flatten(b[1..]);
        assert a == [a[0]] + a[1..] && b == [b[0]] + b[1..];
      }
    }
  }

  lemma {:induction false} FlattenPrefix(blocks: seq<Bytes>, n: nat)
    requires n < |blocks|
    ensures |Flatten(blocks[..n])| + |blocks[n]| <= |Flatten(blocks)|
  {
    if n > 0 {
      FlattenPrefix(blocks[1..], n - 1);
      assert blocks[..n][1..] == blocks[1..][..n - 1];
    }
  }

  /** Blocks assembled in place of an image's own are the image exactly when all of them are
      there, none was padded, and each is right. */
  lemma FlattenIff(dst: Bytes, bs: nat, blocks: seq<Bytes>, n: nat)
    requires bs > 0 && SameSizes(blocks, Blocks(dst, bs)) && n <= |blocks|
    ensures Flatten(blocks[..n]) == dst <==> |dst| % bs == 0 && n == |blocks| && blocks == Blocks(dst, bs)
  {
    hide Blocks, Padding, Flatten;
    var own := Blocks(dst, bs);
    FlattenBlocks(dst, bs);
    NoPadding(|dst|, bs);
    FlattenInjective(blocks[..n], own[..n]);
    if n < |blocks| {
      FlattenPrefix(own, n);
    } else {
      assert blocks[..n] == blocks && own[..n] == own;
      assert |dst| % bs == 0 ==> dst + Repeat(0, 0) == dst;
    }
  }

  /** Executing the first `n` of the written operations yields their blocks in order, and counts
      them. */
  lemma {:induction false} ExecuteWritten(ops: seq<Op>, blocks: seq<Bytes>, srcBlocks: seq<Bytes>, bs: nat, i: nat, n: nat)
    requires Writable(ops) && n <= |ops| == |blocks|
    requires forall k :: 0 <= k < |ops| ==> Produces(ops[k], srcBlocks, bs, blocks[k])
    ensures Execute(n, i, EncodeOps(ops), srcBlocks, bs) == Rebuilt(Flatten(blocks[..n]), Count(ops[..n], true), Count(ops[..n], false))
  {
    hide ReadOp, EncodeOp;
    if n > 0 {
      ExecuteWritten(ops[1..], blocks[1..], srcBlocks, bs, i + 1, n - 1);
      ReadWrittenOp(ops[0], EncodeOps(ops[1..]));
      assert Produces(ops[0], srcBlocks, bs, blocks[0]);
      assert blocks[..n][1..] == blocks[1..][..n - 1] && ops[..n][1..] == ops[1..][..n - 1];
      CountHead(ops[..n], true);
      CountHead(ops[..n], false);
    }
  }

  /** The operation stands for `block`. */
  ghost predicate Produces(op: Op, srcBlocks: seq<Bytes>, bs: nat, block: Bytes)
  {
    if op.Copy? then op.src < |srcBlocks| && srcBlocks[op.src] == block else FullBlock(op.data, bs) == block
  }

  lemma {:induction false} CountHead(ops: seq<Op>, copies: bool)
    requires ops != []
    ensures Count(ops, copies) == (if ops[0].Copy? == copies then 1 else 0) + Count(ops[1..], copies)
  {
    if |ops| > 1 {
      CountHead(ops[..|ops| - 1], copies);
      assert ops[..|ops| - 1][1..] == ops[1..][..|ops| - 2];
    }
  }

  /** Applying a generated delta to its source rebuilds exactly the target, with the counts the
      generator reported, when the block size divides the target length, the operation count
      fits in 32 bits and the copied blocks are right. Otherwise nothing trims the padded last
      block, or operations are missing, or a wrapped index led astray, and the applier reports
      a failed application. */
  lemma ApplyGenerated(hash: Bytes -> Digest, src: Bytes, dst: Bytes, bs: nat)
    requires 0 < bs < U32_LIMIT && NoCollision(hash, {dst, Announced(hash, src, dst, bs)})
    ensures var stats := StatsOf(hash, src, dst, bs);
            Applied(hash, DeltaOf(hash, src, dst, bs), src) ==
            if |dst| % bs == 0 && |Blocks(dst, bs)| < U32_LIMIT && CopiesMatch(hash, src, dst, bs)
            then Rebuilt(dst, stats.copied, stats.added) else ApplyFailed
  {
    hide Wrapped, Execute, ReadHeader, DeltaOf, EncodeOps, OpsOf, Blocks, Count, Flatten, Placed;
    var ops, out := OpsOf(hash, src, dst, bs), Announced(hash, src, dst, bs);
    ReadDelta(hash, src, dst, bs);
    ExecuteGenerated(hash, src, dst, bs);
    FlattenIff(dst, bs, Assembled(hash, src, dst, bs), Wrapped(|Blocks(dst, bs)|));
    assert out in {dst, out} && dst in {dst, out};
    assert |ops| < U32_LIMIT ==> ops[..Wrapped(|ops|)] == ops;
  }

  /** Executing a generated delta's operations yields the announced blocks. */
  lemma ExecuteGenerated(hash: Bytes -> Digest, src: Bytes, dst: Bytes, bs: nat)
    requires 0 < bs < U32_LIMIT
    ensures var ops := OpsOf(hash, src, dst, bs);
            var n := Wrapped(|ops|);
            Execute(n, 0, EncodeOps(ops), Blocks(src, bs), bs) ==
            Rebuilt(Announced(hash, src, dst, bs), Count(ops[..n], true), Count(ops[..n], false))
  {
    hide Wrapped, Execute, EncodeOps, Blocks, Count, Index, Flatten;
    var ops, srcBlocks, placed := OpsOf(hash, src, dst, bs), Blocks(src, bs), Assembled(hash, src, dst, bs);
    forall k | 0 <= k < |ops| ensures Produces(ops[k], srcBlocks, bs, placed[k]) {
      assert ops[k] == OpFor(hash, Index(hash, srcBlocks), k, Blocks(dst, bs)[k]);
      assert placed[k] == Placed(hash, src, dst, bs, k);
    }
    ExecuteWritten(ops, placed, srcBlocks, bs, 0, Wrapped(|ops|));
  }

  lemma ReadDelta(hash: Bytes -> Digest, src: Bytes, dst: Bytes, bs: nat)
    requires 0 < bs
    ensures var ops := OpsOf(hash, src, dst, bs);
            ReadHeader(DeltaOf(hash, src, dst, bs)) == Ok(Header(VERSION, Wrapped(bs), hash(src), hash(dst), Wrapped(|ops|)), EncodeOps(ops))
  {
    hide ReadHeader, EncodeHeader, EncodeOps, Blocks, OpsOf;
    var ops := OpsOf(hash, src, dst, bs);
    ReadWrittenHeader(HeaderFor(hash, src, dst, bs, |ops|), EncodeOps(ops));
  }

  // ----- block sizes beyond 32 bits -----

  /** However its operations read, a rebuilt image is a whole number of blocks. */
  lemma {:induction false} ExecuteLength(n: nat, i: nat, r: Bytes, srcBlocks: seq<Bytes>, bs: nat)
    requires forall k :: 0 <= k < |srcBlocks| ==> |srcBlocks[k]| == bs
    ensures Execute(n, i, r, srcBlocks, bs).Rebuilt? ==> |Execute(n, i, r, srcBlocks, bs).image| == n * bs
  {
    hide ReadOp;
    if n > 0 {
      var op := ReadOp(r);
      if op.Ok? {
        ExecuteLength(n - 1, i + 1, op.rest, srcBlocks, bs);
      }
      assert n * bs == (n - 1) * bs + bs;
    }
  }

  lemma {:induction false} BlocksLength(data: Bytes, bs: nat)
    requires bs > 0 && data != []
    ensures |Blocks(data, bs)| > 0 && (|Blocks(data, bs)| - 1) * bs < |data|
  {
    if |data| > bs {
      BlocksLength(data[bs..], bs);
      var m := |Blocks(data[bs..], bs)|;
      assert m * bs == (m - 1) * bs + bs;
    }
  }

  /** A block size of 2^32 or more is truncated in the header, and only a target exactly as long
      as the truncated size can survive that. */
  lemma HugeBlocks(hash: Bytes -> Digest, src: Bytes, dst: Bytes, bs: nat)
    requires bs >= U32_LIMIT && dst != []
    requires Applied(hash, DeltaOf(hash, src, dst, bs), src).Rebuilt?
    requires Applied(hash, DeltaOf(hash, src, dst, bs), src).image == dst
    ensures |dst| == Wrapped(bs)
  {
    hide ReadHeader, DeltaOf, EncodeOps, OpsOf, Execute, Blocks;
    var size, count := Wrapped(bs), |Blocks(dst, bs)|;
    ReadDelta(hash, src, dst, bs);
    ExecuteLength(Wrapped(count), 0, EncodeOps(OpsOf(hash, src, dst, bs)), if size == 0 then [] else Blocks(src, size), size);
    BlocksLength(dst, bs);
    if count > 1 {
      TooShort(count, Wrapped(count), bs, size);
    }
  }

  lemma TooShort(count: nat, n: nat, bs: nat, size: nat)
    requires 1 < count && n <= count && size < U32_LIMIT && bs >= size + U32_LIMIT
    ensures n * size <= (count - 1) * bs
  {
    var k := count - 1;
    MulMonotone(n, count, size);
    assert count * size == k * size + size;
    MulMonotone(size + U32_LIMIT, bs, k);
    assert k * (size + U32_LIMIT) == k * size + k * U32_LIMIT;
    MulMonotone(1, k, U32_LIMIT);
  }

  lemma MulMonotone(a: nat, b: nat, k: nat)
    requires a <= b
    ensures a * k <= b * k && k * a <= k * b
  {
    assert b * k == a * k + (b - a) * k;
  }

  /** Whatever bytes arrive as a delta for `dst`, the applier never returns another image. */
  lemma NeverAnotherImage(hash: Bytes -> Digest, delta: Bytes, src: Bytes, dst: Bytes)
    requires ReadHeader(delta).Ok? && ReadHeader(delta).value.dst == hash(dst)
    requires Applied(hash, delta, src).Rebuilt?
    requires NoCollision(hash, {dst, Applied(hash, delta, src).image})
    ensures Applied(hash, delta, src).image == dst
  {
    var image := Applied(hash, delta, src).image;
    assert image in {dst, image} && dst in {dst, image};
  }
}
