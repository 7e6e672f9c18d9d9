/**
 * Sanitization stages of the lethe wiper (src/sanitization/stage.rs) and the
 * reference block sequence a stage's stream must produce.
 *
 * A stage is one pass of a wipe: either a constant byte or a seeded
 * pseudorandom pattern. Its stream hands out the device image one block at a
 * time; `Blocks` below says, as a plain value, which blocks those are.
 */
module Stages {

  // Unsigned integer widths of the source; usize is taken to be 64 bits wide.
  newtype u8 = x: int | 0 <= x < 0x100
  type u64 = x: int | 0 <= x < 0x1_0000_0000_0000_0000
  type usize = x: int | 0 <= x < 0x1_0000_0000_0000_0000

  datatype Option<+T> = None | Some(value: T)

  /** One pass of a wipe: a constant byte, or a pseudorandom pattern from a seed. */
  datatype Stage = Fill(value: u8) | Random(seed: u64)

  /**
   * The seeded generator of the `rand` crate, whose internals are not part of
   * this model. `rand(seed, k, n, i)` is byte i of what a generator seeded
   * from `seed` writes into an n-byte buffer on its k-th fill (counting from
   * 0), after k earlier fills of n bytes each. Being a function, it is
   * deterministic: the same seed and fill count give the same bytes.
   */
  type ByteSource = (u64, nat, nat, nat) -> u8

  /** The n bytes of the generator's k-th fill of an n-byte buffer. */
  function GeneratorFill(rand: ByteSource, seed: u64, k: nat, n: nat): (b: seq<u8>)
    ensures |b| == n
  {
    seq(n, (i: nat) => rand(seed, k, n, i))
  }

  /** The all-zeros pass. */
  function Zero(): (s: Stage)
    ensures s.Fill? && s.value == 0x00
  {
    Fill(0x00)
  }

  /** The all-ones pass. */
  function One(): (s: Stage)
    ensures s.Fill? && s.value == 0xFF
  {
    Fill(0xFF)
  }

  /** A pseudorandom pass that is reproducible from `seed`. */
  function RandomWithSeed(seed: u64): (s: Stage)
    ensures s.Random? && s.seed == seed
  {
    Random(seed)
  }

  function Min(a: int, b: int): int {
    if a <= b then a else b
  }

  /**
   * Position of a stream over `total` bytes in blocks of `block` bytes after k
   * productive advances: each one moves on by the size of its chunk,
   * min(block, total - position).
   */
  function PosAfter(total: u64, block: usize, k: nat): (p: nat)
    ensures p <= total
  {
    if k == 0 then 0
    else
      var q := PosAfter(total, block, k - 1);
      q + Min(block, total - q)
  }

  /** Size of the chunk produced by the advance that starts after k productive advances. */
  function Chunk(total: u64, block: usize, k: nat): (n: nat)
    ensures n <= block
    ensures PosAfter(total, block, k) + n <= total
  {
    Min(block, total - PosAfter(total, block, k))
  }

  /**
   * Number of blocks a stream over `total` bytes yields: one per productive
   * advance, each taking min(block, what is left). This is ceil(total / block),
   * see NumBlocksIsCeil.
   */
  function NumBlocks(total: u64, block: usize): nat
    requires block > 0
    decreases total
  {
    if total == 0 then 0 else 1 + NumBlocks(total - Min(block, total), block)
  }

  /** Length of the final block: total mod block when that is non-zero, a full block otherwise. */
  function LastBlockSize(total: u64, block: usize): nat
    requires block > 0
  {
    if total % block == 0 then block else total % block
  }

  /** The k-th block a stream of `stage` yields. */
  function BlockAt(stage: Stage, total: u64, block: usize, rand: ByteSource, k: nat): (b: seq<u8>)
    ensures |b| == Chunk(total, block, k)
  {
    var n := Chunk(total, block, k);
    match stage
    case Fill(v) => seq(n, _ => v)
    case Random(seed) => GeneratorFill(rand, seed, k, block)[..n]
  }

  /** The whole block sequence of a stream of `stage`, the reference for its behaviour. */
  function Blocks(stage: Stage, total: u64, block: usize, rand: ByteSource): (bs: seq<seq<u8>>)
    requires block > 0
    ensures |bs| == NumBlocks(total, block)
  {
    seq(NumBlocks(total, block), (k: nat) => BlockAt(stage, total, block, rand, k))
  }

  /** The bytes of a block sequence, in order. */
  function Flatten(bs: seq<seq<u8>>): seq<u8>
  {
    if bs == [] then [] else Flatten(bs[..|bs| - 1]) + bs[|bs| - 1]
  }

  /**
   * After k productive advances the blocks still to come are those of the
   * bytes not yet covered, and once ceil(total / block) advances are done the
   * whole extent is covered.
   */
  lemma {:induction false} RemainingBlocks(total: u64, block: usize, k: nat)
    requires block > 0
    ensures k <= NumBlocks(total, block) ==>
              NumBlocks(total - PosAfter(total, block, k), block) == NumBlocks(total, block) - k
    ensures k >= NumBlocks(total, block) ==> PosAfter(total, block, k) == total
  {
    if k > 0 {
      RemainingBlocks(total, block, k - 1);
      var p := PosAfter(total, block, k - 1);
      if k - 1 < NumBlocks(total, block) {
        assert total - p > 0;
        assert total - PosAfter(total, block, k) == (total - p) - Min(block, total - p);
      }
    }
  }

  /** An advance is productive (position still short of total) exactly for the first ceil(total / block) advances. */
  lemma ProductiveIff(total: u64, block: usize, k: nat)
    requires block > 0
    ensures PosAfter(total, block, k) < total <==> k < NumBlocks(total, block)
  {
    RemainingBlocks(total, block, k);
  }

  lemma DivUnique(a: nat, b: nat, q: nat, r: nat)
    requires b > 0 && r < b && a == q * b + r
    ensures a / b == q && a % b == r
  {
    var q', r' := a / b, a % b;
    assert a == q' * b + r';
    assert (q + 1) * b == q * b + b;
    assert (q' + 1) * b == q' * b + b;
    if q' > q {
      MulMonotone(q + 1, q', b);
    } else if q' < q {
      MulMonotone(q' + 1, q, b);
    }
  }

  lemma MulMonotone(a: nat, b: nat, c: nat)
    requires a <= b
    ensures a * c <= b * c
  {
  }

  /** Taking one block off leaves the remainder modulo the block size unchanged. */
  lemma ModMinusBlock(a: nat, b: nat)
    requires 0 < b <= a
    ensures (a - b) % b == a % b
  {
    var q, r := a / b, a % b;
    assert a == q * b + r;
    assert (q - 1) * b == q * b - b;
    DivUnique(a - b, b, q - 1, r);
  }

  /** Bytes left before the advance that starts after k productive advances, modulo the block size, are total's. */
  lemma {:induction false} RemainderMod(total: u64, block: usize, k: nat)
    requires block > 0
    requires k < NumBlocks(total, block)
    ensures (total - PosAfter(total, block, k)) % block == total % block
  {
    if k > 0 {
      RemainderMod(total, block, k - 1);
      var p := PosAfter(total, block, k - 1);
      ProductiveIff(total, block, k);
      assert Min(block, total - p) == block;
      ModMinusBlock(total - p, block);
    }
  }

  /** Number of blocks is ceil(total / block). */
  lemma {:induction false} NumBlocksIsCeil(total: u64, block: usize)
    requires block > 0
    ensures NumBlocks(total, block) == (total + block - 1) / block
    decreases total
  {
    if total == 0 {
      DivUnique(block - 1, block, 0, block - 1);
    } else if total <= block {
      DivUnique(total + block - 1, block, 1, total - 1);
    } else {
      NumBlocksIsCeil(total - block, block);
      var q, r := (total - 1) / block, (total - 1) % block;
      DivUnique(total - 1, block, q, r);
      assert (q + 1) * block == q * block + block;
      DivUnique(total + block - 1, block, q + 1, r);
    }
  }

  /** With a positive block size, position after k productive advances is min(k * block, total). */
  lemma {:induction false} PosClosedForm(total: u64, block: usize, k: nat)
    requires block > 0
    ensures PosAfter(total, block, k) == Min(k * block, total)
  {
    if k > 0 {
      PosClosedForm(total, block, k - 1);
      assert k * block == (k - 1) * block + block;
    }
  }

  /**
   * Every block but the last is a full block; the last is total mod block
   * bytes when that is non-zero; once the stream is exhausted chunks are empty.
   */
  lemma ChunkSizes(total: u64, block: usize, k: nat)
    requires block > 0
    ensures k + 1 < NumBlocks(total, block) ==> Chunk(total, block, k) == block
    ensures k + 1 == NumBlocks(total, block) ==> Chunk(total, block, k) == LastBlockSize(total, block)
    ensures k >= NumBlocks(total, block) ==> Chunk(total, block, k) == 0
  {
    ProductiveIff(total, block, k);
    ProductiveIff(total, block, k + 1);
    if k + 1 == NumBlocks(total, block) {
      RemainingBlocks(total, block, k);
      RemainderMod(total, block, k);
      var rem := total - PosAfter(total, block, k);
      assert 0 < rem <= block;
      if rem < block {
        DivUnique(rem, block, 0, rem);
      } else {
        DivUnique(rem, block, 1, 0);
      }
    }
  }

  /** The shape of a full run: how many blocks, and how long each one is. */
  lemma BlocksShape(stage: Stage, total: u64, block: usize, rand: ByteSource)
    requires block > 0
    ensures |Blocks(stage, total, block, rand)| == NumBlocks(total, block)
    ensures total == 0 <==> Blocks(stage, total, block, rand) == []
    ensures forall k :: 0 <= k && k + 1 < NumBlocks(total, block) ==> |Blocks(stage, total, block, rand)[k]| == block
    ensures total > 0 ==> |Blocks(stage, total, block, rand)[NumBlocks(total, block) - 1]| == LastBlockSize(total, block)
  {
    forall k | 0 <= k < NumBlocks(total, block)
      ensures |Blocks(stage, total, block, rand)[k]| ==
              if k + 1 < NumBlocks(total, block) then block else LastBlockSize(total, block)
    {
      ChunkSizes(total, block, k);
    }
  }

  /** The bytes of the first k blocks a stream of `stage` yields, laid end to end. */
  function Image(stage: Stage, total: u64, block: usize, rand: ByteSource, k: nat): seq<u8>
  {
    if k == 0 then [] else Image(stage, total, block, rand, k - 1) + BlockAt(stage, total, block, rand, k - 1)
  }

  /** The first k blocks cover exactly the bytes before position PosAfter(k). */
  lemma {:induction false} ImageLength(stage: Stage, total: u64, block: usize, rand: ByteSource, k: nat)
    ensures |Image(stage, total, block, rand, k)| == PosAfter(total, block, k)
  {
    if k > 0 {
      ImageLength(stage, total, block, rand, k - 1);
    }
  }

  /** The image of the first k blocks is the first k reference blocks flattened. */
  lemma {:induction false} ImageIsFlatten(stage: Stage, total: u64, block: usize, rand: ByteSource, k: nat)
    requires block > 0
    requires k <= NumBlocks(total, block)
    ensures Image(stage, total, block, rand, k) == Flatten(Blocks(stage, total, block, rand)[..k])
  {
    if k > 0 {
      ImageIsFlatten(stage, total, block, rand, k - 1);
      FlattenSnoc(Blocks(stage, total, block, rand), k - 1);
    }
  }

  /** Flattening one more block of a sequence appends that block. */
  lemma FlattenSnoc(bs: seq<seq<u8>>, k: nat)
    requires k < |bs|
    ensures Flatten(bs[..k + 1]) == Flatten(bs[..k]) + bs[k]
  {
    assert bs[..k + 1][..k] == bs[..k];
  }

  /** The blocks of a full run add up to exactly `total` bytes. */
  lemma Coverage(stage: Stage, total: u64, block: usize, rand: ByteSource)
    requires block > 0
    ensures |Flatten(Blocks(stage, total, block, rand))| == total
  {
    var bs := Blocks(stage, total, block, rand);
    var n := NumBlocks(total, block);
    ImageIsFlatten(stage, total, block, rand, n);
    ImageLength(stage, total, block, rand, n);
    assert bs[..n] == bs;
    RemainingBlocks(total, block, n);
  }

  /** Flattening blocks made only of byte v gives only byte v. */
  lemma {:induction false} FlattenConstant(bs: seq<seq<u8>>, v: u8)
    requires forall j :: 0 <= j < |bs| ==> bs[j] == seq(|bs[j]|, _ => v)
    ensures Flatten(bs) == seq(|Flatten(bs)|, _ => v)
  {
    if bs != [] {
      var init := bs[..|bs| - 1];
      FlattenConstant(init, v);
    }
  }

  /** A fill pass writes `value` over the whole extent, the short final block included. */
  lemma FillContent(value: u8, total: u64, block: usize, rand: ByteSource)
    requires block > 0
    ensures Flatten(Blocks(Fill(value), total, block, rand)) == seq(total, _ => value)
  {
    var bs := Blocks(Fill(value), total, block, rand);
    FlattenConstant(bs, value);
    Coverage(Fill(value), total, block, rand);
  }

  /** The zero pass writes 0x00 everywhere and the one pass 0xFF everywhere. */
  lemma ZeroAndOneContent(total: u64, block: usize, rand: ByteSource)
    requires block > 0
    ensures Flatten(Blocks(Zero(), total, block, rand)) == seq(total, _ => 0x00)
    ensures Flatten(Blocks(One(), total, block, rand)) == seq(total, _ => 0xFF)
  {
    FillContent(0x00, total, block, rand);
    FillContent(0xFF, total, block, rand);
  }

  /**
   * The k-th block of a seeded pass is the start of the generator's k-th fill
   * of a whole block: the generator always fills block_size bytes, even for a
   * short final block, so the pattern depends only on seed, k and block size.
   */
  lemma SeededBlocks(seed: u64, total: u64, block: usize, rand: ByteSource, k: nat)
    requires block > 0
    requires k < NumBlocks(total, block)
    ensures Blocks(RandomWithSeed(seed), total, block, rand)[k] <= GeneratorFill(rand, seed, k, block)
    ensures |Blocks(RandomWithSeed(seed), total, block, rand)[k]| > 0
  {
    ProductiveIff(total, block, k);
  }

  /**
   * The source never checks block_size > 0: with a zero block size and a
   * non-empty extent every advance is productive, yields an empty chunk and
   * leaves the position at 0, so the stream never ends.
   */
  lemma {:induction false} ZeroBlockNeverEnds(total: u64, k: nat)
    requires total > 0
    ensures PosAfter(total, 0, k) == 0 < total
    ensures Chunk(total, 0, k) == 0
  {
    if k > 0 {
      ZeroBlockNeverEnds(total, k - 1);
    }
  }

  const TEST_SIZE: u64 := 10245
  const TEST_BLOCK: usize := 256

  /** The run the source's tests drive: 10245 bytes in 256-byte blocks is 40 full blocks and one of 5 bytes. */
  lemma TestRunShape(stage: Stage, rand: ByteSource)
    ensures |Blocks(stage, TEST_SIZE, TEST_BLOCK, rand)| == 41
    ensures forall k :: 0 <= k < 40 ==> |Blocks(stage, TEST_SIZE, TEST_BLOCK, rand)[k]| == 256
    ensures |Blocks(stage, TEST_SIZE, TEST_BLOCK, rand)[40]| == 5
    ensures |Flatten(Blocks(stage, TEST_SIZE, TEST_BLOCK, rand))| == 10245
  {
    NumBlocksIsCeil(TEST_SIZE, TEST_BLOCK);
    BlocksShape(stage, TEST_SIZE, TEST_BLOCK, rand);
    Coverage(stage, TEST_SIZE, TEST_BLOCK, rand);
  }
}
