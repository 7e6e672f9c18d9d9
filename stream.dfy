/**
 * The sanitization stream of src/sanitization/stage.rs: a small state machine
 * that hands out a stage's pattern one block at a time through a single
 * reused buffer of block_size bytes.
 */
module Streams {
  import opened Stages

  /**
   * State of the seeded generator. The `rand` crate's generator is determined
   * by its seed and by how many block-sized fills it has done so far.
   */
  datatype Rng = Rng(seed: u64, fills: nat)

  /** How the buffer is refreshed on each advance: not at all, or by the generator. */
  datatype StreamKind = FillKind | RandomKind(gen: Rng)

  class SanitizationStream {
    const totalSize: u64
    const blockSize: usize
    var position: u64
    const buf: array<u8>
    var currentBlockSize: usize
    var eof: bool
    var kind: StreamKind
    const rand: ByteSource

    /** The stage this stream was made from. */
    ghost const stage: Stage
    /** Number of productive advances so far. */
    ghost var count: nat

    ghost predicate Valid()
      reads this, buf
    {
      && buf.Length == blockSize
      && position == PosAfter(totalSize, blockSize, count)
      && currentBlockSize == (if count == 0 then 0 else Chunk(totalSize, blockSize, count - 1))
      && (count > 0 ==> PosAfter(totalSize, blockSize, count - 1) < totalSize)
      && (eof ==> position == totalSize)
      && match stage
         case Fill(v) =>
           kind == FillKind && buf[..] == seq(blockSize, _ => v)
         case Random(seed) =>
           && kind == RandomKind(Rng(seed, count))
           && buf[..] == if count == 0 then seq(blockSize, _ => 0) else GeneratorFill(rand, seed, count - 1, blockSize)
    }

    /** Stage::stream: a fresh stream over `totalSize` bytes in blocks of `blockSize` bytes. */
    constructor (stage: Stage, totalSize: u64, blockSize: usize, rand: ByteSource)
      ensures Valid() && fresh(buf)
      ensures this.stage == stage && this.totalSize == totalSize && this.blockSize == blockSize && this.rand == rand
      ensures position == 0 && currentBlockSize == 0 && !eof && count == 0
      ensures buf.Length == blockSize
    {
      this.totalSize := totalSize;
      this.blockSize := blockSize;
      this.rand := rand;
      this.stage := stage;
      position := 0;
      currentBlockSize := 0;
      eof := false;
      count := 0;
      match stage
      case Fill(v) =>
        kind := FillKind;
        buf := new u8[blockSize](_ => v);
      case Random(seed) =>
        kind := RandomKind(Rng(seed, 0));
        buf := new u8[blockSize](_ => 0);
    }

    /**
     * Moves on by one block. While the stream is live and short of the end, the
     * chunk is min(block size, what is left); a seeded stream refills the whole
     * buffer first. Otherwise only `eof` is set, and it is never cleared.
     */
    method Advance()
      requires Valid()
      modifies this, buf
      ensures Valid()
      ensures old(!eof && position < totalSize) ==>
                && !eof && count == old(count) + 1
                && currentBlockSize == Min(blockSize, totalSize - old(position))
                && position == old(position) + currentBlockSize
      ensures !old(!eof && position < totalSize) ==>
                && eof && count == old(count) && position == old(position)
                && currentBlockSize == old(currentBlockSize)
                && kind == old(kind) && buf[..] == old(buf[..])
      ensures stage.Fill? ==> buf[..] == old(buf[..])
      ensures old(!eof && position < totalSize) && stage.Random? ==> buf[..] == GeneratorFill(rand, stage.seed, old(count), blockSize)
    {
      if !eof && position < totalSize {
        var chunkSize := Min(blockSize, totalSize - position);
        match kind {
          case FillKind =>
          case RandomKind(gen) =>
            FillBytes(buf, GeneratorFill(rand, gen.seed, gen.fills, buf.Length));
            kind := RandomKind(Rng(gen.seed, gen.fills + 1));
        }
        currentBlockSize := chunkSize;
        position := position + chunkSize;
        count := count + 1;
      } else {
        eof := true;
      }
    }

    /**
     * The current block: None once the stream has ended, otherwise the first
     * currentBlockSize bytes of the buffer, which is the reference block for
     * the latest productive advance (empty before the first advance).
     */
    function Get(): (r: Option<seq<u8>>)
      requires Valid()
      reads this, buf
      ensures r.None? <==> eof
      ensures r.Some? && count == 0 ==> r.value == []
      ensures r.Some? && count > 0 ==> r.value == BlockAt(stage, totalSize, blockSize, rand, count - 1)
    {
      if !eof then Some(buf[..currentBlockSize]) else None
    }

    /** The streaming iterator's `next`: advance, then look at the current block. */
    method Next() returns (r: Option<seq<u8>>)
      requires Valid()
      modifies this, buf
      ensures Valid()
      ensures r == Get()
      ensures old(!eof && position < totalSize) ==>
                && r.Some? && count == old(count) + 1
                && r.value == BlockAt(stage, totalSize, blockSize, rand, old(count))
                && position == old(position) + |r.value|
      ensures !old(!eof && position < totalSize) ==> r.None? && count == old(count) && position == old(position)
    {
      Advance();
      r := Get();
    }
  }

  /** The generator writing its output over the whole buffer, as `fill_bytes` does. */
  method FillBytes(buf: array<u8>, bytes: seq<u8>)
    requires |bytes| == buf.Length
    modifies buf
    ensures buf[..] == bytes
  {
    var i := 0;
    while i < buf.Length
      invariant 0 <= i <= buf.Length
      invariant buf[..i] == bytes[..i]
    {
      buf[i] := bytes[i];
      i := i + 1;
    }
  }
}
