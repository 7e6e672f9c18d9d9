/**
 * The driving loop of the stage tests in src/sanitization/stage.rs: pull
 * every block out of a fresh stream and clone it into a byte vector at the
 * running position.
 */
module Drive {
  import opened Stages
  import opened Streams

  /** `v[p..p + |piece|].clone_from_slice(piece)`: overwrite a window of `v`, in place. */
  function Overwrite(v: seq<u8>, p: nat, piece: seq<u8>): (w: seq<u8>)
    requires p + |piece| <= |v|
    ensures |w| == |v|
  {
    v[..p] + piece + v[p + |piece|..]
  }

  /** The window now holds the piece, and the bytes on either side of it are as they were. */
  lemma OverwriteWindow(v: seq<u8>, p: nat, piece: seq<u8>)
    requires p + |piece| <= |v|
    ensures var w := Overwrite(v, p, piece);
            w[..p] == v[..p] && w[p..p + |piece|] == piece && w[p + |piece|..] == v[p + |piece|..]
  {
  }

  /**
   * Reference for the driving loop: the vector after the first `k` blocks of
   * the reference sequence have each been cloned in at their own offset.
   */
  function FillRef(v: seq<u8>, stage: Stage, total: u64, block: usize, rand: ByteSource, k: nat): (w: seq<u8>)
    requires total <= |v|
    ensures |w| == |v|
  {
    if k == 0 then v
    else
      Overwrite(FillRef(v, stage, total, block, rand, k - 1),
                PosAfter(total, block, k - 1), BlockAt(stage, total, block, rand, k - 1))
  }

  /** Overwriting the bytes right after a written prefix extends that prefix. */
  lemma Splice(written: seq<u8>, v: seq<u8>, piece: seq<u8>, p: nat, q: nat)
    requires |written| == p && q == p + |piece| <= |v|
    ensures Overwrite(written + v[p..], p, piece) == (written + piece) + v[q..]
  {
    var cur := written + v[p..];
    assert cur[..p] == written;
    assert cur[q..] == v[q..];
  }

  /**
   * After k blocks the vector holds the concatenated first k blocks, followed
   * by the untouched rest of the original vector.
   */
  lemma {:induction false} FillRefIsImage(v: seq<u8>, stage: Stage, total: u64, block: usize, rand: ByteSource, k: nat)
    requires total <= |v|
    ensures FillRef(v, stage, total, block, rand, k) == Image(stage, total, block, rand, k) + v[PosAfter(total, block, k)..]
  {
    if k > 0 {
      FillRefIsImage(v, stage, total, block, rand, k - 1);
      ImageLength(stage, total, block, rand, k - 1);
      Splice(Image(stage, total, block, rand, k - 1), v, BlockAt(stage, total, block, rand, k - 1),
             PosAfter(total, block, k - 1), PosAfter(total, block, k));
    }
  }

  /**
   * Once k productive advances have reached the end (and the k-th was still
   * short of it), the vector holds the whole reference block sequence laid
   * end to end, followed by the untouched rest.
   */
  lemma FillDone(v: seq<u8>, stage: Stage, total: u64, block: usize, rand: ByteSource, k: nat)
    requires block > 0 && total <= |v|
    requires PosAfter(total, block, k) == total
    requires k > 0 ==> PosAfter(total, block, k - 1) < total
    ensures k == NumBlocks(total, block)
    ensures FillRef(v, stage, total, block, rand, k) == Flatten(Blocks(stage, total, block, rand)) + v[total..]
  {
    FillRefIsImage(v, stage, total, block, rand, k);
    if k > 0 {
      ProductiveIff(total, block, k - 1);
    }
    RemainingBlocks(total, block, k);
    ImageIsFlatten(stage, total, block, rand, k);
    assert Blocks(stage, total, block, rand)[..k] == Blocks(stage, total, block, rand);
  }

  /**
   * The test helper `fill`, over `total` bytes in blocks of `block` bytes:
   * while the stream yields a chunk, clone it into `v` at the running
   * position. Afterwards the first `total` bytes are exactly the reference
   * block sequence laid end to end, and the rest of the vector is as before.
   */
  method FillFrom(v: seq<u8>, stage: Stage, total: u64, block: usize, rand: ByteSource) returns (filled: seq<u8>)
    requires block > 0 && total <= |v|
    ensures filled == Flatten(Blocks(stage, total, block, rand)) + v[total..]
  {
    filled := v;
    var stream := new SanitizationStream(stage, total, block, rand);
    var position: nat := 0;
    while true
      invariant stream.Valid() && !stream.eof
      invariant position == stream.position
      invariant filled == FillRef(v, stage, total, block, rand, stream.count)
      decreases total - stream.position
    {
      var chunk := stream.Next();
      if chunk.None? {
        break;
      }
      var piece := chunk.value;
      filled := Overwrite(filled, position, piece);
      position := position + |piece|;
    }
    FillDone(v, stage, total, block, rand, stream.count);
  }

  /** create_test_vec: the bytes 0, 1, ..., 255, 0, 1, ... over the test size. */
  function CreateTestVec(): (v: seq<u8>)
    ensures |v| == TEST_SIZE
    ensures forall i :: 0 <= i < |v| ==> v[i] as int == i % 256
  {
    seq(TEST_SIZE, i => (i % 256) as u8)
  }

  /**
   * What the fill and seeded-random tests check of their stage: two vectors
   * filled from the same stage hold the same bytes, and a fill stage leaves
   * nothing but its value.
   */
  method FillTwice(stage: Stage, rand: ByteSource) returns (data1: seq<u8>, data2: seq<u8>)
    ensures |data1| == |data2| == TEST_SIZE
    ensures data1 == data2
    ensures stage.Fill? ==> forall i :: 0 <= i < |data1| ==> data1[i] == stage.value
  {
    var size, block := TEST_SIZE, TEST_BLOCK;
    data1 := FillFrom(CreateTestVec(), stage, size, block, rand);
    data2 := FillFrom(CreateTestVec(), stage, size, block, rand);
    Coverage(stage, size, block, rand);
    if stage.Fill? {
      FillContent(stage.value, size, block, rand);
    }
  }
}
