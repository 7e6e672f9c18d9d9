# Sanitization stream of the lethe wiper, in Dafny

lethe wipes a storage device in passes called *stages*. A stage is either
a constant byte (`Stage::Fill`: `zero` is 0x00, `one` is 0xFF) or a seeded
pseudorandom pattern (`Stage::Random`). `Stage::stream(total_size,
block_size)` turns a stage into a `SanitizationStream`. That stream is a
small state machine with four pieces of state:

- a position;
- the size of the current block;
- an end-of-stream flag;
- one reused buffer of `block_size` bytes, which a seeded generator
  refills on every productive advance.

It is driven like a streaming iterator: `advance` moves on by one block,
and `get` shows the current block or `None` once the stream has ended.

The model has three modules:

- `Stages` (`stage.dfy`):
  - the `Stage` datatype and its constructors;
  - the generator, as a deterministic function parameter;
  - a pure *reference block sequence* `Blocks(stage, total, block, rand)`, which says as a plain value which blocks a stream must produce;
  - the lemmas about that sequence: how many blocks there are, how long each one is, that together they cover the whole extent, what a fill pass writes, and how a seeded pass relates to its generator.
- `Streams` (`stream.dfy`): the stream as a class whose fields mirror `StreamState` and `StreamKind`.
  - The constructor models `Stage::stream`.
  - `Advance` is a method that updates the fields and the buffer in place.
  - `Get` is a function that reads them.
  - `Valid()` ties the state after k productive advances to the reference sequence, so every block `Get` shows is the k-th reference block.
- `Drive` (`drive.dfy`): the source's test helper `fill`. It is a `while let Some(chunk) = stream.next()` loop that clones each chunk into a vector. It is proved to leave exactly the flattened reference sequence in the first `total` bytes. Then the fill test and the seeded-random test: two fills from the same stage agree, and a fill stage leaves only its value.

`usize` is taken to be 64 bits wide, and `u64`/`usize` are subset types of
`int`. Every assignment to a `u64` field is checked against the bound, so
the model shows that `position += chunk_size` cannot overflow: the
position never passes `total_size`.

The source never checks `block_size > 0`. With a block size of 0 and a
non-empty extent, every advance is productive, yields an empty chunk and
leaves the position at 0, so the stream never ends (`ZeroBlockNeverEnds`).
The class accepts a block size of 0, as the source does. `block_size > 0`
is required only where the block count, coverage or termination of the
driving loop is proved.

Nothing in this project was executed; the properties below are proved
by the Dafny verifier.

## Model

| member | source | states |
|---|---|---|
| Stages.Zero | src/sanitization/stage.rs:34-36 | `zero()` is a fill stage whose byte is 0x00 |
| Stages.One | src/sanitization/stage.rs:38-40 | `one()` is a fill stage whose byte is 0xFF |
| Stages.RandomWithSeed | src/sanitization/stage.rs:42-44 | `random_with_seed(s)` is a random stage carrying exactly seed `s` |
| Stages.GeneratorFill | src/sanitization/stage.rs:87 | one `fill_bytes` call writes exactly as many bytes as the buffer holds (n) |
| Stages.PosAfter | src/sanitization/stage.rs:79-91 | the position after any number of productive advances never exceeds `total_size` |
| Stages.Chunk | src/sanitization/stage.rs:80-82 | a chunk is at most `block_size` bytes and never runs past `total_size` |
| Stages.BlockAt | src/sanitization/stage.rs:80-88 | the k-th block is exactly as long as the k-th chunk |
| Stages.Blocks | src/sanitization/stage.rs:79-94 | the reference sequence has one block per productive advance |
| Stages.RemainingBlocks | src/sanitization/stage.rs:79-91 | after k productive advances the blocks still to come are those of the bytes not yet covered; after NumBlocks advances the position equals `total_size` |
| Stages.ProductiveIff | src/sanitization/stage.rs:79 | an advance is productive (position short of `total_size`) if and only if fewer than NumBlocks advances came before it |
| Stages.NumBlocksIsCeil | src/sanitization/stage.rs:79-91 | a full run yields ceil(total / block) blocks |
| Stages.PosClosedForm | src/sanitization/stage.rs:80-91 | the position after k productive advances is min(k * block, total) |
| Stages.RemainderMod | src/sanitization/stage.rs:80-82 | while blocks remain, the bytes left are congruent to `total_size` modulo `block_size` |
| Stages.ChunkSizes | src/sanitization/stage.rs:80-82 | every chunk before the last is a full block; the last is `total mod block` bytes, or a full block when that is 0; chunks after the end are empty |
| Stages.BlocksShape | src/sanitization/stage.rs:80-82 | the reference sequence has NumBlocks blocks. It is empty if and only if `total_size` is 0. All blocks but the last are `block_size` long, and the last has the final-block size |
| Stages.ImageLength | src/sanitization/stage.rs:90-91 | the first k blocks together are exactly as long as the position after k advances |
| Stages.ImageIsFlatten | src/sanitization/stage.rs:90-91 | the first k blocks laid end to end are the first k reference blocks flattened |
| Stages.Coverage | src/sanitization/stage.rs:79-91 | the block lengths of a full run sum to `total_size` |
| Stages.FillContent | src/sanitization/stage.rs:53 | a fill pass writes its value over the whole extent, the short final block included |
| Stages.ZeroAndOneContent | src/sanitization/stage.rs:34-40 | the zero pass writes 0x00 everywhere and the one pass 0xFF everywhere |
| Stages.SeededBlocks | src/sanitization/stage.rs:56-59 | each block of a seeded pass is non-empty and a prefix of the generator's k-th fill of a whole `block_size` buffer, so it depends only on seed, k and block size |
| Stages.ZeroBlockNeverEnds | src/sanitization/stage.rs:79-91 | with `block_size` 0 and a non-empty extent, every chunk is empty and the position stays 0, short of the end |
| Stages.TestRunShape | src/sanitization/stage.rs:110-111 | the test run of 10245 bytes in 256-byte blocks has 41 blocks: 40 of 256 bytes and a last one of 5, covering 10245 bytes |
| Streams.SanitizationStream.constructor | src/sanitization/stage.rs:50-72 | a new stream is valid. Its position is 0, `eof` is false and the current block size is 0. Its buffer is fresh and holds exactly `block_size` bytes: the fill value repeated, or zeros for a seeded stage |
| Streams.SanitizationStream.Advance | src/sanitization/stage.rs:78-95 | validity is kept. A productive advance sets the chunk to min(block, total - position), adds it to the position, and for a seeded stage refills the whole buffer with the generator's next fill. Otherwise only `eof` is set, and nothing else changes. A fill stage's buffer is never touched, and `eof` is never cleared |
| Streams.SanitizationStream.Get | src/sanitization/stage.rs:97-103 | returns `None` if and only if `eof` is set. Before the first advance it returns an empty block; afterwards it returns the reference block of the latest productive advance |
| Streams.SanitizationStream.Next | src/sanitization/stage.rs:174 | advance then get. A productive step yields the next reference block and moves the position by its length; otherwise it yields `None` and the position stays |
| Streams.FillBytes | src/sanitization/stage.rs:87 | after the generator writes into the buffer, the buffer holds exactly the generated bytes |
| Drive.Overwrite | src/sanitization/stage.rs:176 | cloning a chunk into a window of the vector keeps the vector's length |
| Drive.OverwriteWindow | src/sanitization/stage.rs:176 | after the clone, the window holds exactly the chunk, and the bytes before and after it are unchanged |
| Drive.FillRef | src/sanitization/stage.rs:173-177 | the reference for the loop: the vector after the first k reference blocks are cloned in, each at its reference position. Its contract says the vector keeps its length, and FillRefIsImage gives the content |
| Drive.FillRefIsImage | src/sanitization/stage.rs:173-177 | after k chunks are cloned in, the vector is the first k blocks laid end to end, followed by the untouched rest of the original vector |
| Drive.FillDone | src/sanitization/stage.rs:173-178 | when the loop stops (the stream reached `total_size`), exactly NumBlocks chunks were taken, and the vector holds the whole flattened reference sequence followed by the untouched rest |
| Drive.FillFrom | src/sanitization/stage.rs:170-179 | the driving loop terminates. Afterwards the first `total` bytes are the flattened reference sequence, and the remaining bytes are unchanged |
| Drive.CreateTestVec | src/sanitization/stage.rs:166-168 | the test vector has 10245 bytes, and byte i is i mod 256 |
| Drive.FillTwice | src/sanitization/stage.rs:114-125 | two vectors filled from the same stage have 10245 bytes each and are equal; a fill stage leaves only its value |

## Left out

- `Stage::random` (src/sanitization/stage.rs:46-48) draws its seed from `thread_rng`, an entropy source outside this model. The seeded constructor it calls is modelled.
- The `rand` crate's `StdRng`, `seed_from_u64` and `fill_bytes` are not part of this model. The generator is the parameter `rand: ByteSource`, a deterministic function of seed, fill count, buffer length and byte index. The generator state is `Rng(seed, fills)`.
- The `streaming_iterator` crate is not part of this model. Its `next` is taken as advance followed by get (`Next`).
- The statistical parts of the tests are not modelled: the "random data differs from the test vector", "fewer than 1% of bytes unchanged" and "different seeds differ" assertions (src/sanitization/stage.rs:134-139, 146-150), and the zlib entropy test (src/sanitization/stage.rs:153-164, 181-189). They depend on the generator's output and on floating point, and the generator is abstract here.
- Drive.FillTwice: it states the determinism of the seeded-random test (data1 == data2) but none of that test's statistical assertions.
- Drive.FillFrom: it takes the extent and block size as parameters, where `fill` uses the test constants. It requires the vector to be at least `total` bytes long. `fill` is only ever given a vector of exactly that length; on a shorter one the Rust slice would panic, and that panic is not modelled.
- Drive.FillFrom: the test vector is modelled as a sequence value that the loop reassigns, not as a `Vec<u8>` updated in place through a mutable borrow. The mutable borrow of the stage is not modelled either, since `fill` never changes the stage.
- `usize` is taken as 64 bits. On a 32-bit target the casts at src/sanitization/stage.rs:80-82 and 91 still cannot lose bits, because a chunk is at most `block_size`.
- The `Debug` derivations and the storage and command-line parts of the program (src/storage, src/main.rs) are not part of this model.
