/**
 * How the interleaved sample stream is cut into chunks, how many frequency
 * rows are kept, and which inputs make the program panic before it has
 * filled the map (src/main.rs:60-112).
 *
 * `chunk_count = len / chunk_size` and `chunk * chunk_size` are written as
 * repeated subtraction and repeated addition (`ChunkCount`, `ChunkOffset`),
 * with lemmas that they are the quotient and the product, so that the
 * proofs about the assembly loop stay within linear arithmetic.
 */
module ChunkPlan {
  import opened Wrappers
  import opened Iterators

  /** The ways the assembly loop can panic, in the order the program reaches them. */
  datatype Panic =
    | DivideByZero                                  // `len / chunk_size` with `chunk_size == 0`
    | SliceStartPastEnd(chunk: nat, channel: nat)   // `data[channel + chunk * chunk_size..]` starts after the end
    | NoChannelBuffer                               // `channel_buffers[0]` with no channels
    | BinRangeInverted                              // `buffer[1..height]` with `height == 0`

  /** `chunk * chunk_size`: the interleaved index at which chunk `chunk` begins. */
  function ChunkOffset(chunk: nat, chunkSize: nat): nat
  {
    if chunk == 0 then 0 else ChunkOffset(chunk - 1, chunkSize) + chunkSize
  }

  lemma {:induction false} ChunkOffsetIsProduct(chunk: nat, chunkSize: nat)
    ensures ChunkOffset(chunk, chunkSize) == chunk * chunkSize
  {
    if chunk > 0 {
      ChunkOffsetIsProduct(chunk - 1, chunkSize);
      MulSucc(chunk - 1, chunkSize);
    }
  }

  /** Later chunks begin later. */
  lemma {:induction false} ChunkOffsetMonotone(a: nat, b: nat, chunkSize: nat)
    requires a <= b
    ensures ChunkOffset(a, chunkSize) <= ChunkOffset(b, chunkSize)
    decreases b
  {
    if a < b {
      ChunkOffsetMonotone(a, b - 1, chunkSize);
    }
  }

  /** `chunk_count = len / chunk_size`: the number of chunks, counted in interleaved samples. */
  function ChunkCount(len: nat, chunkSize: nat): nat
    requires chunkSize > 0
    decreases len
  {
    if len < chunkSize then 0 else 1 + ChunkCount(len - chunkSize, chunkSize)
  }

  /** `chunk_count` is the largest number of whole chunks that fit in the stream. */
  lemma {:induction false} ChunkCountMaximal(len: nat, chunkSize: nat)
    requires chunkSize > 0
    ensures ChunkOffset(ChunkCount(len, chunkSize), chunkSize) <= len
    ensures len < ChunkOffset(ChunkCount(len, chunkSize), chunkSize) + chunkSize
    decreases len
  {
    if chunkSize <= len {
      ChunkCountMaximal(len - chunkSize, chunkSize);
    }
  }

  /** `ChunkCount` is Rust's `len / chunk_size`. */
  lemma ChunkCountIsQuotient(len: nat, chunkSize: nat)
    requires chunkSize > 0
    ensures ChunkCount(len, chunkSize) == len / chunkSize
  {
    var n := ChunkCount(len, chunkSize);
    ChunkCountMaximal(len, chunkSize);
    ChunkOffsetIsProduct(n, chunkSize);
    DivisionUnique(len, chunkSize, n);
  }

  lemma DivisionUnique(len: nat, d: nat, n: nat)
    requires 0 < d && n * d <= len < n * d + d
    ensures n == len / d
  {
    var q, r := len / d, len % d;
    assert len == q * d + r && r < d;
    if n < q {
      MulSucc(n, d);
      MulMonotone(n + 1, q, d);
    } else if q < n {
      MulSucc(q, d);
      MulMonotone(q + 1, n, d);
    }
  }

  /**
   * `height = (chunk_size / 2) / 25`: the mirrored upper half of the
   * spectrum is dropped and then all but the lowest 1/25 of the rest, so
   * `height` is `chunk_size / 50` and every kept bin is inside the buffer.
   */
  function Height(chunkSize: nat): (h: nat)
    ensures 50 * h <= chunkSize < 50 * h + 50
    ensures h <= chunkSize / 2
    ensures chunkSize > 0 ==> h < chunkSize
    ensures 1 <= h <==> 50 <= chunkSize
  {
    (chunkSize / 2) / 25
  }

  /** `channel + chunk * chunk_size`: where channel `channel`'s slice for chunk `chunk` starts. */
  function SliceStart(chunkSize: nat, chunk: nat, channel: nat): nat
  {
    channel + ChunkOffset(chunk, chunkSize)
  }

  /** Every processed chunk lies wholly inside the stream. */
  lemma ChunkFits(len: nat, chunkSize: nat, chunk: nat)
    requires chunkSize > 0 && chunk < ChunkCount(len, chunkSize)
    ensures chunk * chunkSize + chunkSize <= len
    ensures ChunkOffset(chunk, chunkSize) + chunkSize <= len
  {
    ChunkCountMaximal(len, chunkSize);
    ChunkOffsetMonotone(chunk + 1, ChunkCount(len, chunkSize), chunkSize);
    ChunkOffsetIsProduct(chunk, chunkSize);
  }

  /**
   * With at most `chunk_size + 1` channels, the slice that channel `c` of
   * chunk `k` starts from never begins past the end of the stream.
   */
  lemma SliceStartInBounds(len: nat, chunkSize: nat, channelCount: nat, chunk: nat, channel: nat)
    requires chunkSize > 0 && chunk < ChunkCount(len, chunkSize)
    requires channel < channelCount <= chunkSize + 1
    ensures SliceStart(chunkSize, chunk, channel) <= len
  {
    ChunkFits(len, chunkSize, chunk);
  }

  /**
   * The panic, if any, that the iterations from `chunk` on reach first:
   * channel slices (channel 0 upwards), then `channel_buffers[0]`, then
   * `buffer[1..height]`.
   */
  function ChunkPanic(len: nat, chunkSize: nat, channelCount: nat, chunk: nat): Option<Panic>
    requires chunkSize > 0
    decreases ChunkCount(len, chunkSize) - chunk
  {
    if ChunkCount(len, chunkSize) <= chunk then None
    else if 0 < channelCount && len < SliceStart(chunkSize, chunk, channelCount - 1) then
      ChunkFits(len, chunkSize, chunk);
      Some(SliceStartPastEnd(chunk, len - ChunkOffset(chunk, chunkSize) + 1))
    else if channelCount == 0 then Some(NoChannelBuffer)
    else if Height(chunkSize) == 0 then Some(BinRangeInverted)
    else ChunkPanic(len, chunkSize, channelCount, chunk + 1)
  }

  /** The panic, if any, that a run over `len` interleaved samples reaches first. */
  function FirstPanic(len: nat, chunkSize: nat, channelCount: nat): Option<Panic>
  {
    if chunkSize == 0 then Some(DivideByZero)
    else ChunkPanic(len, chunkSize, channelCount, 0)
  }

  /**
   * The inputs on which the assembly loop runs to the end: a non-zero chunk
   * size and, when there is at least one chunk, at least one channel, at
   * least one kept bin, and a last slice start inside the stream.
   */
  predicate NoPanic(len: nat, chunkSize: nat, channelCount: nat)
  {
    0 < chunkSize &&
    (0 < ChunkCount(len, chunkSize) ==>
      0 < channelCount && 1 <= Height(chunkSize) &&
      SliceStart(chunkSize, ChunkCount(len, chunkSize) - 1, channelCount - 1) <= len)
  }

  lemma {:induction false} ChunkPanicNone(len: nat, chunkSize: nat, channelCount: nat, chunk: nat)
    requires chunkSize > 0
    ensures ChunkPanic(len, chunkSize, channelCount, chunk) == None <==>
      (ChunkCount(len, chunkSize) <= chunk || NoPanic(len, chunkSize, channelCount))
    decreases ChunkCount(len, chunkSize) - chunk
  {
    var n := ChunkCount(len, chunkSize);
    if chunk < n {
      ChunkPanicNone(len, chunkSize, channelCount, chunk + 1);
      ChunkOffsetMonotone(chunk, n - 1, chunkSize);
    }
  }

  /** `FirstPanic` finds no panic exactly on the inputs `NoPanic` describes. */
  lemma NoPanicIff(len: nat, chunkSize: nat, channelCount: nat)
    ensures FirstPanic(len, chunkSize, channelCount) == None <==> NoPanic(len, chunkSize, channelCount)
  {
    if chunkSize > 0 {
      ChunkPanicNone(len, chunkSize, channelCount, 0);
    }
  }

  /** What `NoPanic` gives iteration `chunk`: all slices start in range, buffer 0 exists, bins 1..height exist. */
  lemma NoPanicAt(len: nat, chunkSize: nat, channelCount: nat, chunk: nat)
    requires NoPanic(len, chunkSize, channelCount)
    requires chunk < ChunkCount(len, chunkSize)
    ensures 0 < channelCount && 1 <= Height(chunkSize) < chunkSize
    ensures SliceStart(chunkSize, chunk, channelCount - 1) <= len
  {
    ChunkOffsetMonotone(chunk, ChunkCount(len, chunkSize) - 1, chunkSize);
  }

  /**
   * A window of at least 50 samples and between 1 and `chunk_size + 1`
   * channels never panics, whatever the stream length.
   */
  lemma NoPanicWhen(len: nat, chunkSize: nat, channelCount: nat)
    requires 50 <= chunkSize && 1 <= channelCount <= chunkSize + 1
    ensures NoPanic(len, chunkSize, channelCount)
    ensures FirstPanic(len, chunkSize, channelCount) == None
  {
    var n := ChunkCount(len, chunkSize);
    if 0 < n {
      SliceStartInBounds(len, chunkSize, channelCount, n - 1, channelCount - 1);
    }
    NoPanicIff(len, chunkSize, channelCount);
  }

  /**
   * Past the first chunk, one channel too many makes the last chunk's slice
   * start past the end: with 100 samples, chunks of 50 and 52 channels,
   * channel 51 of chunk 1 would start at index 101.
   */
  lemma TooManyChannelsPanics()
    ensures FirstPanic(100, 50, 52) == Some(SliceStartPastEnd(1, 51))
  {
    assert ChunkCount(100, 50) == 2 by {
      assert ChunkCount(50, 50) == 1 + ChunkCount(0, 50);
    }
    assert ChunkOffset(1, 50) == 50;
  }
}
