/**
 * The per-channel buffers of one chunk (src/main.rs:84-96): for chunk `k`
 * and channel `c`, the samples from interleaved index `c + k * chunk_size`
 * on, every `channel_count`-th one, at most `chunk_size` of them, as
 * complex numbers, then padded with zeros to exactly `chunk_size`.
 */
module ChannelExtract {
  import opened Samples
  import opened Iterators
  import opened ChunkPlan

  /** The value a buffer holds for interleaved index `index`: the sample, or zero past the end. */
  function SampleOrZero(data: seq<real>, index: nat): Complex
  {
    if index < |data| then FromReal(data[index]) else Zero
  }

  /**
   * `s.iter().step_by(stride).take(n).map(Complex::from).collect()`,
   * followed by `resize(n, Complex::from(0.0))`.
   */
  function StridedWindow(s: seq<real>, stride: nat, n: nat): (w: seq<Complex>)
    requires 0 < stride
    ensures |w| == n
  {
    Resize(ToComplex(Take(StepBy(s, stride), n)), n, Zero)
  }

  /** Entry `i` of a strided window is the `i`-th strided sample, or zero once `s` has run out. */
  lemma StridedWindowAt(s: seq<real>, stride: nat, n: nat, i: nat)
    requires 0 < stride && i < n
    ensures |StridedWindow(s, stride, n)| == n
    ensures StridedWindow(s, stride, n)[i] == if i * stride < |s| then FromReal(s[i * stride]) else Zero
  {
    var strided := StepBy(s, stride);
    var mapped := ToComplex(Take(strided, n));
    StepByCovers(s, stride, i);
    if i < |strided| {
      assert mapped[i] == FromReal(strided[i]);
    }
  }

  /** The same, for a window read from `data[start..]`, in terms of indices into `data`. */
  lemma StridedWindowFrom(data: seq<real>, start: nat, stride: nat, n: nat, i: nat)
    requires start <= |data| && 0 < stride && i < n
    ensures StridedWindow(data[start..], stride, n)[i] == SampleOrZero(data, start + i * stride)
  {
    var p := i * stride;
    StridedWindowAt(data[start..], stride, n, i);
    if p < |data| - start {
      assert data[start..][p] == data[start + p];
    }
  }

  /** The interleaved index that entry `i` of that channel's buffer is read from. */
  function ReadIndex(chunkSize: nat, channelCount: nat, chunk: nat, channel: nat, i: nat): nat
  {
    SliceStart(chunkSize, chunk, channel) + i * channelCount
  }

  /**
   * One channel's buffer for one chunk: whether or not the strided read runs
   * out of samples, it has exactly `chunk_size` entries.
   */
  function ChannelBuffer(data: seq<real>, chunkSize: nat, channelCount: nat, chunk: nat, channel: nat): (buffer: seq<Complex>)
    requires 0 < channelCount
    requires SliceStart(chunkSize, chunk, channel) <= |data|
    ensures |buffer| == chunkSize
  {
    StridedWindow(data[SliceStart(chunkSize, chunk, channel)..], channelCount, chunkSize)
  }

  /**
   * Entry `i` of channel `channel`'s buffer for chunk `chunk` is the sample
   * at interleaved index `channel + chunk * chunk_size + i * channel_count`,
   * or zero (the padding) where that index is past the end of the stream.
   */
  lemma ChannelBufferAt(data: seq<real>, chunkSize: nat, channelCount: nat, chunk: nat, channel: nat, i: nat)
    requires 0 < channelCount
    requires SliceStart(chunkSize, chunk, channel) <= |data|
    requires i < chunkSize
    ensures ChannelBuffer(data, chunkSize, channelCount, chunk, channel)[i] ==
      SampleOrZero(data, ReadIndex(chunkSize, channelCount, chunk, channel, i))
  {
    StridedWindowFrom(data, SliceStart(chunkSize, chunk, channel), channelCount, chunkSize, i);
  }

  /**
   * The same buffer written index by index: `n` entries read from
   * interleaved index `start` on, `stride` apart, each the sample there or
   * zero past the end.
   */
  function Gather(data: seq<real>, start: nat, stride: nat, n: nat): (g: seq<Complex>)
    ensures |g| == n
    decreases n
  {
    if n == 0 then [] else [SampleOrZero(data, start)] + Gather(data, start + stride, stride, n - 1)
  }

  /** Entry `i` of a gathered run is read from index `start + i * stride`. */
  lemma {:induction false} GatherAt(data: seq<real>, start: nat, stride: nat, n: nat, i: nat)
    requires i < n
    ensures Gather(data, start, stride, n)[i] == SampleOrZero(data, start + i * stride)
    decreases n
  {
    if i > 0 {
      GatherAt(data, start + stride, stride, n - 1, i - 1);
      MulSucc(i - 1, stride);
    }
  }

  /** The iterator chain and the index-by-index reading build the same buffer. */
  lemma ChannelBufferIsGather(data: seq<real>, chunkSize: nat, channelCount: nat, chunk: nat, channel: nat)
    requires 0 < channelCount
    requires SliceStart(chunkSize, chunk, channel) <= |data|
    ensures ChannelBuffer(data, chunkSize, channelCount, chunk, channel) ==
      Gather(data, SliceStart(chunkSize, chunk, channel), channelCount, chunkSize)
  {
    var buffer := ChannelBuffer(data, chunkSize, channelCount, chunk, channel);
    var gathered := Gather(data, SliceStart(chunkSize, chunk, channel), channelCount, chunkSize);
    forall i | 0 <= i < chunkSize
      ensures buffer[i] == gathered[i]
    {
      ChannelBufferAt(data, chunkSize, channelCount, chunk, channel, i);
      GatherAt(data, SliceStart(chunkSize, chunk, channel), channelCount, chunkSize, i);
    }
  }

  /** `(0..channel_count).map(...).collect()`: the buffers of every channel of one chunk. */
  function ChannelBuffers(data: seq<real>, chunkSize: nat, channelCount: nat, chunk: nat): (buffers: seq<seq<Complex>>)
    requires channelCount == 0 || SliceStart(chunkSize, chunk, channelCount - 1) <= |data|
    ensures |buffers| == channelCount
    ensures forall c :: 0 <= c < channelCount ==> |buffers[c]| == chunkSize
  {
    seq(channelCount, c requires 0 <= c < channelCount => ChannelBuffer(data, chunkSize, channelCount, chunk, c))
  }
}
