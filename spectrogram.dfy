/**
 * The chunk loop of src/main.rs:79-112: for each chunk, the channel buffers
 * are extracted, channel 0's buffer is Fourier-transformed in place, bins
 * `1..height` of the result go into the chunk's row of `map_data` as
 * `|Re(X[y])|`, and `global_max` is overwritten with that chunk's peak.
 *
 * The transform itself (rustfft) is not modelled: it is the parameter `fft`,
 * of which only that it keeps the buffer's length is assumed.
 */
module Spectrogram {
  import opened Samples
  import opened Iterators
  import opened ChunkPlan
  import opened ChannelExtract

  /** `fft.process` transforms the buffer in place, so a spectrum is as long as its buffer. */
  ghost predicate LengthPreserving(fft: seq<Complex> -> seq<Complex>)
  {
    forall b :: |fft(b)| == |b|
  }

  /**
   * The spectrum of chunk `chunk`: the transform of channel 0's buffer (the
   * other channels are never used), written with `Gather`, which is that
   * buffer by `ChannelBufferIsGather`.
   */
  function Spectrum(data: seq<real>, chunkSize: nat, channelCount: nat, fft: seq<Complex> -> seq<Complex>, chunk: nat): (spectrum: seq<Complex>)
    requires NoPanic(|data|, chunkSize, channelCount) && chunk < ChunkCount(|data|, chunkSize)
    requires LengthPreserving(fft)
    ensures |spectrum| == chunkSize
  {
    fft(Gather(data, SliceStart(chunkSize, chunk, 0), channelCount, chunkSize))
  }

  /**
   * The peak of bins `1..height`, folded from 1 with `max` left to right
   * (the last bin is folded in last): at least 1, at least every `|Re|` of
   * bins `1..height`, and equal to 1 or to one of them.
   */
  function ChunkPeak(spectrum: seq<Complex>, height: nat): (peak: real)
    requires 1 <= height <= |spectrum|
    ensures 1.0 <= peak
    ensures forall y :: 1 <= y < height ==> Abs(spectrum[y].re) <= peak
    ensures peak == 1.0 || exists y :: 1 <= y < height && peak == Abs(spectrum[y].re)
    decreases height
  {
    if height == 1 then 1.0
    else Max(ChunkPeak(spectrum, height - 1), Abs(spectrum[height - 1].re))
  }

  /** `ChunkPeak` is `buffer[1..height].iter().map(|c| c.re.abs()).fold(1f64, f64::max)`. */
  lemma {:induction false} ChunkPeakIsFold(spectrum: seq<Complex>, height: nat)
    requires 1 <= height <= |spectrum|
    ensures ChunkPeak(spectrum, height) == MaxFold(ReMagnitudes(spectrum[1..height]), 1.0)
    decreases height
  {
    if height > 1 {
      ChunkPeakIsFold(spectrum, height - 1);
      var before := ReMagnitudes(spectrum[1..height - 1]);
      var last := Abs(spectrum[height - 1].re);
      assert ReMagnitudes(spectrum[1..height]) == before + [last];
      MaxFoldSnoc(before, last, 1.0);
    }
  }

  /**
   * The value the loop leaves in `map_data[chunk][bin]`: zero for the DC
   * bin, which is never written, and `|Re|` of the chunk's spectrum at
   * `bin` otherwise; never negative.
   */
  function Cell(data: seq<real>, chunkSize: nat, channelCount: nat, fft: seq<Complex> -> seq<Complex>, chunk: nat, bin: nat): (value: real)
    requires NoPanic(|data|, chunkSize, channelCount) && chunk < ChunkCount(|data|, chunkSize)
    requires bin < Height(chunkSize) && LengthPreserving(fft)
    ensures 0.0 <= value
    ensures bin == 0 ==> value == 0.0
  {
    if bin == 0 then 0.0 else Abs(Spectrum(data, chunkSize, channelCount, fft, chunk)[bin].re)
  }

  /**
   * The `global_max` the loop leaves behind: 1 when there are no chunks,
   * otherwise the peak of the last chunk only (`GlobalMaxOfLastRow`).
   */
  function GlobalMax(data: seq<real>, chunkSize: nat, channelCount: nat, fft: seq<Complex> -> seq<Complex>): (m: real)
    requires NoPanic(|data|, chunkSize, channelCount) && LengthPreserving(fft)
    ensures 1.0 <= m
    ensures ChunkCount(|data|, chunkSize) == 0 ==> m == 1.0
  {
    var n := ChunkCount(|data|, chunkSize);
    if n == 0 then 1.0
    else
      NoPanicAt(|data|, chunkSize, channelCount, n - 1);
      ChunkPeak(Spectrum(data, chunkSize, channelCount, fft, n - 1), Height(chunkSize))
  }

  /**
   * With at least one chunk, `global_max` bounds every cell of the last
   * row and is 1 or one of those cells; rows before it play no part.
   */
  lemma GlobalMaxOfLastRow(data: seq<real>, chunkSize: nat, channelCount: nat, fft: seq<Complex> -> seq<Complex>, last: nat)
    requires NoPanic(|data|, chunkSize, channelCount) && LengthPreserving(fft)
    requires last + 1 == ChunkCount(|data|, chunkSize)
    ensures forall y :: 0 <= y < Height(chunkSize) ==>
      Cell(data, chunkSize, channelCount, fft, last, y) <= GlobalMax(data, chunkSize, channelCount, fft)
    ensures GlobalMax(data, chunkSize, channelCount, fft) == 1.0 ||
      exists y :: 0 <= y < Height(chunkSize) &&
        GlobalMax(data, chunkSize, channelCount, fft) == Cell(data, chunkSize, channelCount, fft, last, y)
  {
    NoPanicAt(|data|, chunkSize, channelCount, last);
    var spectrum := Spectrum(data, chunkSize, channelCount, fft, last);
    assert GlobalMax(data, chunkSize, channelCount, fft) == ChunkPeak(spectrum, Height(chunkSize));
    assert forall y :: 1 <= y < Height(chunkSize) ==>
      Cell(data, chunkSize, channelCount, fft, last, y) == Abs(spectrum[y].re);
  }

  /**
   * The body of `for y in 1..height`: bins `1..height` of `spectrum` go
   * into row `chunk` as `|Re|`; column 0 and every other row stay as they were.
   */
  method WriteRow(mapData: array2<real>, chunk: nat, spectrum: seq<Complex>)
    requires chunk < mapData.Length0 && mapData.Length1 <= |spectrum|
    modifies mapData
    ensures forall y :: 1 <= y < mapData.Length1 ==> mapData[chunk, y] == Abs(spectrum[y].re)
    ensures forall k, y :: 0 <= k < mapData.Length0 && 0 <= y < mapData.Length1 && (k != chunk || y == 0) ==>
      mapData[k, y] == old(mapData[k, y])
  {
    var y := 1;
    while y < mapData.Length1
      invariant 1 <= y
      invariant forall j :: 1 <= j < y && j < mapData.Length1 ==> mapData[chunk, j] == Abs(spectrum[j].re)
      invariant forall k, j :: 0 <= k < mapData.Length0 && 0 <= j < mapData.Length1 && (k != chunk || j == 0 || y <= j) ==>
        mapData[k, j] == old(mapData[k, j])
    {
      mapData[chunk, y] := Abs(spectrum[y].re);
      y := y + 1;
    }
  }

  /**
   * One iteration of the chunk loop: build every channel's buffer, transform
   * channel 0's, return its peak (the new `global_max`) and write bins
   * `1..height` of row `chunk` as `Cell` says; nothing else in `map_data`
   * changes.
   */
  method ProcessChunk(mapData: array2<real>, data: seq<real>, chunkSize: nat, channelCount: nat,
                      fft: seq<Complex> -> seq<Complex>, chunk: nat)
    returns (peak: real)
    requires NoPanic(|data|, chunkSize, channelCount) && chunk < ChunkCount(|data|, chunkSize)
    requires LengthPreserving(fft)
    requires chunk < mapData.Length0 && mapData.Length1 == Height(chunkSize)
    modifies mapData
    ensures peak == ChunkPeak(Spectrum(data, chunkSize, channelCount, fft, chunk), Height(chunkSize))
    ensures forall y :: 1 <= y < mapData.Length1 ==>
      mapData[chunk, y] == Cell(data, chunkSize, channelCount, fft, chunk, y)
    ensures forall k, y :: 0 <= k < mapData.Length0 && 0 <= y < mapData.Length1 && (k != chunk || y == 0) ==>
      mapData[k, y] == old(mapData[k, y])
  {
    NoPanicAt(|data|, chunkSize, channelCount, chunk);
    var channelBuffers := ChannelBuffers(data, chunkSize, channelCount, chunk);
    var buffer := channelBuffers[0];
    ChannelBufferIsGather(data, chunkSize, channelCount, chunk, 0);
    buffer := fft(buffer);
    peak := MaxFold(ReMagnitudes(buffer[1..Height(chunkSize)]), 1.0);
    ChunkPeakIsFold(buffer, Height(chunkSize));
    WriteRow(mapData, chunk, buffer);
  }

  /**
   * The chunk loop. `map_data` is `chunk_count x height`; row `k` holds
   * `Cell(.., k, y)` for every bin `y`, so it depends on channel 0's buffer
   * of chunk `k` only, and `global_max` is `GlobalMax`. The loop panics
   * unless `NoPanic` holds (see `ChunkPlan.FirstPanic`).
   */
  method Assemble(data: seq<real>, chunkSize: nat, channelCount: nat, fft: seq<Complex> -> seq<Complex>)
    returns (mapData: array2<real>, globalMax: real)
    requires NoPanic(|data|, chunkSize, channelCount)
    requires LengthPreserving(fft)
    ensures mapData.Length0 == ChunkCount(|data|, chunkSize)
    ensures mapData.Length1 == Height(chunkSize)
    ensures forall k, y :: 0 <= k < mapData.Length0 && 0 <= y < mapData.Length1 ==>
      mapData[k, y] == Cell(data, chunkSize, channelCount, fft, k, y)
    ensures globalMax == GlobalMax(data, chunkSize, channelCount, fft)
  {
    var chunkCount := ChunkCount(|data|, chunkSize);
    var width := chunkCount;
    var height := Height(chunkSize);
    mapData := new real[width, height]((_, _) => 0.0);
    globalMax := 1.0;
    for chunk := 0 to chunkCount
      invariant forall k, y :: 0 <= k < chunk && 0 <= y < height ==>
        mapData[k, y] == Cell(data, chunkSize, channelCount, fft, k, y)
      invariant forall k, y :: chunk <= k < width && 0 <= y < height ==> mapData[k, y] == 0.0
      invariant chunk == 0 ==> globalMax == 1.0
      invariant 0 < chunk ==> globalMax == ChunkPeak(Spectrum(data, chunkSize, channelCount, fft, chunk - 1), height)
    {
      globalMax := ProcessChunk(mapData, data, chunkSize, channelCount, fft, chunk);
    }
  }

  /**
   * Chunk `k`'s "channel `c`" starts on audio channel
   * `(c + k * chunk_size) % channel_count`, which is `c` only when
   * `k * chunk_size` is a multiple of `channel_count`: with chunks of 51
   * samples and 2 channels (a run that never panics), chunk 0's channel-0
   * buffer starts on audio channel 0 but chunk 1's starts on audio channel 1.
   */
  lemma ChannelZeroDrifts()
    ensures NoPanic(102, 51, 2)
    ensures SliceStart(51, 0, 0) % 2 == 0
    ensures SliceStart(51, 1, 0) % 2 == 1
  {
    assert SliceStart(51, 1, 0) % 2 == 1 by {
      assert ChunkOffset(1, 51) == 51;
    }
    NoPanicWhen(102, 51, 2);
  }

  /**
   * `d1` and `d2` agree on every sample that channel 0's buffer of chunk
   * `chunk` reads. These are the indices the buffer reads, not the samples of
   * audio channel 0: past chunk 0 the two can differ (`ChannelZeroDrifts`).
   */
  predicate AgreeOnChannelZero(d1: seq<real>, d2: seq<real>, chunkSize: nat, channelCount: nat, chunk: nat)
  {
    |d1| == |d2| &&
    forall i :: 0 <= i < chunkSize && ReadIndex(chunkSize, channelCount, chunk, 0, i) < |d1| ==>
      d1[ReadIndex(chunkSize, channelCount, chunk, 0, i)] == d2[ReadIndex(chunkSize, channelCount, chunk, 0, i)]
  }

  /**
   * Only the samples that channel 0's buffer of a chunk reads decide that
   * chunk's spectrum, whatever the other channels and the other chunks hold.
   */
  lemma SpectrumReadsOnlyChannelZero(d1: seq<real>, d2: seq<real>, chunkSize: nat, channelCount: nat,
                                     fft: seq<Complex> -> seq<Complex>, chunk: nat)
    requires LengthPreserving(fft) && AgreeOnChannelZero(d1, d2, chunkSize, channelCount, chunk)
    requires NoPanic(|d1|, chunkSize, channelCount) && chunk < ChunkCount(|d1|, chunkSize)
    ensures Spectrum(d1, chunkSize, channelCount, fft, chunk) == Spectrum(d2, chunkSize, channelCount, fft, chunk)
  {
    var start := SliceStart(chunkSize, chunk, 0);
    var b1 := Gather(d1, start, channelCount, chunkSize);
    var b2 := Gather(d2, start, channelCount, chunkSize);
    forall i | 0 <= i < chunkSize
      ensures b1[i] == b2[i]
    {
      GatherAt(d1, start, channelCount, chunkSize, i);
      GatherAt(d2, start, channelCount, chunkSize, i);
      assert ReadIndex(chunkSize, channelCount, chunk, 0, i) == start + i * channelCount;
    }
    assert b1 == b2;
  }

  /** Hence a chunk's row of `map_data` depends on channel 0's samples of that chunk only. */
  lemma RowReadsOnlyChannelZero(d1: seq<real>, d2: seq<real>, chunkSize: nat, channelCount: nat,
                                fft: seq<Complex> -> seq<Complex>, chunk: nat)
    requires LengthPreserving(fft) && AgreeOnChannelZero(d1, d2, chunkSize, channelCount, chunk)
    requires NoPanic(|d1|, chunkSize, channelCount) && chunk < ChunkCount(|d1|, chunkSize)
    ensures forall y :: 0 <= y < Height(chunkSize) ==>
      Cell(d1, chunkSize, channelCount, fft, chunk, y) == Cell(d2, chunkSize, channelCount, fft, chunk, y)
  {
    SpectrumReadsOnlyChannelZero(d1, d2, chunkSize, channelCount, fft, chunk);
  }

  /**
   * And `global_max` depends on channel 0's samples of the last chunk only:
   * the earlier chunks, however loud, do not change it.
   */
  lemma GlobalMaxReadsOnlyLastChunk(d1: seq<real>, d2: seq<real>, chunkSize: nat, channelCount: nat,
                                    fft: seq<Complex> -> seq<Complex>, last: nat)
    requires LengthPreserving(fft) && AgreeOnChannelZero(d1, d2, chunkSize, channelCount, last)
    requires NoPanic(|d1|, chunkSize, channelCount) && last + 1 == ChunkCount(|d1|, chunkSize)
    ensures GlobalMax(d1, chunkSize, channelCount, fft) == GlobalMax(d2, chunkSize, channelCount, fft)
  {
    SpectrumReadsOnlyChannelZero(d1, d2, chunkSize, channelCount, fft, last);
  }
}
