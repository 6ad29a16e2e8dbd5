# sheeter: spectrogram assembly

`sheeter` reads a WAV file, cuts the interleaved sample stream into
fixed-size chunks, Fourier-transforms each chunk and paints the result as a
spectrogram image. This project models the part of `main` that does the
arithmetic (src/main.rs:60-112) and proves properties of it:

- **Chunk planning** (`ChunkPlan`). There are `chunk_count = len / chunk_size`
  chunks, and `height = (chunk_size / 2) / 25` frequency bins are kept.
  `FirstPanic` lists every way the loop can panic, in the order the program
  reaches them. `NoPanic` is the exact condition under which it runs to the
  end.
- **Channel-buffer extraction** (`ChannelExtract`, with the iterator adapters
  in `Iterators` and complex numbers in `Samples`). For chunk `k` and channel
  `c`, the buffer is read from interleaved index `c + k * chunk_size` on. It
  takes every `channel_count`-th sample, keeps at most `chunk_size` of them,
  converts them to complex numbers and zero-pads to exactly `chunk_size`.
  - `ChannelBuffer` is that iterator chain, written as it appears in the code.
  - `Gather` is the same buffer read index by index. `ChannelBufferIsGather`
    proves the two are equal.
- **The chunk loop** (`Spectrogram`). Before the loop, `map_data` is
  allocated as a `chunk_count x height` array of zeros. For each chunk, the loop transforms
  channel 0's buffer and writes `|Re(X[y])|` into that chunk's row for bins
  `1..height`. It also overwrites `global_max` with that chunk's peak: a
  fold with `max` seeded with 1.
  - `Assemble` is the allocation and the loop; `ProcessChunk` and `WriteRow` are its body.
    `ProcessChunk` computes the peak with the fold as written; `ChunkPeak` is
    the same peak defined bin by bin (`ChunkPeakIsFold`).
  - `Cell` and `GlobalMax` say what the loop leaves behind.

The model follows the code as it stands. Its own comments mark what is not
done yet:

- the TODO at src/main.rs:17-18 asks for a global normalisation maximum
  ("maybe by doing a second pass") and for chunk overlap;
- "use the first channel for now" at src/main.rs:98 leaves the other
  channels unused.

So the model has none of these:

- only channel 0 contributes;
- `chunk_overlap` plays no part;
- `global_max` ends up as the peak of the last chunk alone (`GlobalMaxOfLastRow`,
  `GlobalMaxReadsOnlyLastChunk`).

Chunk `k`'s "channel `c`" starts at interleaved index `c + k * chunk_size`,
which is on audio channel `(c + k * chunk_size) % channel_count`. That is `c`
for chunk 0 and for every chunk where `k * chunk_size` is a multiple of
`channel_count`, and a different audio channel otherwise: with chunks of 51
samples and 2 channels, chunk 1's "channel 0" buffer reads audio channel 1
(`ChannelZeroDrifts`). The model keeps the indices exactly as written
(`ChannelBufferAt`), and the channel-0 lemmas are stated over the indices
that buffer reads (`AgreeOnChannelZero`), not over audio channel 0.

Samples are `real`: the code applies only `abs`, `max` and the conversion
to a complex number to them. The Fourier transform is the parameter `fft`.
The only thing assumed about it is that it keeps the buffer's length
(`LengthPreserving`), as `fft.process` works in place. Nothing else in the
model assumes anything about `fft`.

## Model

| member | source | states |
|---|---|---|
| Samples.FromReal | src/main.rs:91 | `Complex::from(x)` has real part `x` and imaginary part 0 |
| Samples.Abs | src/main.rs:106 | `abs` is non-negative and is `x` or `-x` |
| Samples.Max | src/main.rs:107 | `f64::max` (no NaN) is at least both operands and is one of them |
| Samples.ToComplex | src/main.rs:91 | `.map(Complex::from)` keeps the length; entry `i` is sample `i` with imaginary part 0 |
| Samples.ReMagnitudes | src/main.rs:106 | `.map(c => c.re.abs())` keeps the length; each entry is non-negative and is `±re` of the entry it comes from |
| Iterators.StepBy | src/main.rs:88 | `step_by(step)`: element `i` is `s[i * step]` and that index is inside `s` |
| Iterators.StepByLength | src/main.rs:88 | `step_by` yields `ceil(len(s) / step)` elements: `len(s) <= n * step < len(s) + step` |
| Iterators.StepByCovers | src/main.rs:88 | index `i` is reached by `step_by` exactly when `i * step < len(s)`, so no sample in range is skipped |
| Iterators.Take | src/main.rs:89 | `take(n)` keeps `min(n, len(s))` elements, the leading ones unchanged |
| Iterators.Resize | src/main.rs:93 | `resize(n, fill)` gives exactly `n` elements: the originals while they last, then `fill` |
| Iterators.MaxFold | src/main.rs:107 | `fold(acc, f64::max)` is at least `acc` and every element, and is `acc` or one of the elements |
| Iterators.MaxFoldSnoc | src/main.rs:104-107 | folding one more element in gives the maximum of the earlier fold and that element |
| ChunkPlan.ChunkOffsetIsProduct | src/main.rs:86 | the chunk offset used in the slice start is `chunk * chunk_size` |
| ChunkPlan.ChunkOffsetMonotone | src/main.rs:82-86 | later chunks start no earlier |
| ChunkPlan.ChunkCountMaximal | src/main.rs:61 | `chunk_count` whole chunks fit in the stream and one more does not |
| ChunkPlan.ChunkCountIsQuotient | src/main.rs:61 | `chunk_count` is `len / chunk_size` |
| ChunkPlan.Height | src/main.rs:70-77 | `height = (chunk_size/2)/25` satisfies `50*height <= chunk_size < 50*height + 50`, so `height <= chunk_size/2`, every kept bin is inside the buffer, and `height >= 1` exactly when `chunk_size >= 50` |
| ChunkPlan.ChunkFits | src/main.rs:61-86 | every processed chunk satisfies `k*chunk_size + chunk_size <= len` |
| ChunkPlan.SliceStartInBounds | src/main.rs:86 | with `channel_count <= chunk_size + 1`, every slice start `c + k*chunk_size` is at most `len` |
| ChunkPlan.ChunkPanicNone | src/main.rs:82-104 | the loop from chunk `k` on panics nowhere exactly when `k` is past the last chunk or `NoPanic` holds |
| ChunkPlan.NoPanicIff | src/main.rs:61-104 | `FirstPanic` (division by zero, slice start past the end, no channel buffer, `buffer[1..0]`) finds no panic exactly when `NoPanic` holds |
| ChunkPlan.NoPanicAt | src/main.rs:86-104 | under `NoPanic`, each iteration has a channel 0, `1 <= height < chunk_size`, and every slice start in range |
| ChunkPlan.NoPanicWhen | src/main.rs:61-104 | `chunk_size >= 50` and `1 <= channel_count <= chunk_size + 1` rule out every panic, whatever the length |
| ChunkPlan.TooManyChannelsPanics | src/main.rs:86 | 100 samples, chunks of 50 and 52 channels panic at chunk 1, channel 51, whose slice would start at 101 |
| ChannelExtract.StridedWindow | src/main.rs:86-93 | the step/take/map/collect chain followed by `resize` always has exactly `chunk_size` entries |
| ChannelExtract.StridedWindowAt | src/main.rs:86-93 | entry `i` of that chain is sample `i * stride` of the slice when it exists, zero otherwise |
| ChannelExtract.StridedWindowFrom | src/main.rs:86-93 | for a slice `data[start..]`, entry `i` is `data[start + i*stride]` or zero past the end |
| ChannelExtract.ChannelBuffer | src/main.rs:84-96 | every channel buffer has exactly `chunk_size` entries, whether or not the read ran out of samples |
| ChannelExtract.ChannelBufferAt | src/main.rs:86-93 | entry `i` of channel `c`'s buffer for chunk `k` is `data[c + k*chunk_size + i*channel_count]` when that index is below `len`, and zero otherwise |
| ChannelExtract.Gather | src/main.rs:86-93 | the index-by-index reading has `n` entries |
| ChannelExtract.GatherAt | src/main.rs:86-93 | entry `i` of the index-by-index reading comes from `start + i*stride` |
| ChannelExtract.ChannelBufferIsGather | src/main.rs:86-93 | the iterator chain and the index-by-index reading give the same buffer |
| ChannelExtract.ChannelBuffers | src/main.rs:84-96 | there is one buffer per channel, each `chunk_size` long |
| Spectrogram.Spectrum | src/main.rs:98-100 | channel 0's transformed buffer is `chunk_size` long |
| Spectrogram.ChunkPeak | src/main.rs:104-107 | a chunk's peak is at least 1 and at least every `abs(re)` of bins `1..height`, and it is 1 or one of them |
| Spectrogram.ChunkPeakIsFold | src/main.rs:104-107 | that peak is exactly the `map(c => c.re.abs()).fold(1f64, f64::max)` chain over `buffer[1..height]` |
| Spectrogram.Cell | src/main.rs:79-111 | every cell of the map is non-negative and the DC column (bin 0) stays 0 |
| Spectrogram.GlobalMax | src/main.rs:80-107 | `global_max` is at least 1, and is 1 when there are no chunks |
| Spectrogram.ChannelZeroDrifts | src/main.rs:86-99 | with chunks of 51 samples and 2 channels (no panic), chunk 0's channel-0 buffer starts on audio channel 0 and chunk 1's on audio channel 1 |
| Spectrogram.GlobalMaxOfLastRow | src/main.rs:104-111 | `global_max` bounds every cell of the last row and is 1 or one of those cells |
| Spectrogram.WriteRow | src/main.rs:109-111 | the inner loop writes `abs(Re(X[y]))` into row `chunk` for `y` in `1..height` and changes no other cell, column 0 included |
| Spectrogram.ProcessChunk | src/main.rs:84-111 | one iteration returns the chunk's peak as the new `global_max` and fills row `chunk` as `Cell` says, leaving every other row and column 0 untouched |
| Spectrogram.Assemble | src/main.rs:79-112 | after the loop, `map_data` is `len/chunk_size x height`, each cell is `Cell` (non-negative, 0 in column 0, `abs(re)` of channel 0's spectrum elsewhere), and `global_max` is `GlobalMax` |
| Spectrogram.SpectrumReadsOnlyChannelZero | src/main.rs:98-100 | two streams that agree on the samples channel 0's buffer of a chunk reads have the same spectrum for that chunk, whatever the other channels hold |
| Spectrogram.RowReadsOnlyChannelZero | src/main.rs:98-111 | hence channels other than 0 never affect a row of the map |
| Spectrogram.GlobalMaxReadsOnlyLastChunk | src/main.rs:104-107 | `global_max` depends only on channel 0's samples of the last chunk; earlier chunks do not change it |

## Left out

- Argument parsing, WAV decoding and the bit-depth dispatch (src/main.rs:7-56): these are I/O and calls into the `wav` crate.
- The diagnostic `eprintln!` lines (src/main.rs:58, 64-65): these are output only.
- The computation of `chunk_size` from seconds times the sampling rate (src/main.rs:60): this is a float-to-`usize` truncation. `chunk_size` is an integer parameter instead.
- The FFT itself (`FftPlanner`, `fft.process`, src/main.rs:67, 100): it is a library over floating point. It is the parameter `fft`, assumed only to keep the length.
- The in-place update of `channel_buffers[0]` is modelled as the transform of a copy. After src/main.rs:100 only the transformed contents are read (through `buffer`, at lines 104 and 110); neither the untransformed contents nor any other channel's buffer is read again, so the difference cannot be observed.
- Floating point: samples and magnitudes are `real`, so NaN, infinities and rounding are not modelled. `Max` is `f64::max` on operands that are not NaN.
- `usize` arithmetic is unbounded here. `c + k*chunk_size` and `i*channel_count` cannot overflow on realistic inputs, because `k*chunk_size <= len`.
- Spectrogram.Assemble: requires `NoPanic`, because the program aborts rather than returns when it panics. The panicking inputs are characterised by `ChunkPlan.FirstPanic` and `ChunkPlan.NoPanicIff` instead of by an error result.
- Pixel colouring, the `as u8` casts and PNG output (src/main.rs:113-138): these are rendering and I/O.
- `chunk_overlap`, start time, duration, gain, summing channels and normalisation by `global_max`: the code at src/main.rs:60-112 does none of these, so the model does not either.
