# WAV player core, modelled in Dafny

The player exists twice: once as a C++ class (`WAVPlayer`) and once as a
plain C program. Both wrap the PortAudio library around the same two pieces
of sequential logic. This project models those two pieces once and cites
both sources.

- **`loadWAV`, the header decoder and loader.** It reads the canonical 44-byte
  RIFF/WAVE header: a `RIFF` container of form `WAVE`, a `fmt ` chunk, then
  directly the `data` chunk. It checks the two container tags and reads
  four little-endian fields: channels at offset 22, sample rate at 24, bits
  per sample at 34 and data size at 40. It refuses any bit depth other than
  16. It computes `totalFrames = dataSize / (channels * 2)`, sizes the sample
  buffer to `dataSize / 2` samples, fills it and puts the cursor at frame 0.
- **`audioCallback`, the playback tick.** PortAudio asks for `R` frames. The
  tick copies `min(R, totalFrames - currentFrame)` frames from the cursor,
  advances the cursor by that many frames and pads the rest of the
  `R * channels` block with zeros. It returns `paContinue`. When there is
  nothing to copy, it zeroes the whole block and returns `paComplete`.

Files and modules:

| file | module | models |
|---|---|---|
| `arith.dfy` | `Arith` | order and uniqueness facts about multiplication and division used by the frame and block computations |
| `little_endian.dfy` | `LittleEndian` | explicit little-endian reads and two's-complement casts that replace the source's pointer casts |
| `wav_header.dfy` | `WavHeader` | the header layout, `ParseHeader`, a canonical `EncodeHeader` |
| `wav_loader.dfy` | `WavLoader` | `LoadWav` (the rest of `loadWAV`), sample decoding and encoding |
| `playback.dfy` | `Playback` | the player state, `Tick` (pure), `Callback` (the memcpy/memset loops) |
| `schedule.dfy` | `Schedule` | sequences of ticks, draining, idempotence once drained |
| `wav_player.dfy` | `WavPlayer` | the fixed 256-frame block size the stream is opened with |

The model takes the file contents as a `seq<byte>`, where `byte` is an
integer newtype in `[0, 256)`. Header fields are read as the source's casts
read them:
- `channels` and `bitsPerSample` are signed 16-bit (`int16_t`);
- `dataSize` is signed 32-bit (`int32_t`);
- the sample rate is unsigned 32-bit, as in the C++ `static_cast<unsigned int>`.

Decisions where the source leaves behaviour undefined:
- **Short file.** A file shorter than 44 bytes is `Err(TruncatedHeader)`. The
  source reads an uninitialised header in that case.
- **`channels <= 0`.** This is `Err(InvalidChannelCount)`. Zero makes the source
  divide by zero. A negative count gives a negative frame count in C and a
  wrapped `size_t` in C++.
- **Negative `dataSize`.** This is `Err(InvalidDataSize)`. The C `malloc` of the
  converted size fails, and the C++ `resize` throws.
- **Data shorter than `dataSize`.** The buffer keeps its length, and the bytes
  past the end of the file are zero. This is the C++ behaviour: a resized
  `std::vector<int16_t>` is value-initialised.
- **Zero-frame request.** `R == 0` returns Complete even when frames remain,
  because the code takes the "nothing copied" branch. A no-op that returns
  Continue might be the expected design, but the model follows the code.

## Model

| member | source | states |
|---|---|---|
| `LittleEndian.U16At` | wav_player_example/wav_player.c:31-33 | the little-endian 16-bit read at byte offset `off` (the `*(int16_t*)` cast's bit pattern, used at offsets 22 and 34) lies in `[0, 2^16)`; LE16 is its inverse |
| `LittleEndian.U32At` | wav_player_example/wav_player.c:32-34 | the little-endian 32-bit read at byte offset `off` (the `*(int32_t*)` cast's bit pattern, used at offsets 24 and 40) lies in `[0, 2^32)`; LE32 is its inverse |
| `LittleEndian.LE16` | wav_player_example/wav_player.c:31-33 | encoding a 16-bit value as two little-endian bytes gives two bytes that `U16At` reads back as the value |
| `LittleEndian.LE32` | wav_player_example/wav_player.c:32-34 | encoding a 32-bit value as four little-endian bytes gives four bytes that `U32At` reads back as the value |
| `LittleEndian.Unsigned16` | wav_player_example/wav_player.c:31 | the 16-bit pattern of a signed value lies in `[0, 2^16)`, and the `int16_t` reading `Signed16` turns it back into the value |
| `LittleEndian.Unsigned32` | wav_player_example/wav_player.c:34 | the 32-bit pattern of a signed value lies in `[0, 2^32)`, and the `int32_t` reading `Signed32` turns it back into the value |
| `LittleEndian.Signed16` | wav_player_cpp/wav_player_cpp.cpp:128 | the `int16_t` reading of a 16-bit pattern lies in `[-2^15, 2^15)` and is congruent to the pattern modulo `2^16` |
| `LittleEndian.Signed32` | wav_player_cpp/wav_player_cpp.cpp:131 | the `int32_t` reading of a 32-bit pattern lies in `[-2^31, 2^31)` and is congruent to the pattern modulo `2^32` |
| `WavHeader.ParseHeader` | wav_player_cpp/wav_player_cpp.cpp:117-143 | the result is Ok exactly when the file has 44 bytes, `RIFF` at offset 0, `WAVE` at offset 8 and bit depth 16. Otherwise the error is TruncatedHeader, InvalidContainer or UnsupportedBitDepth(bits), checked in that order. On success the fields are the little-endian values at offsets 22, 24, 34 and 40 |
| `WavHeader.EncodedLayout` | wav_player_example/wav_player.c:25-34 | the canonical header carries the two tags at offsets 0 and 8, and the four fields' little-endian bytes at 22, 24, 34 and 40 |
| `WavHeader.HeaderRoundTrip` | wav_player_cpp/wav_player_cpp.cpp:122-143 | decoding an encoded header, followed by any bytes, returns the encoded channels, sample rate, bit depth and data size. It fails only with UnsupportedBitDepth, and only when the bit depth is not 16 |
| `WavLoader.DataBytes` | wav_player_cpp/wav_player_cpp.cpp:148-150 | the buffer's bytes are the bytes after the header. Where the file ends early, the rest are zero, as in the value-initialised vector |
| `WavLoader.DecodeSamples` | wav_player_example/wav_player.c:51-58 | the buffer holds `floor(bytes / 2)` samples, and sample `i` is the signed little-endian 16-bit value at byte `2i` |
| `WavLoader.SamplesRoundTrip` | wav_player_example/wav_player.c:58 | decoding encoded samples gives the samples back |
| `WavLoader.FramesFitBuffer` | wav_player_cpp/wav_player_cpp.cpp:146-148 | `totalFrames = dataSize / (channels * 2)` is non-negative, and `totalFrames * channels` samples fit the buffer of `dataSize / 2` samples |
| `WavLoader.LoadWav` | wav_player_cpp/wav_player_cpp.cpp:110-159 | header errors pass through unchanged. A channel count `<= 0` and a negative data size are refused. On success: the player is valid, the cursor is 0, `totalFrames == dataSize / (channels * 2)`, and the buffer holds `dataSize / 2` samples decoded from the whole samples of the data chunk |
| `WavLoader.LoadAccepted` | wav_player_cpp/wav_player_cpp.cpp:145-150 | a file whose header decodes to a format with positive channels and non-negative data size loads to that format, a player at frame 0 with `dataSize / (channels * 2)` frames, and the decoded whole samples of its data chunk |
| `WavLoader.LoadRoundTrip` | wav_player_example/wav_player.c:15-63 | loading an encoded header, its samples and any trailing bytes gives back the format, exactly those samples, `dataSize / (channels * 2)` frames and cursor 0 |
| `WavLoader.CppReadOverrunsOnOddSize` | wav_player_cpp/wav_player_cpp.cpp:148-150 | as written, the C++ read of `dataSize` bytes spills past the `dataSize / 2`-sample buffer exactly when `dataSize` is odd and the file holds at least `dataSize` bytes after the header, and then by one byte (for example a data size of 3 with 3 bytes present) |
| `WavLoader.CorrectedReadFits` | wav_player_example/wav_player.c:51-58 | the read the model performs covers whole samples only: it never exceeds `dataSize` and fills the buffer exactly |
| `Playback.SilentFramesAreSilence` | wav_player_cpp/wav_player_cpp.cpp:58-61 | `n` frames of silence, built frame by frame, are exactly `n * channels` zero samples, the size of the memset |
| `Playback.FramesLength` | wav_player_cpp/wav_player_cpp.cpp:51-53 | the frames `[from, to)` are `(to - from) * channels` samples, the size of the memcpy |
| `Playback.FramesToCopy` | wav_player_cpp/wav_player_cpp.cpp:46-47 | `framesToCopy` is at most the request and at most the frames remaining, and equals one of them: it is their minimum |
| `Playback.Tick` | wav_player_cpp/wav_player_cpp.cpp:45-79 | the cursor advances by `min(R, totalFrames - currentFrame)`, nothing else in the state changes, and the state stays valid. The tick returns Complete exactly when `R == 0` or the player is drained |
| `Playback.TickBlock` | wav_player_cpp/wav_player_cpp.cpp:49-76 | the block has `R * channels` samples. Its first `min(R, remaining) * channels` samples are the buffer's samples from `currentFrame * channels` on, and every later slot is zero |
| `Playback.CopySamples` | wav_player_example/wav_player.c:79-81 | the copy loop yields exactly the `count` samples of the buffer from `start` on |
| `Playback.ZeroSamples` | wav_player_example/wav_player.c:85-91 | the zero-fill loop yields exactly `count` zero samples |
| `Playback.Callback` | wav_player_example/wav_player.c:72-94 | the copy loop, then the zero-fill loop (or the whole-block zero-fill), produce exactly the block, state and status that `Tick` specifies |
| `Schedule.TickAsFrames` | wav_player_cpp/wav_player_cpp.cpp:49-62 | a tick's block is the frames `[currentFrame, currentFrame + toCopy)` followed by `R - toCopy` silent frames |
| `Schedule.LastTickOutput` | wav_player_example/wav_player.c:85-88 | when fewer than `R` frames remain, the tick hands them all out and pads the block with `R - remaining` silent frames |
| `Schedule.Play` | wav_player_cpp/wav_player_cpp.cpp:46-56 | across any sequence of requests, the cursor never decreases and never passes `totalFrames`, and nothing but the cursor changes |
| `Schedule.DrainedIsIdempotent` | wav_player_example/wav_player.c:89-92 | once drained, every further tick of any size keeps the state, returns Complete and outputs only zeros |
| `Schedule.TicksNeededIsCeiling` | wav_player_cpp/wav_player_cpp.cpp:47 | counting ticks that each take `min(R, remaining)` frames until none remain gives `ceil(remaining / R)` ticks |
| `Schedule.TicksCoverRemaining` | wav_player_cpp/wav_player_cpp.cpp:47-61 | the counted ticks' blocks of `R` frames exceed the remaining frames by exactly the padding of the last block |
| `Schedule.DrainOutputStep` | wav_player_cpp/wav_player_cpp.cpp:49-56 | a full first tick followed by ticks that output the rest of the frames and then some padding outputs all the remaining frames and then that padding |
| `Schedule.DrainTicks` | wav_player_cpp/wav_player_cpp.cpp:72-79 | with a fixed `R > 0`, the counted ticks drain the player and every one of them returns Continue |
| `Schedule.DrainOutput` | wav_player_example/wav_player.c:75-88 | with a fixed `R > 0`, the concatenated blocks of the draining ticks are the remaining samples, in order and each once, followed by the last block's padding |
| `Schedule.PlayToEnd` | wav_player_cpp/wav_player_cpp.cpp:46-79 | with a fixed `R > 0`, the counted ticks number `ceil(remaining / R)`, all return Continue and drain the player. Their output is the remaining samples followed by `Padding` silent frames, where `ticks * R == remaining + Padding` |
| `WavPlayer.PlayFromStart` | wav_player_cpp/wav_player_cpp.cpp:181-188 | from cursor 0 with the stream's 256-frame blocks, `ceil(totalFrames / 256)` Continue ticks output `samples[..totalFrames * channels]` in order, then `Padding * channels` zeros with `ticks * 256 == totalFrames + Padding`, and leave the player drained |

## Left out

- PortAudio: initialise/terminate, default device lookup, `Pa_OpenStream`, start, stop, close, the `Pa_IsStreamActive` polling loop and `Pa_Sleep`. These are calls into an external library.
- Device listing (`printDevices`), `main`, argument handling and exit codes. This is process plumbing.
- Opening, reading and closing the file (`ifstream`, `fopen`/`fread`/`fclose`), and `malloc`/`free`. The model takes the file's contents as a byte sequence.
- Console output, including the C++ callback's progress report (wav_player_cpp/wav_player_cpp.cpp:64-71). It uses a `double` percentage and a function-static counter.
- The duration printed after loading (wav_player_cpp/wav_player_cpp.cpp:153). It is floating point and only printed.
- The real-time callback thread and the main thread's unsynchronised read of the stream state. The tick is modelled as a sequential function.
- LoadWav: models a file shorter than its `dataSize` with the C++ zero fill. The C version's `malloc` leaves those bytes uninitialised.
- LoadWav: does not model a failed allocation other than for a negative size. This includes out-of-memory and a C `malloc(0)` that returns NULL.
- LoadWav: refuses every negative `dataSize`. For `dataSize == -1`, the C++ `resize(-1 / 2)` is `resize(0)` and succeeds.
- LoadWav: does not model the C++ behaviour for a negative channel count (a wrapped `size_t` frame count) or the C behaviour (a negative `long` frame count). Both are refused up front.
- LoadWav: returns the sample rate as the unsigned 32-bit value, as in C++. The C version stores it in a signed `int`.
- Tick: integers are unbounded. The products `R * channels` and `currentFrame * channels` cannot overflow `size_t`/`long` as they could in the source for absurd request sizes.
- Tick: its precondition is the player invariant `Valid` (channels > 0, cursor within `[0, totalFrames]`, buffer long enough). LoadWav establishes it and Tick preserves it; the source relies on it without checking.
- PlayToEnd: does not itself state the status of the tick after draining. Tick's contract gives Complete for a drained player, and DrainedIsIdempotent covers every later tick.
- Chunk walking, and headers whose `fmt ` chunk is not 16 bytes or is followed by other chunks. The decoder never looks at offsets 4-7 (the RIFF size), 12-21, 28-33 or 36-39.

## Findings

| source | as written | input that shows it | evidently intended | confidence | as-written member | corrected member |
|---|---|---|---|---|---|---|
| wav_player_cpp/wav_player_cpp.cpp:148-150 | `samples.resize(dataSize / 2)`, then `file.read(..., dataSize)`: it reads `dataSize` bytes into a buffer of `2 * (dataSize / 2)` bytes | `dataSize = 3` with 3 data bytes in the file: 3 bytes are read into a 2-byte buffer, one byte past its end | read only the whole samples, `2 * (dataSize / 2)` bytes, as LoadWav does | not executed; high | `WavLoader.CppReadOverrunsOnOddSize` | `WavLoader.CorrectedReadFits` |
