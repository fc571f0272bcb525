/** `loadWAV`: the whole file, as bytes, to the format and the initial
    playback state. After the header is accepted the loader computes the
    frame count `dataSize / (channels * 2)`, sizes the sample buffer to
    `dataSize / 2` samples, fills it from the bytes after the header and
    puts the cursor at frame 0. */
module WavLoader {
  import opened Arith
  import opened LittleEndian
  import opened WavHeader
  import opened Playback

  /** A successfully loaded file: its format and the playback state ready to start. */
  datatype Loaded = Loaded(format: WavFormat, player: Player)

  /** Bytes per 16-bit sample. */
  const BYTES_PER_SAMPLE: nat := 2

  /** The size in bytes of a buffer of `dataSize / 2` samples. */
  function BufferBytes(dataSize: nat): nat {
    BYTES_PER_SAMPLE * (dataSize / BYTES_PER_SAMPLE)
  }

  /** The first `count` bytes after the header. Where the file ends early the
      rest stays zero, as in the value-initialised sample vector. */
  function DataBytes(file: seq<byte>, count: nat): (d: seq<byte>)
    requires |file| >= HEADER_SIZE
    ensures |d| == count
    ensures HEADER_SIZE + count <= |file| ==> d == file[HEADER_SIZE .. HEADER_SIZE + count]
    ensures HEADER_SIZE + count > |file| ==> d[..|file| - HEADER_SIZE] == file[HEADER_SIZE..]
    ensures forall i | |file| - HEADER_SIZE <= i < count :: d[i] == 0
  {
    seq(count, i requires 0 <= i < count => if HEADER_SIZE + i < |file| then file[HEADER_SIZE + i] else 0)
  }

  /** Reads consecutive little-endian signed 16-bit samples; a trailing odd
      byte is not a sample. */
  function DecodeSamples(b: seq<byte>): (s: seq<int16>)
    ensures |s| == |b| / BYTES_PER_SAMPLE
    ensures forall i | 0 <= i < |s| :: s[i] as int == Signed16(U16At(b, BYTES_PER_SAMPLE * i))
    decreases |b|
  {
    if |b| < BYTES_PER_SAMPLE then []
    else
      var rest := DecodeSamples(b[BYTES_PER_SAMPLE..]);
      assert forall i | 1 <= i < |rest| + 1 :: U16At(b, BYTES_PER_SAMPLE * i) == U16At(b[BYTES_PER_SAMPLE..], BYTES_PER_SAMPLE * (i - 1));
      [Signed16(U16At(b, 0)) as int16] + rest
  }

  /** Writes samples as little-endian signed 16-bit values; DecodeSamples
      reads them back. */
  function EncodeSamples(s: seq<int16>): (b: seq<byte>)
    ensures |b| == BYTES_PER_SAMPLE * |s|
  {
    if |s| == 0 then [] else LE16(Unsigned16(s[0] as int)) + EncodeSamples(s[1..])
  }

  lemma {:induction false} SamplesRoundTrip(s: seq<int16>)
    ensures DecodeSamples(EncodeSamples(s)) == s
  {
    if |s| > 0 {
      var b := EncodeSamples(s);
      SamplesRoundTrip(s[1..]);
      assert b[BYTES_PER_SAMPLE..] == EncodeSamples(s[1..]);
      assert U16At(b, 0) == U16At(LE16(Unsigned16(s[0] as int)), 0);
    }
  }

  /** `dataSize / (channels * 2)` frames of `channels` samples fit in a
      buffer of `dataSize / 2` samples. */
  lemma FramesFitBuffer(dataSize: nat, channels: nat)
    requires 0 < channels
    ensures 0 <= dataSize / (channels * 2)
    ensures (dataSize / (channels * 2)) * channels <= dataSize / 2
  {
    var d := channels * 2;
    var t := dataSize / d;
    var m := dataSize % d;
    assert dataSize == t * d + m && 0 <= m < d;
    assert 0 <= t by {
      if t < 0 {
        MulLe(1, -t, d);
        assert false;
      }
    }
    assert t * d == 2 * (t * channels);
    assert dataSize == 2 * (dataSize / 2) + dataSize % 2;
  }

  /** Loads a WAV file. Header errors come first, in the source's order;
      then a channel count that is not positive (the source divides by it)
      and a negative data size (the source cannot allocate a buffer for it)
      are refused. Otherwise the buffer holds `dataSize / 2` samples read from
      the whole samples of the data chunk, and the cursor is at frame 0. */
  function LoadWav(file: seq<byte>): (r: Result<Loaded>)
    ensures ParseHeader(file).Err? ==> r == Err(ParseHeader(file).error)
    ensures ParseHeader(file).Ok? && ParseHeader(file).value.channels <= 0
            ==> r == Err(InvalidChannelCount(ParseHeader(file).value.channels))
    ensures ParseHeader(file).Ok? && ParseHeader(file).value.channels > 0 && ParseHeader(file).value.dataSize < 0
            ==> r == Err(InvalidDataSize(ParseHeader(file).value.dataSize))
    ensures r.Ok? <==> ParseHeader(file).Ok? && ParseHeader(file).value.channels > 0 && ParseHeader(file).value.dataSize >= 0
    ensures r.Ok? ==>
              var f := r.value.format;
              var p := r.value.player;
              && ParseHeader(file) == Ok(f)
              && p.Valid()
              && p.channels == f.channels
              && p.totalFrames == f.dataSize / (f.channels * 2)
              && p.currentFrame == 0
              && |p.samples| == f.dataSize / 2
              && p.samples == DecodeSamples(DataBytes(file, BufferBytes(f.dataSize)))
  {
    match ParseHeader(file)
    case Err(e) => Err(e)
    case Ok(f) =>
      if f.channels <= 0 then
        Err(InvalidChannelCount(f.channels))
      else if f.dataSize < 0 then
        Err(InvalidDataSize(f.dataSize))
      else
        FramesFitBuffer(f.dataSize, f.channels);
        var totalFrames := f.dataSize / (f.channels * 2);
        var samples := DecodeSamples(DataBytes(file, BufferBytes(f.dataSize)));
        Ok(Loaded(f, Player(samples, f.channels, totalFrames, 0)))
  }

  /** The header of an encoded file decodes to the format it was encoded from. */
  lemma EncodedFileHeader(f: WavFormat, data: seq<byte>, trailer: seq<byte>)
    requires f.Encodable() && f.bitsPerSample == SUPPORTED_BITS
    ensures ParseHeader(EncodeHeader(f) + data + trailer) == Ok(f)
  {
    assert EncodeHeader(f) + data + trailer == EncodeHeader(f) + (data + trailer);
    HeaderRoundTrip(f, data + trailer);
  }

  /** The data chunk of a file that is a header, `data` and any further bytes. */
  lemma DataAfterHeader(header: seq<byte>, data: seq<byte>, trailer: seq<byte>)
    requires |header| == HEADER_SIZE
    ensures DataBytes(header + data + trailer, |data|) == data
  {
    var file := header + data + trailer;
    assert file[HEADER_SIZE .. HEADER_SIZE + |data|] == data;
  }

  /** The whole samples of an encoded file's data chunk are the samples it
      was encoded from. */
  lemma EncodedFileSamples(header: seq<byte>, s: seq<int16>, trailer: seq<byte>)
    requires |header| == HEADER_SIZE
    ensures DecodeSamples(DataBytes(header + EncodeSamples(s) + trailer, BufferBytes(BYTES_PER_SAMPLE * |s|))) == s
  {
    var n := |s|;
    assert (2 * n) / 2 == n;
    assert BufferBytes(BYTES_PER_SAMPLE * n) == |EncodeSamples(s)|;
    DataAfterHeader(header, EncodeSamples(s), trailer);
    SamplesRoundTrip(s);
  }

  /** What LoadWav gives for a file whose header decodes to `f` with a
      positive channel count and whose whole samples decode to `s`. */
  lemma LoadAccepted(file: seq<byte>, f: WavFormat, s: seq<int16>)
    requires ParseHeader(file) == Ok(f) && 0 < f.channels && 0 <= f.dataSize
    requires DecodeSamples(DataBytes(file, BufferBytes(f.dataSize))) == s
    ensures var r := LoadWav(file);
            && r.Ok?
            && r.value.format == f
            && r.value.player.samples == s
            && r.value.player.channels == f.channels
            && r.value.player.totalFrames == f.dataSize / (f.channels * 2)
            && r.value.player.currentFrame == 0
  {
  }

  /** Encoding a format and its samples, followed by any further bytes, and
      loading the result gives back the format, the samples, and a player at
      frame 0 with `dataSize / (channels * 2)` frames. */
  lemma LoadRoundTrip(f: WavFormat, s: seq<int16>, trailer: seq<byte>)
    requires f.Encodable() && f.bitsPerSample == SUPPORTED_BITS
    requires 0 < f.channels && f.dataSize == BYTES_PER_SAMPLE * |s|
    ensures var r := LoadWav(EncodeHeader(f) + EncodeSamples(s) + trailer);
            && r.Ok?
            && r.value.format == f
            && r.value.player.samples == s
            && r.value.player.channels == f.channels
            && r.value.player.totalFrames == f.dataSize / (f.channels * 2)
            && r.value.player.currentFrame == 0
  {
    EncodedFileHeader(f, EncodeSamples(s), trailer);
    EncodedFileSamples(EncodeHeader(f), s, trailer);
    LoadAccepted(EncodeHeader(f) + EncodeSamples(s) + trailer, f, s);
  }

  /** The C++ loader as written asks to read `dataSize` bytes into a buffer
      sized for `dataSize / 2` samples. The stream stops at the end of the
      file, so it delivers the smaller of `dataSize` and the `available`
      bytes after the header; this is how many of them fall past the end of
      the buffer. */
  function CppReadOverrun(dataSize: nat, available: nat): nat {
    var delivered := Min(dataSize, available);
    if delivered <= BufferBytes(dataSize) then 0 else delivered - BufferBytes(dataSize)
  }

  /** The as-written read overruns the sample buffer exactly when `dataSize`
      is odd and the file holds at least `dataSize` bytes after the header,
      and then by one byte; for instance a data size of 3 with 3 bytes
      present. */
  lemma CppReadOverrunsOnOddSize(dataSize: nat, available: nat)
    ensures CppReadOverrun(dataSize, available) > 0 <==> dataSize % 2 == 1 && dataSize <= available
    ensures CppReadOverrun(dataSize, available) <= 1
    ensures CppReadOverrun(3, 3) == 1
  {
  }

  /** The corrected read used by LoadWav: only the whole samples of the data
      chunk, which always fit the buffer and fill it exactly. */
  lemma CorrectedReadFits(file: seq<byte>)
    requires LoadWav(file).Ok?
    ensures var f := LoadWav(file).value.format;
            && BufferBytes(f.dataSize) <= f.dataSize
            && |DataBytes(file, BufferBytes(f.dataSize))| == BYTES_PER_SAMPLE * |LoadWav(file).value.player.samples|
  {
  }
}
