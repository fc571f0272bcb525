/** The fixed 44-byte canonical RIFF/WAVE header the player accepts: a
    `RIFF` container whose form type is `WAVE`, a 16-byte `fmt ` chunk and
    then the `data` chunk, with no chunk walking. Only the two container
    tags and four fields are read; everything else in the header is
    ignored, exactly as `loadWAV` ignores it. */
module WavHeader {
  import opened LittleEndian

  const HEADER_SIZE: nat := 44

  /** ASCII "RIFF", expected at offset 0. */
  const RIFF_TAG: seq<byte> := [0x52, 0x49, 0x46, 0x46]
  /** ASCII "WAVE", expected at offset 8. */
  const WAVE_TAG: seq<byte> := [0x57, 0x41, 0x56, 0x45]
  /** ASCII "fmt " and "data": written by the encoder, never checked by the decoder. */
  const FMT_TAG: seq<byte> := [0x66, 0x6d, 0x74, 0x20]
  const DATA_TAG: seq<byte> := [0x64, 0x61, 0x74, 0x61]

  const RIFF_OFFSET: nat := 0
  const WAVE_OFFSET: nat := 8
  const CHANNELS_OFFSET: nat := 22
  const SAMPLE_RATE_OFFSET: nat := 24
  const BITS_OFFSET: nat := 34
  const DATA_SIZE_OFFSET: nat := 40

  /** The only bit depth the player supports. */
  const SUPPORTED_BITS: int := 16

  /** The four header fields the player uses. `channels`, `bitsPerSample`
      and `dataSize` are read through signed casts (`int16_t`, `int16_t`,
      `int32_t`); the sample rate is stored as an unsigned 32-bit value. */
  datatype WavFormat = WavFormat(channels: int, sampleRate: nat, bitsPerSample: int, dataSize: int)
  {
    /** Each field fits the width it is stored in. */
    predicate Encodable() {
      && -0x8000 <= channels < 0x8000
      && sampleRate < TWO_TO_THE_32
      && -0x8000 <= bitsPerSample < 0x8000
      && -0x8000_0000 <= dataSize < 0x8000_0000
    }
  }

  /** Why decoding a file failed. */
  datatype DecodeError =
    | TruncatedHeader               // fewer than 44 bytes
    | InvalidContainer              // "RIFF" or "WAVE" tag missing
    | UnsupportedBitDepth(bits: int)
    | InvalidChannelCount(channels: int)
    | InvalidDataSize(dataSize: int)

  datatype Result<+T> = Ok(value: T) | Err(error: DecodeError)

  predicate HasWaveTags(file: seq<byte>)
    requires |file| >= HEADER_SIZE
  {
    file[RIFF_OFFSET..RIFF_OFFSET + 4] == RIFF_TAG && file[WAVE_OFFSET..WAVE_OFFSET + 4] == WAVE_TAG
  }

  function ChannelsField(file: seq<byte>): int
    requires |file| >= HEADER_SIZE
  {
    Signed16(U16At(file, CHANNELS_OFFSET))
  }

  function SampleRateField(file: seq<byte>): nat
    requires |file| >= HEADER_SIZE
  {
    U32At(file, SAMPLE_RATE_OFFSET)
  }

  function BitsField(file: seq<byte>): int
    requires |file| >= HEADER_SIZE
  {
    Signed16(U16At(file, BITS_OFFSET))
  }

  function DataSizeField(file: seq<byte>): int
    requires |file| >= HEADER_SIZE
  {
    Signed32(U32At(file, DATA_SIZE_OFFSET))
  }

  /** Validates the header at the start of `file` and extracts its format.
      Tags are checked before the bit depth, as in the source; a file too
      short to hold a header is an error rather than a read of
      uninitialised memory. */
  function ParseHeader(file: seq<byte>): (r: Result<WavFormat>)
    ensures r.Ok? <==> |file| >= HEADER_SIZE && HasWaveTags(file) && BitsField(file) == SUPPORTED_BITS
    ensures |file| < HEADER_SIZE ==> r == Err(TruncatedHeader)
    ensures |file| >= HEADER_SIZE && !HasWaveTags(file) ==> r == Err(InvalidContainer)
    ensures |file| >= HEADER_SIZE && HasWaveTags(file) && BitsField(file) != SUPPORTED_BITS
            ==> r == Err(UnsupportedBitDepth(BitsField(file)))
    ensures r.Ok? ==> && r.value.Encodable()
                      && r.value.bitsPerSample == SUPPORTED_BITS
                      && r.value.channels == ChannelsField(file)
                      && r.value.sampleRate == SampleRateField(file)
                      && r.value.dataSize == DataSizeField(file)
  {
    if |file| < HEADER_SIZE then
      Err(TruncatedHeader)
    else if !HasWaveTags(file) then
      Err(InvalidContainer)
    else
      var bits := BitsField(file);
      if bits != SUPPORTED_BITS then
        Err(UnsupportedBitDepth(bits))
      else
        Ok(WavFormat(ChannelsField(file), SampleRateField(file), bits, DataSizeField(file)))
  }

  /** A canonical 44-byte header for `f`. The fields the decoder ignores
      (RIFF size, fmt size, PCM tag, byte rate, block align) get their
      conventional values, wrapped to their widths. */
  function EncodeHeader(f: WavFormat): (h: seq<byte>)
    requires f.Encodable()
    ensures |h| == HEADER_SIZE
  {
    var ch := Unsigned16(f.channels);
    var bits := Unsigned16(f.bitsPerSample);
    var blockAlign := (ch * (bits / 8)) % TWO_TO_THE_16;
    var byteRate := (f.sampleRate * blockAlign) % TWO_TO_THE_32;
    var riffSize := (Unsigned32(f.dataSize) + 36) % TWO_TO_THE_32;
    (RIFF_TAG + LE32(riffSize) + WAVE_TAG)
    + (FMT_TAG + LE32(16) + LE16(1) + LE16(ch))
    + (LE32(f.sampleRate) + LE32(byteRate) + LE16(blockAlign) + LE16(bits))
    + (DATA_TAG + LE32(Unsigned32(f.dataSize)))
  }

  /** Where the encoder puts each field the decoder reads. */
  lemma EncodedLayout(f: WavFormat)
    requires f.Encodable()
    ensures var h := EncodeHeader(f);
            && h[RIFF_OFFSET..RIFF_OFFSET + 4] == RIFF_TAG
            && h[WAVE_OFFSET..WAVE_OFFSET + 4] == WAVE_TAG
            && h[CHANNELS_OFFSET..CHANNELS_OFFSET + 2] == LE16(Unsigned16(f.channels))
            && h[SAMPLE_RATE_OFFSET..SAMPLE_RATE_OFFSET + 4] == LE32(f.sampleRate)
            && h[BITS_OFFSET..BITS_OFFSET + 2] == LE16(Unsigned16(f.bitsPerSample))
            && h[DATA_SIZE_OFFSET..DATA_SIZE_OFFSET + 4] == LE32(Unsigned32(f.dataSize))
  {
    var ch := Unsigned16(f.channels);
    var bits := Unsigned16(f.bitsPerSample);
    var blockAlign := (ch * (bits / 8)) % TWO_TO_THE_16;
    var byteRate := (f.sampleRate * blockAlign) % TWO_TO_THE_32;
    var riffSize := (Unsigned32(f.dataSize) + 36) % TWO_TO_THE_32;
    var a := RIFF_TAG + LE32(riffSize) + WAVE_TAG;
    var b := FMT_TAG + LE32(16) + LE16(1) + LE16(ch);
    var c := LE32(f.sampleRate) + LE32(byteRate) + LE16(blockAlign) + LE16(bits);
    var d := DATA_TAG + LE32(Unsigned32(f.dataSize));
    var h := EncodeHeader(f);
    assert h == a + b + c + d;
    assert h[0..4] == a[0..4];
    assert h[8..12] == a[8..12];
    assert h[22..24] == b[10..12];
    assert h[24..28] == c[0..4];
    assert h[34..36] == c[10..12];
    assert h[40..44] == d[4..8];
  }

  /** Encoding a format and decoding the result gives the format back,
      whatever bytes follow the header; the only format refused is one
      whose bit depth is not 16. */
  lemma HeaderRoundTrip(f: WavFormat, payload: seq<byte>)
    requires f.Encodable()
    ensures var file := EncodeHeader(f) + payload;
            && |file| >= HEADER_SIZE
            && HasWaveTags(file)
            && ChannelsField(file) == f.channels
            && SampleRateField(file) == f.sampleRate
            && BitsField(file) == f.bitsPerSample
            && DataSizeField(file) == f.dataSize
    ensures ParseHeader(EncodeHeader(f) + payload)
            == if f.bitsPerSample == SUPPORTED_BITS then Ok(f) else Err(UnsupportedBitDepth(f.bitsPerSample))
  {
    var h := EncodeHeader(f);
    var file := h + payload;
    EncodedLayout(f);
    assert file[..HEADER_SIZE] == h;
    U16AtSlice(file, CHANNELS_OFFSET, LE16(Unsigned16(f.channels)));
    U32AtSlice(file, SAMPLE_RATE_OFFSET, LE32(f.sampleRate));
    U16AtSlice(file, BITS_OFFSET, LE16(Unsigned16(f.bitsPerSample)));
    U32AtSlice(file, DATA_SIZE_OFFSET, LE32(Unsigned32(f.dataSize)));
  }
}
