/** The pull-driven playback engine: the audio callback that, asked for a
    block of frames, copies what is left of the decoded buffer, pads the
    rest of the block with silence and reports whether the stream goes on.
    The callback is modelled as a pure function from the playback state and
    the requested frame count to the output block, the next state and the
    status handed back to the audio library. */
module Playback {
  import opened Arith

  /** One signed 16-bit PCM sample. */
  newtype int16 = x: int | -0x8000 <= x < 0x8000

  /** The callback's return value: `paContinue` or `paComplete`. */
  datatype Status = Continue | Complete

  /** The decoded audio and the playback cursor. `samples` holds interleaved
      frames `[frame0_ch0, frame0_ch1, ..., frame1_ch0, ...]`. */
  datatype Player = Player(samples: seq<int16>, channels: nat, totalFrames: nat, currentFrame: nat)
  {
    /** What a successful load establishes and every tick keeps: a positive
        channel count, a cursor within `[0, totalFrames]`, and a buffer long
        enough for every frame the cursor can reach. */
    predicate Valid() {
      && 0 < channels
      && currentFrame <= totalFrames
      && totalFrames * channels <= |samples|
    }

    function Remaining(): nat
      requires currentFrame <= totalFrames
    {
      totalFrames - currentFrame
    }

    /** The terminal state: every frame has been handed out. */
    predicate Drained() {
      currentFrame == totalFrames
    }
  }

  /** One callback invocation: the block written to the output buffer, the
      state afterwards, and the status returned. */
  datatype TickResult = TickResult(output: seq<int16>, next: Player, status: Status)

  function Min(a: nat, b: nat): nat {
    if a <= b then a else b
  }

  /** `n` zero samples. */
  function Silence(n: nat): (z: seq<int16>)
    ensures |z| == n
    ensures forall i | 0 <= i < n :: z[i] == 0
  {
    seq(n, _ => 0)
  }

  /** Silence for `frames` frames of `channels` samples each, one frame at a
      time. */
  function SilentFrames(frames: nat, channels: nat): seq<int16>
    decreases frames
  {
    if frames == 0 then [] else Silence(channels) + SilentFrames(frames - 1, channels)
  }

  /** `frames` silent frames are `frames * channels` zero samples. */
  lemma {:induction false} SilentFramesAreSilence(frames: nat, channels: nat)
    ensures SilentFrames(frames, channels) == Silence(frames * channels)
    decreases frames
  {
    if frames > 0 {
      SilentFramesAreSilence(frames - 1, channels);
      assert (frames - 1) * channels + channels == frames * channels;
      assert Silence(channels) + Silence((frames - 1) * channels) == Silence(frames * channels);
    }
  }

  /** `framesToCopy`: the smaller of the request and the frames left. */
  function FramesToCopy(p: Player, request: nat): (n: nat)
    requires p.currentFrame <= p.totalFrames
    ensures n <= request && n <= p.Remaining()
    ensures n == request || n == p.Remaining()
  {
    Min(request, p.Remaining())
  }

  /** The index arithmetic of one tick that copies `k` of `r` requested
      frames from cursor `cur` of a buffer of `total` frames of `ch` samples. */
  lemma TickArith(cur: nat, k: nat, r: nat, total: nat, ch: nat)
    requires k <= r && cur + k <= total
    ensures cur * ch + k * ch == (cur + k) * ch
    ensures (cur + k) * ch <= total * ch
    ensures k * ch <= r * ch
    ensures (r - k) * ch == r * ch - k * ch
  {
    MulLe(cur + k, total, ch);
    MulLe(k, r, ch);
  }

  /** The samples of frames `[from, to)`. */
  function Frames(p: Player, from: nat, to: nat): (s: seq<int16>)
    requires p.Valid() && from <= to <= p.totalFrames
    ensures s <= p.samples[from * p.channels..]
  {
    MulLe(from, to, p.channels);
    MulLe(to, p.totalFrames, p.channels);
    p.samples[from * p.channels .. to * p.channels]
  }

  /** Frames `[from, to)` are `channels` samples each. */
  lemma FramesLength(p: Player, from: nat, to: nat)
    requires p.Valid() && from <= to <= p.totalFrames
    ensures |Frames(p, from, to)| == (to - from) * p.channels
  {
    MulLe(from, to, p.channels);
  }

  /** `block` has length `len`; its first `copied` samples are `src` from
      `start` on, and all the others are silence. */
  predicate CopiedThenSilent(block: seq<int16>, src: seq<int16>, start: nat, copied: nat, len: nat)
  {
    && |block| == len
    && copied <= len
    && start + copied <= |src|
    && block[..copied] == src[start .. start + copied]
    && forall i | copied <= i < len :: block[i] == 0
  }

  /** The audio callback for a request of `request` frames. When something
      is left it copies `framesToCopy` frames, advances the cursor and pads
      the block with silence, returning Continue; otherwise it fills the whole
      block with silence and returns Complete. A request of zero frames
      copies nothing and therefore also returns Complete, even when frames
      remain. TickBlock states what the block holds. */
  function Tick(p: Player, request: nat): (t: TickResult)
    requires p.Valid()
    ensures t.next.Valid()
    ensures t.next == p.(currentFrame := p.currentFrame + Min(request, p.totalFrames - p.currentFrame))
    ensures t.status == Complete <==> request == 0 || p.Drained()
  {
    var toCopy := FramesToCopy(p, request);
    if toCopy > 0 then
      var next := p.(currentFrame := p.currentFrame + toCopy);
      var copied := Frames(p, p.currentFrame, next.currentFrame);
      TickResult(copied + SilentFrames(request - toCopy, p.channels), next, Continue)
    else
      TickResult(SilentFrames(request, p.channels), p, Complete)
  }

  /** The block a tick writes: `request * channels` samples, of which the
      first `min(request, remaining) * channels` are the buffer's samples from
      `currentFrame * channels` on, and all the others are zero. */
  lemma TickBlock(p: Player, request: nat)
    requires p.Valid()
    ensures CopiedThenSilent(Tick(p, request).output, p.samples, p.currentFrame * p.channels,
                             Min(request, p.totalFrames - p.currentFrame) * p.channels, request * p.channels)
  {
    var toCopy := FramesToCopy(p, request);
    TickArith(p.currentFrame, toCopy, request, p.totalFrames, p.channels);
    var out := Tick(p, request).output;
    if toCopy > 0 {
      var copied := Frames(p, p.currentFrame, p.currentFrame + toCopy);
      SilentFramesAreSilence(request - toCopy, p.channels);
      assert out == copied + Silence((request - toCopy) * p.channels);
      assert out[..|copied|] == copied;
    } else {
      SilentFramesAreSilence(request, p.channels);
      assert out == Silence(request * p.channels);
    }
  }

  /** The `memcpy` of the callback: `count` samples of `src` from `start` on,
      appended one at a time. */
  method CopySamples(src: seq<int16>, start: nat, count: nat) returns (out: seq<int16>)
    requires start + count <= |src|
    ensures out == src[start .. start + count]
  {
    out := [];
    var i := 0;
    while i < count
      invariant 0 <= i <= count
      invariant out == src[start .. start + i]
    {
      out := out + [src[start + i]];
      i := i + 1;
    }
  }

  /** The `memset` of the callback: `count` zero samples, appended one at a time. */
  method ZeroSamples(count: nat) returns (out: seq<int16>)
    ensures out == Silence(count)
  {
    out := [];
    var j := 0;
    while j < count
      invariant 0 <= j <= count
      invariant out == Silence(j)
    {
      out := out + [0];
      j := j + 1;
    }
  }

  /** The callback as the source writes it: a `memcpy` of the frames to
      copy, then a `memset` of the remaining slots. It computes exactly what
      Tick specifies. */
  method Callback(p: Player, request: nat) returns (output: seq<int16>, next: Player, status: Status)
    requires p.Valid()
    ensures TickResult(output, next, status) == Tick(p, request)
  {
    var framesRemaining := p.totalFrames - p.currentFrame;
    var framesToCopy := if framesRemaining < request then framesRemaining else request;
    if framesToCopy > 0 {
      TickArith(p.currentFrame, framesToCopy, request, p.totalFrames, p.channels);
      var copied := CopySamples(p.samples, p.currentFrame * p.channels, framesToCopy * p.channels);
      next := p.(currentFrame := p.currentFrame + framesToCopy);
      assert copied == Frames(p, p.currentFrame, next.currentFrame);
      var silence := ZeroSamples((request - framesToCopy) * p.channels);
      SilentFramesAreSilence(request - framesToCopy, p.channels);
      output := copied + silence;
      status := Continue;
      assert Tick(p, request) == TickResult(output, next, status);
    } else {
      output := ZeroSamples(request * p.channels);
      SilentFramesAreSilence(request, p.channels);
      next := p;
      status := Complete;
      assert Tick(p, request) == TickResult(output, next, status);
    }
  }
}
