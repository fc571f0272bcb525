/** The player's control flow without the audio library: after a load,
    the stream pulls blocks of a fixed size until the callback reports
    completion. Opening, starting, polling and closing the stream are the
    audio library's business and are not modelled. */
module WavPlayer {
  import opened Playback
  import opened Schedule

  /** The block size both programs open their stream with. */
  const FRAMES_PER_BUFFER: nat := 256

  /** Playing from frame 0, where LoadWav leaves the player, with 256-frame
      blocks: after `ceil(totalFrames / 256)` ticks that all return Continue,
      the output so far is every frame of the buffer, in order, followed by
      the silence padding the last block, and the player is drained. */
  lemma PlayFromStart(p: Player)
    requires p.Valid() && p.currentFrame == 0
    ensures var n := TicksNeeded(p.totalFrames, FRAMES_PER_BUFFER);
            var run := Play(p, Repeat(FRAMES_PER_BUFFER, n));
            && n == CeilDiv(p.totalFrames, FRAMES_PER_BUFFER)
            && n * FRAMES_PER_BUFFER == p.totalFrames + Padding(p.totalFrames, FRAMES_PER_BUFFER)
            && run.final.Drained()
            && run.output == p.samples[..p.totalFrames * p.channels]
                             + Silence(Padding(p.totalFrames, FRAMES_PER_BUFFER) * p.channels)
            && forall i | 0 <= i < n :: run.statuses[i] == Continue
  {
    PlayToEnd(p, FRAMES_PER_BUFFER);
    SilentFramesAreSilence(Padding(p.totalFrames, FRAMES_PER_BUFFER), p.channels);
    assert Frames(p, 0, p.totalFrames) == p.samples[..p.totalFrames * p.channels];
  }
}
