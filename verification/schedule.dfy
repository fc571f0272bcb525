/** Sequences of callback invocations. The audio library calls the
    callback again and again, one call at a time; these definitions and
    lemmas follow the playback state across such a sequence. */
module Schedule {
  import opened Arith
  import opened Playback

  /** What a sequence of ticks produced: every output block concatenated,
      the state after the last tick, and each tick's status in order. */
  datatype Run = Run(output: seq<int16>, final: Player, statuses: seq<Status>)

  /** Runs one tick per entry of `requests`, in order. Whatever the requests,
      the cursor never moves backwards, never passes the end of the buffer,
      and nothing but the cursor changes. */
  function Play(p: Player, requests: seq<nat>): (run: Run)
    requires p.Valid()
    ensures run.final.Valid()
    ensures run.final == p.(currentFrame := run.final.currentFrame)
    ensures p.currentFrame <= run.final.currentFrame <= p.totalFrames
    ensures |run.statuses| == |requests|
    decreases |requests|
  {
    if |requests| == 0 then
      Run([], p, [])
    else
      var t := Tick(p, requests[0]);
      var rest := Play(t.next, requests[1..]);
      Run(t.output + rest.output, rest.final, [t.status] + rest.statuses)
  }

  /** `n` requests of `r` frames each: the fixed block size the stream is
      opened with. */
  function Repeat(r: nat, n: nat): (rs: seq<nat>)
    ensures |rs| == n
    ensures forall i | 0 <= i < n :: rs[i] == r
  {
    seq(n, _ => r)
  }

  /** Ceiling division, `ceil(a / b)`. */
  function CeilDiv(a: nat, b: nat): nat
    requires 0 < b
  {
    (a + b - 1) / b
  }

  /** One block of `r` frames taken off `a > 0` remaining frames leaves
      exactly one block fewer to go. */
  lemma CeilDivStep(a: nat, r: nat)
    requires 0 < r && 0 < a
    ensures CeilDiv(a, r) == 1 + CeilDiv(a - Min(r, a), r)
  {
    if a <= r {
      DivUnique(a + r - 1, r, 1, a - 1);
      DivUnique(r - 1, r, 0, r - 1);
    } else {
      var y := a - 1;
      var q, m := y / r, y % r;
      assert y == q * r + m;
      assert y + r == (q + 1) * r + m;
      DivUnique(y + r, r, q + 1, m);
      assert CeilDiv(a, r) == (y + r) / r;
      assert CeilDiv(a - r, r) == q;
    }
  }

  /** The frames of `[from, mid)` followed by those of `[mid, to)` are the
      frames of `[from, to)`. */
  lemma FramesSplit(p: Player, from: nat, mid: nat, to: nat)
    requires p.Valid() && from <= mid <= to <= p.totalFrames
    ensures Frames(p, from, mid) + Frames(p, mid, to) == Frames(p, from, to)
  {
    MulLe(from, mid, p.channels);
    MulLe(mid, to, p.channels);
    MulLe(to, p.totalFrames, p.channels);
    var a, b, c := from * p.channels, mid * p.channels, to * p.channels;
    assert p.samples[a..b] + p.samples[b..c] == p.samples[a..c];
  }

  /** The same split with the frames followed by padding: the frames of
      `[from, mid)`, then those of `[mid, to)` followed by `pad`, are the
      frames of `[from, to)` followed by `pad`. */
  lemma FramesSplitPadded(p: Player, from: nat, mid: nat, to: nat, pad: seq<int16>)
    requires p.Valid() && from <= mid <= to <= p.totalFrames
    ensures Frames(p, from, mid) + (Frames(p, mid, to) + pad) == Frames(p, from, to) + pad
  {
    FramesSplit(p, from, mid, to);
    var head, rest := Frames(p, from, mid), Frames(p, mid, to);
    assert head + (rest + pad) == (head + rest) + pad;
  }

  /** Once drained, playback stays drained: every further tick, of any size,
      leaves the state as it is, returns Complete and outputs only silence. */
  lemma {:induction false} DrainedIsIdempotent(p: Player, requests: seq<nat>)
    requires p.Valid() && p.Drained()
    ensures Play(p, requests).final == p
    ensures forall i | 0 <= i < |requests| :: Play(p, requests).statuses[i] == Complete
    ensures forall i | 0 <= i < |Play(p, requests).output| :: Play(p, requests).output[i] == 0
    decreases |requests|
  {
    if |requests| > 0 {
      var t := Tick(p, requests[0]);
      DrainedIsIdempotent(t.next, requests[1..]);
      var rest := Play(t.next, requests[1..]);
      assert t.next == p;
      SilentFramesAreSilence(requests[0], p.channels);
      assert Play(p, requests).output == t.output + rest.output;
      assert Play(p, requests).statuses == [t.status] + rest.statuses;
    }
  }

  /** A tick's block, frame by frame: the frames it copies, then silence. */
  lemma TickAsFrames(p: Player, r: nat)
    requires p.Valid()
    ensures var k := Min(r, p.Remaining());
            Tick(p, r).output == Frames(p, p.currentFrame, p.currentFrame + k) + SilentFrames(r - k, p.channels)
  {
    if Min(r, p.Remaining()) == 0 {
      assert Frames(p, p.currentFrame, p.currentFrame) == [];
    }
  }

  /** Playing `n + 1` blocks is one tick followed by playing `n` blocks. */
  lemma PlayRepeatStep(p: Player, r: nat, n: nat)
    requires p.Valid()
    ensures var t := Tick(p, r);
            var rest := Play(t.next, Repeat(r, n));
            Play(p, Repeat(r, n + 1)) == Run(t.output + rest.output, rest.final, [t.status] + rest.statuses)
  {
    assert Repeat(r, n + 1)[0] == r && Repeat(r, n + 1)[1..] == Repeat(r, n);
  }

  /** How many ticks of `r` frames it takes to hand out `rem` frames, and
      how many frames of silence pad the last of them, counted tick by tick. */
  function TicksNeeded(rem: nat, r: nat): nat
    requires 0 < r
    decreases rem
  {
    if rem == 0 then 0 else 1 + TicksNeeded(rem - Min(r, rem), r)
  }

  function Padding(rem: nat, r: nat): nat
    requires 0 < r
    decreases rem
  {
    if rem == 0 then 0 else if rem <= r then r - rem else Padding(rem - r, r)
  }

  /** Counting tick by tick gives the closed form `ceil(rem / r)`. */
  lemma {:induction false} TicksNeededIsCeiling(rem: nat, r: nat)
    requires 0 < r
    ensures TicksNeeded(rem, r) == CeilDiv(rem, r)
    decreases rem
  {
    if rem == 0 {
      DivUnique(r - 1, r, 0, r - 1);
    } else {
      CeilDivStep(rem, r);
      TicksNeededIsCeiling(rem - Min(r, rem), r);
    }
  }

  /** The `r`-frame blocks of the counted ticks exceed the `rem` frames they
      hand out by exactly the padding. */
  lemma {:induction false} TicksCoverRemaining(rem: nat, r: nat)
    requires 0 < r
    ensures TicksNeeded(rem, r) * r == rem + Padding(rem, r)
    decreases rem
  {
    if rem > 0 {
      var n' := TicksNeeded(rem - Min(r, rem), r);
      TicksCoverRemaining(rem - Min(r, rem), r);
      assert (n' + 1) * r == n' * r + r;
    }
  }

  /** With a fixed block size `r > 0`, the ticks counted by TicksNeeded drain
      the buffer, and every one of them returns Continue. */
  lemma {:induction false} DrainTicks(p: Player, r: nat)
    requires p.Valid() && 0 < r
    ensures var n := TicksNeeded(p.Remaining(), r);
            var run := Play(p, Repeat(r, n));
            && run.final.Drained()
            && forall i | 0 <= i < n :: run.statuses[i] == Continue
    decreases p.Remaining()
  {
    var n := TicksNeeded(p.Remaining(), r);
    if p.Remaining() > 0 {
      var t := Tick(p, r);
      var n' := TicksNeeded(t.next.Remaining(), r);
      assert n == n' + 1;
      DrainTicks(t.next, r);
      PlayRepeatStep(p, r, n');
      var rest := Play(t.next, Repeat(r, n'));
      var run := Play(p, Repeat(r, n));
      assert run.statuses == [t.status] + rest.statuses;
      assert forall i | 1 <= i < n :: run.statuses[i] == rest.statuses[i - 1];
    }
  }

  /** A full tick (`r` frames still to come after it, or exactly `r` left)
      contributes its `r` frames and no silence. */
  lemma FullTickOutput(p: Player, r: nat, n: nat)
    requires p.Valid() && 0 < r <= p.Remaining()
    ensures Play(p, Repeat(r, n + 1)).output
            == Frames(p, p.currentFrame, p.currentFrame + r) + Play(p.(currentFrame := p.currentFrame + r), Repeat(r, n)).output
  {
    var t := Tick(p, r);
    assert t.next == p.(currentFrame := p.currentFrame + r);
    assert t.output == Frames(p, p.currentFrame, p.currentFrame + r) by {
      TickAsFrames(p, r);
      assert SilentFrames(r - r, p.channels) == [];
    }
    PlayRepeatStep(p, r, n);
  }

  /** The last tick hands out the `rem < r` frames left and pads the block. */
  lemma LastTickOutput(p: Player, r: nat)
    requires p.Valid() && 0 < p.Remaining() < r
    ensures Play(p, Repeat(r, 1)).output
            == Frames(p, p.currentFrame, p.totalFrames) + SilentFrames(r - p.Remaining(), p.channels)
  {
    PlayRepeatStep(p, r, 0);
    TickAsFrames(p, r);
    var t := Tick(p, r);
    assert Play(t.next, Repeat(r, 0)).output == [];
  }

  /** A full first tick followed by ticks that hand out the rest of the
      frames and then `pad` hands out all the remaining frames and then `pad`. */
  lemma DrainOutputStep(p: Player, r: nat, n: nat, pad: seq<int16>)
    requires p.Valid() && 0 < r <= p.Remaining()
    requires Play(p.(currentFrame := p.currentFrame + r), Repeat(r, n)).output
             == Frames(p, p.currentFrame + r, p.totalFrames) + pad
    ensures Play(p, Repeat(r, n + 1)).output == Frames(p, p.currentFrame, p.totalFrames) + pad
  {
    var mid := p.currentFrame + r;
    var whole := Play(p, Repeat(r, n + 1)).output;
    var head := Frames(p, p.currentFrame, mid);
    var tail := Play(p.(currentFrame := p.currentFrame + r), Repeat(r, n)).output;
    var rest := Frames(p, p.currentFrame + r, p.totalFrames);
    assert whole == head + tail by {
      FullTickOutput(p, r, n);
    }
    assert tail == rest + pad;
    FramesSplitPadded(p, p.currentFrame, mid, p.totalFrames, pad);
  }

  /** With a fixed block size `r > 0`, the blocks of the ticks that drain the
      buffer, concatenated, are the remaining samples in order, each exactly
      once, followed by the silence that pads the last block. */
  lemma {:induction false} DrainOutput(p: Player, r: nat)
    requires p.Valid() && 0 < r
    ensures Play(p, Repeat(r, TicksNeeded(p.Remaining(), r))).output
            == Frames(p, p.currentFrame, p.totalFrames) + SilentFrames(Padding(p.Remaining(), r), p.channels)
    decreases p.Remaining()
  {
    var rem := p.Remaining();
    if rem == 0 {
      assert Frames(p, p.currentFrame, p.totalFrames) == [];
    } else if rem < r {
      assert TicksNeeded(rem, r) == 1 && Padding(rem, r) == r - rem;
      LastTickOutput(p, r);
    } else {
      var next := p.(currentFrame := p.currentFrame + r);
      var n' := TicksNeeded(rem - r, r);
      var pad := SilentFrames(Padding(rem - r, r), p.channels);
      assert Play(next, Repeat(r, n')).output == Frames(p, p.currentFrame + r, p.totalFrames) + pad by {
        assert next.Remaining() == rem - r;
        DrainOutput(next, r);
        assert Frames(next, next.currentFrame, next.totalFrames) == Frames(p, p.currentFrame + r, p.totalFrames);
      }
      DrainOutputStep(p, r, n', pad);
      assert TicksNeeded(rem, r) == n' + 1 && Padding(rem, r) == Padding(rem - r, r);
    }
  }

  /** Playing with a fixed block size `r > 0` hands out every remaining frame
      exactly once, in order, in `ceil(remaining / r)` ticks that all return
      Continue. The state is then drained, so by Tick's contract the next
      tick returns Complete, and by DrainedIsIdempotent so does every tick
      after it, each with a silent block. */
  lemma PlayToEnd(p: Player, r: nat)
    requires p.Valid() && 0 < r
    ensures var n := TicksNeeded(p.Remaining(), r);
            var run := Play(p, Repeat(r, n));
            && n == CeilDiv(p.Remaining(), r)
            && n * r == p.Remaining() + Padding(p.Remaining(), r)
            && run.final.Drained()
            && run.output == Frames(p, p.currentFrame, p.totalFrames) + SilentFrames(Padding(p.Remaining(), r), p.channels)
            && (forall i | 0 <= i < n :: run.statuses[i] == Continue)
  {
    TicksNeededIsCeiling(p.Remaining(), r);
    TicksCoverRemaining(p.Remaining(), r);
    DrainTicks(p, r);
    DrainOutput(p, r);
  }
}
