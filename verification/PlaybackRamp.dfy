/**
  The DMA half filler of applications/es8311_audio.c (es8311_audio_fill_tx_range): call the renderer, apply
  the start-up ramp to what it produced and pad the rest with silence.
 */
module PlaybackRamp {
  import opened FixedPoint
  import opened MixSpec
  import opened Streams

  const RAMP_FRAMES := 1024
  const HALF_FRAMES := 512

  /** The k-th frame since the DMA was started is scaled by k/1023 (towards zero) until the ramp is over. */
  function RampSample(sample: Sample, k: nat): (r: Sample)
    ensures sample >= 0 ==> 0 <= r <= sample
    ensures sample <= 0 ==> sample <= r <= 0
  {
    if k >= RAMP_FRAMES then sample
    else
      TruncatedContracts(sample, k);
      assert Int16(sample);
      Truncated(sample * k, 1023)
  }

  lemma TruncatedContracts(x: int, k: nat)
    requires k <= 1023
    ensures x >= 0 ==> 0 <= Truncated(x * k, 1023) <= x
    ensures x <= 0 ==> x <= Truncated(x * k, 1023) <= 0
  {
    ProductIsMonotone(x, 0, k);
    ProductIsMonotone(x, k, 1023);
  }

  function RampFrame(frame: Stereo, k: nat): Stereo { Stereo(RampSample(frame.left, k), RampSample(frame.right, k)) }

  /** One rendered frame: the counter stops at the end of the ramp. */
  function RampStep(k: nat, frame: Stereo): (nat, Stereo) {
    (if k < RAMP_FRAMES then k + 1 else k, RampFrame(frame, k))
  }

  function Ramp(k: nat, frames: seq<Stereo>): (nat, seq<Stereo>) { Scan(RampStep, k, frames) }

  // ---- What the ramp does ------------------------------------------------------------------

  /** Both channels get the same gain, frame k of the start-up exactly k/1023, and later frames pass unchanged. */
  lemma {:induction false} RampIsPointwise(start: nat, frames: seq<Stereo>)
    requires start <= RAMP_FRAMES
    ensures Ramp(start, frames).0 == Min(start + |frames|, RAMP_FRAMES)
    ensures forall i :: 0 <= i < |frames| ==> Ramp(start, frames).1[i] == RampFrame(frames[i], start + i)
    ensures forall i :: 0 <= i < |frames| ==>
              Ramp(start, frames).1[i].left == RampSample(frames[i].left, start + i)
              && Ramp(start, frames).1[i].right == RampSample(frames[i].right, start + i)
  {
    if frames != [] {
      var n := |frames| - 1;
      RampIsPointwise(start, frames[..n]);
      assert Ramp(start, frames).1 == Ramp(start, frames[..n]).1 + [RampFrame(frames[n], Ramp(start, frames[..n]).0)];
    }
  }

  lemma TruncatedMagnitude(x: int, k: nat)
    ensures Abs(Truncated(x * k, 1023)) == Abs(x) * k / 1023
  {
    if x < 0 {
      assert -(x * k) == (-x) * k;
    }
    ProductIsMonotone(Abs(x), 0, k);
  }

  /** During the ramp a sample keeps its sign and k/1023 of its magnitude, rounded down; afterwards it is itself. */
  lemma RampIsAFraction(sample: Sample, k: nat)
    ensures k >= 1024 ==> RampSample(sample, k) == sample
    ensures k < 1024 ==>
              var size := Abs(RampSample(sample, k));
              1023 * size <= Abs(sample) * k < 1023 * size + 1023
    ensures sample >= 0 ==> RampSample(sample, k) >= 0
    ensures sample <= 0 ==> RampSample(sample, k) <= 0
  {
    if k < 1024 { TruncatedMagnitude(sample, k); }
  }

  /** The gain rises monotonically from silence to exactly one: no click at the start, at a half or at the end. */
  lemma RampRises(sample: Sample, k: nat)
    ensures RampSample(sample, 0) == 0 && RampSample(sample, RAMP_FRAMES - 1) == sample
    ensures Abs(RampSample(sample, k)) <= Abs(RampSample(sample, k + 1))
    ensures k < RAMP_FRAMES ==> Int32(sample * k)
  {
    if k + 1 < RAMP_FRAMES {
      TruncatedMagnitude(sample, k);
      TruncatedMagnitude(sample, k + 1);
      ProductIsMonotone(Abs(sample), k, k + 1);
    }
    if k < RAMP_FRAMES {
      assert Int16(sample);
      ProductIsMonotone(sample, 0, k);
      ProductIsMonotone(sample, k, 1024);
    }
  }

  function RampBlocks(k: nat, blocks: seq<seq<Stereo>>): (nat, seq<seq<Stereo>>) { Scan(Ramp, k, blocks) }

  /** However the rendered frames are divided among fills, the ramp is the ramp of the whole stream. */
  lemma {:induction false} RampIsContinuous(k: nat, blocks: seq<seq<Stereo>>)
    ensures RampBlocks(k, blocks).0 == Ramp(k, Flatten(blocks)).0
    ensures Flatten(RampBlocks(k, blocks).1) == Ramp(k, Flatten(blocks)).1
  {
    if blocks != [] {
      var n := |blocks| - 1;
      RampIsContinuous(k, blocks[..n]);
      ScanConcat(RampStep, k, Flatten(blocks[..n]), blocks[n]);
      var done := RampBlocks(k, blocks[..n]);
      var last := Ramp(done.0, blocks[n]);
      assert RampBlocks(k, blocks).1 == done.1 + [last.1];
      assert (done.1 + [last.1])[..n] == done.1;
    }
  }

  // ---- The filler --------------------------------------------------------------------------

  class TxFiller {
    const txBuffer: array<Sample>
    var rampFrame: nat
    var playbackRunning: bool
    var startPending: bool
    var rendererSet: bool
    var underflowPrinted: bool

    constructor (frames: nat)
      ensures txBuffer.Length == 2 * frames && fresh(txBuffer) && rampFrame == 0
    {
      txBuffer := new Sample[2 * frames];
      rampFrame, playbackRunning, startPending, rendererSet, underflowPrinted := 0, false, false, false, false;
    }

    /** The frames in a stretch of the interleaved buffer. */
    ghost function Stretch(offset: nat, frames: nat): (s: seq<Stereo>)
      reads txBuffer
      requires 2 * (offset + frames) <= txBuffer.Length
      ensures |s| == frames
    {
      seq(frames, i requires 0 <= i < frames && 2 * (offset + frames) <= txBuffer.Length reads txBuffer =>
        Stereo(txBuffer[2 * (offset + i)], txBuffer[2 * (offset + i) + 1]))
    }

    /** Left and right samples alternate, from sample 2 * offset on. */
    lemma StretchInterleaves(offset: nat, frames: nat, i: nat)
      requires 2 * (offset + frames) <= txBuffer.Length && i < frames
      ensures Stretch(offset, frames)[i].left == txBuffer[2 * offset + 2 * i]
      ensures Stretch(offset, frames)[i].right == txBuffer[2 * offset + 2 * i + 1]
    {
    }

    predicate RendererRuns()
      reads this
    {
      playbackRunning && !startPending && rendererSet
    }

    /**
      `written` is whatever the renderer left in the target stretch and `claimed` the count it returned; a
      count beyond the stretch is clipped. The stretch ends up as the ramped rendered frames followed by
      silence, and nothing outside it changes.
     */
    method FillTxRange(offset: nat, frames: nat, written: seq<Stereo>, claimed: nat)
      requires 2 * (offset + frames) <= txBuffer.Length && |written| == frames && rampFrame <= RAMP_FRAMES
      modifies this`rampFrame, this`underflowPrinted, txBuffer
      ensures var rendered := if playbackRunning && !startPending && rendererSet then Min(claimed, frames) else 0;
              var (after, ramped) := Ramp(old(rampFrame), written[..rendered]);
              && rampFrame == after <= RAMP_FRAMES
              && Stretch(offset, frames) == ramped + seq(frames - rendered, i => SILENCE)
              && underflowPrinted == (old(underflowPrinted) || (rendered < frames && playbackRunning))
      ensures forall k :: 0 <= k < txBuffer.Length && !(2 * offset <= k < 2 * (offset + frames)) ==> txBuffer[k] == old(txBuffer[k])
    {
      var rendered := 0;
      if playbackRunning && !startPending && rendererSet {
        CopyRendered(offset, written);
        rendered := claimed;
        if rendered > frames {
          rendered := frames;
        }
      }
      RampRendered(offset, frames, rendered, if RendererRuns() then written else Stretch(offset, frames));
      if rendered < frames && playbackRunning && !underflowPrinted {
        underflowPrinted := true;
      }
      PadSilence(offset, frames, rendered);
    }

    function RenderedFrames(claimed: nat, frames: nat): (n: nat)
      reads this
      ensures n <= frames
    {
      if RendererRuns() then Min(claimed, frames) else 0
    }

    /**
      The fills of es8311_audio_start_playback_dma, before the DMA runs: the ramp starts over, and what the two
      halves hold of rendered frames is the ramp of the rendered stream from its first frame on.
     */
    method Prefill(first: seq<Stereo>, firstClaimed: nat, second: seq<Stereo>, secondClaimed: nat)
      requires txBuffer.Length == 4 * HALF_FRAMES && |first| == |second| == HALF_FRAMES
      modifies this`rampFrame, this`underflowPrinted, txBuffer
      ensures var (n, k) := (RenderedFrames(firstClaimed, HALF_FRAMES), RenderedFrames(secondClaimed, HALF_FRAMES));
              var (after, ramped) := Ramp(0, first[..n] + second[..k]);
              && rampFrame == after
              && Stretch(0, HALF_FRAMES) == ramped[..n] + seq(HALF_FRAMES - n, i => SILENCE)
              && Stretch(HALF_FRAMES, HALF_FRAMES) == ramped[n..] + seq(HALF_FRAMES - k, i => SILENCE)
    {
      ghost var n, k := RenderedFrames(firstClaimed, HALF_FRAMES), RenderedFrames(secondClaimed, HALF_FRAMES);
      PadSilence(0, 2 * HALF_FRAMES, 0);
      rampFrame := 0;
      FillTxRange(0, HALF_FRAMES, first, firstClaimed);
      ghost var middle, filled := rampFrame, Stretch(0, HALF_FRAMES);
      FillTxRange(HALF_FRAMES, HALF_FRAMES, second, secondClaimed);
      assert Stretch(0, HALF_FRAMES) == filled;
      ScanConcat(RampStep, 0, first[..n], second[..k]);
      ghost var ramped := Ramp(0, first[..n] + second[..k]).1;
      assert ramped[..n] == Ramp(0, first[..n]).1 && ramped[n..] == Ramp(middle, second[..k]).1;
    }

    /** The renderer's own stores. */
    method CopyRendered(offset: nat, written: seq<Stereo>)
      requires 2 * (offset + |written|) <= txBuffer.Length
      modifies txBuffer
      ensures Stretch(offset, |written|) == written
      ensures forall k :: 0 <= k < txBuffer.Length && !(2 * offset <= k < 2 * (offset + |written|)) ==> txBuffer[k] == old(txBuffer[k])
    {
      for i := 0 to |written|
        invariant forall j :: 0 <= j < i ==> txBuffer[2 * (offset + j)] == written[j].left && txBuffer[2 * (offset + j) + 1] == written[j].right
        invariant forall k :: 0 <= k < txBuffer.Length && !(2 * offset <= k < 2 * (offset + i)) ==> txBuffer[k] == old(txBuffer[k])
      {
        txBuffer[2 * (offset + i)] := written[i].left;
        txBuffer[2 * (offset + i) + 1] := written[i].right;
      }
    }

    method RampRendered(offset: nat, frames: nat, rendered: nat, ghost written: seq<Stereo>)
      requires 2 * (offset + frames) <= txBuffer.Length && rendered <= frames && rampFrame <= RAMP_FRAMES
      requires Stretch(offset, frames) == written
      modifies this`rampFrame, txBuffer
      ensures rampFrame == Ramp(old(rampFrame), written[..rendered]).0 <= RAMP_FRAMES
      ensures Stretch(offset, frames)[..rendered] == Ramp(old(rampFrame), written[..rendered]).1
      ensures forall k :: 0 <= k < txBuffer.Length && !(2 * offset <= k < 2 * (offset + rendered)) ==> txBuffer[k] == old(txBuffer[k])
    {
      ghost var start := rampFrame;
      RampIsPointwise(start, written[..rendered]);
      var i := 0;
      while i < rendered && rampFrame < RAMP_FRAMES
        invariant 0 <= i <= rendered && rampFrame == start + i <= RAMP_FRAMES
        invariant forall j :: 0 <= j < i ==> Stereo(txBuffer[2 * (offset + j)], txBuffer[2 * (offset + j) + 1]) == RampFrame(written[j], start + j)
        invariant forall k :: 0 <= k < txBuffer.Length && !(2 * offset <= k < 2 * (offset + i)) ==> txBuffer[k] == old(txBuffer[k])
      {
        var frame := Stereo(txBuffer[2 * (offset + i)], txBuffer[2 * (offset + i) + 1]);
        assert frame == written[i];
        txBuffer[2 * (offset + i)] := RampSample(frame.left, rampFrame);
        txBuffer[2 * (offset + i) + 1] := RampSample(frame.right, rampFrame);
        rampFrame := rampFrame + 1;
        i := i + 1;
      }
      forall j | i <= j < rendered
        ensures Stereo(txBuffer[2 * (offset + j)], txBuffer[2 * (offset + j) + 1]) == RampFrame(written[j], start + j)
      {
        assert written[j] == old(Stereo(txBuffer[2 * (offset + j)], txBuffer[2 * (offset + j) + 1]));
      }
    }

    method PadSilence(offset: nat, frames: nat, rendered: nat)
      requires 2 * (offset + frames) <= txBuffer.Length && rendered <= frames
      modifies txBuffer
      ensures Stretch(offset, frames) == old(Stretch(offset, frames))[..rendered] + seq(frames - rendered, i => SILENCE)
      ensures forall k :: 0 <= k < txBuffer.Length && !(2 * (offset + rendered) <= k < 2 * (offset + frames)) ==> txBuffer[k] == old(txBuffer[k])
    {
      for sampleIndex := 2 * rendered to 2 * frames
        invariant forall k :: 2 * (offset + rendered) <= k < 2 * offset + sampleIndex ==> txBuffer[k] == 0
        invariant forall k :: 0 <= k < txBuffer.Length && !(2 * (offset + rendered) <= k < 2 * offset + sampleIndex) ==> txBuffer[k] == old(txBuffer[k])
      {
        txBuffer[2 * offset + sampleIndex] := 0;
      }
    }
  }
}
