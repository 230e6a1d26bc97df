/**
  What rendering means: the frame-by-frame mix of the two source queues of applications/audio_mixer.c.
  AudioMixer proves that the imperative render loop computes exactly this.
 */
module MixSpec {
  import opened FixedPoint
  import opened MixArithmetic
  import opened Streams

  datatype Stereo = Stereo(left: Sample, right: Sample)

  datatype MixRecord = MixRecord(background: seq<Stereo>, voice: seq<Sample>, backgroundActive: bool, voiceActive: bool,
                                 gain: int, duck: int)

  /** Mixer states as they occur: a gain of at most one and an envelope within its range. */
  type Mix = m: MixRecord | 0 <= m.gain <= Q15_ONE && DuckInRange(m.duck)
    witness MixRecord([], [], false, false, 0, 0)

  const SILENCE := Stereo(0, 0)

  function MixedFrame(background: Stereo, voice: Sample, gain: int, duck: int): Stereo
    requires 0 <= gain <= Q15_ONE && DuckInRange(duck)
  {
    MixNeverOverflows(background.left, voice, gain, duck);
    MixNeverOverflows(background.right, voice, gain, duck);
    Stereo(MixSample(background.left, voice, gain, duck), MixSample(background.right, voice, gain, duck))
  }

  predicate TakesBackground(m: Mix) { m.backgroundActive && m.background != [] }

  predicate TakesVoice(m: Mix) { m.voiceActive && m.voice != [] }

  /** Take the heads that are available and move the envelope by one frame. */
  function Advance(m: Mix): Mix {
    m.(background := if TakesBackground(m) then m.background[1..] else m.background,
       voice := if TakesVoice(m) then m.voice[1..] else m.voice,
       duck := DuckNext(m.duck, m.backgroundActive && TakesVoice(m)))
  }

  function BackgroundHead(m: Mix): Stereo { if TakesBackground(m) then m.background[0] else SILENCE }

  function VoiceHead(m: Mix): Sample { if TakesVoice(m) then m.voice[0] else 0 }

  /** One frame of output: the heads of the queues at the envelope that the frame itself has moved. */
  function RenderFrame(m: Mix): (Mix, Stereo) {
    (Advance(m), MixedFrame(BackgroundHead(m), VoiceHead(m), m.gain, Advance(m).duck))
  }

  function Render(m: Mix, frames: nat): (Mix, seq<Stereo>) { Iterate(RenderFrame, m, frames) }

  lemma RenderNext(m: Mix, n: nat)
    ensures var (before, outputs) := Render(m, n);
            Render(m, n + 1) == (RenderFrame(before).0, outputs + [RenderFrame(before).1])
  {
  }

  /** How a DMA half is divided between calls does not matter: n+k frames are n frames and then k. */
  lemma RenderSplits(m: Mix, n: nat, k: nat)
    ensures Render(m, n + k).0 == Render(Render(m, n).0, k).0
    ensures Render(m, n + k).1 == Render(m, n).1 + Render(Render(m, n).0, k).1
  {
    IterateSplits(RenderFrame, m, n, k);
  }

  // ---- The mix as a function of the frame number -------------------------------------------

  predicate HasVoice(m: Mix, i: nat) { m.voiceActive && i < |m.voice| }

  function BackgroundAt(m: Mix, i: nat): Stereo {
    if m.backgroundActive && i < |m.background| then m.background[i] else SILENCE
  }

  function VoiceAt(m: Mix, i: nat): Sample { if HasVoice(m, i) then m.voice[i] else 0 }

  function Overlaps(m: Mix, n: nat): seq<bool> { seq(n, (i: nat) => m.backgroundActive && HasVoice(m, i)) }

  function Consumed<T>(queue: seq<T>, active: bool, n: nat): seq<T> {
    if !active then queue else if n <= |queue| then queue[n..] else []
  }

  lemma ConsumeNext<T>(queue: seq<T>, active: bool, n: nat)
    ensures var rest := Consumed(queue, active, n);
            && (active && rest != [] <==> active && n < |queue|)
            && (active && rest != [] ==> rest[0] == queue[n])
            && Consumed(queue, active, n + 1) == if active && rest != [] then rest[1..] else rest
  {
  }

  lemma OverlapsNext(m: Mix, n: nat)
    ensures DuckRun(m.duck, Overlaps(m, n + 1)) == DuckNext(DuckRun(m.duck, Overlaps(m, n)), m.backgroundActive && HasVoice(m, n))
  {
    assert Overlaps(m, n + 1)[..n] == Overlaps(m, n);
  }

  function StateAfter(m: Mix, n: nat): Mix {
    DuckStaysInRange(m.duck, Overlaps(m, n));
    m.(background := Consumed(m.background, m.backgroundActive, n),
       voice := Consumed(m.voice, m.voiceActive, n),
       duck := DuckRun(m.duck, Overlaps(m, n)))
  }

  /** The i-th frame to come out: the i-th of each queue at the envelope reached after i+1 frames. */
  function FrameAt(m: Mix, i: nat): Stereo
  {
    DuckStaysInRange(m.duck, Overlaps(m, i + 1));
    MixedFrame(BackgroundAt(m, i), VoiceAt(m, i), m.gain, DuckRun(m.duck, Overlaps(m, i + 1)))
  }

  lemma NextFrame(m: Mix, n: nat)
    ensures RenderFrame(StateAfter(m, n)) == (StateAfter(m, n + 1), FrameAt(m, n))
  {
    ConsumeNext(m.background, m.backgroundActive, n);
    ConsumeNext(m.voice, m.voiceActive, n);
    DuckStaysInRange(m.duck, Overlaps(m, n));
    OverlapsNext(m, n);
  }

  /**
    Output frame i is the mix of the i-th background and i-th voice frames (silence past the end of a
    queue or for an inactive source). Rendering consumes exactly the frames it mixed, only from active
    sources, and changes nothing else.
   */
  lemma RenderIsPointwise(m: Mix, n: nat)
    ensures Render(m, n).0 == StateAfter(m, n)
    ensures Render(m, n).1 == seq(n, (i: nat) => FrameAt(m, i))
  {
    var states: nat -> Mix := (i: nat) => StateAfter(m, i);
    var outputs: nat -> Stereo := (i: nat) => FrameAt(m, i);
    forall i: nat ensures RenderFrame(states(i)) == (states(i + 1), outputs(i)) { NextFrame(m, i); }
    IterateFollows(RenderFrame, states, outputs, n);
    assert Overlaps(m, 0) == [];
    assert states(0) == m;
  }

  // ---- What is heard -----------------------------------------------------------------------

  /**
    Side by side: each output channel is the background's own channel at the gain of its moment, plus the voice in
    both, clamped to 16 bits.
   */
  lemma ChannelsKeepTheirSides(m: Mix, n: nat, i: nat)
    requires i < n
    ensures var duck := DuckRun(m.duck, Overlaps(m, i + 1));
            var voice := if m.voiceActive && i < |m.voice| then m.voice[i] else 0;
            var (left, right) := if m.backgroundActive && i < |m.background| then (m.background[i].left, m.background[i].right) else (0, 0);
            && Render(m, n).1[i].left == Max(-0x8000, Min(0x7FFF, BackgroundTerm(left, m.gain, duck) + voice))
            && Render(m, n).1[i].right == Max(-0x8000, Min(0x7FFF, BackgroundTerm(right, m.gain, duck) + voice))
  {
    RenderIsPointwise(m, n);
    DuckStaysInRange(m.duck, Overlaps(m, i + 1));
    assert Render(m, n).1[i] == FrameAt(m, i);
  }

  lemma NoOverlapNoDuck(m: Mix, n: nat)
    requires m.duck == 0 && !(m.backgroundActive && m.voiceActive)
    ensures DuckRun(m.duck, Overlaps(m, n)) == 0
  {
    assert Overlaps(m, n) == Repeat(false, n);
    DuckRunClosedForm(0, false, n);
  }

  /** Music alone at full volume comes out as it went in. */
  lemma MusicAlonePasses(m: Mix, n: nat)
    requires m.backgroundActive && !m.voiceActive && m.gain == Q15_ONE && m.duck == 0 && n <= |m.background|
    ensures Render(m, n).1 == m.background[..n]
    ensures Render(m, n).0.background == m.background[n..]
  {
    RenderIsPointwise(m, n);
    forall i: nat | i < n ensures Render(m, n).1[i] == m.background[i] {
      ChannelsKeepTheirSides(m, n, i);
      NoOverlapNoDuck(m, i + 1);
      UnityTerm(m.background[i].left);
      UnityTerm(m.background[i].right);
    }
  }

  lemma UnityTerm(x: Sample)
    ensures BackgroundTerm(x, Q15_ONE, 0) == x && Max(-0x8000, Min(0x7FFF, x)) == x
  {
    assert Int16(x);
  }

  /** A reply without music comes out on both sides, at any volume setting. */
  lemma VoiceAlonePasses(m: Mix, n: nat)
    requires !m.backgroundActive && m.voiceActive && n <= |m.voice|
    ensures Render(m, n).1 == seq(n, i requires 0 <= i < n => Stereo(m.voice[i], m.voice[i]))
    ensures Render(m, n).0.voice == m.voice[n..]
  {
    RenderIsPointwise(m, n);
    forall i: nat | i < n ensures Render(m, n).1[i] == Stereo(m.voice[i], m.voice[i]) {
      ChannelsKeepTheirSides(m, n, i);
      assert Int16(m.voice[i]);
    }
  }

  /** A reply over music has ducked it to 0.05 after 220 frames, and 11025 frames after its end the music is back. */
  lemma VoiceDucksMusic(m: Mix, n: nat)
    requires m.backgroundActive && m.voiceActive
    ensures 220 <= n <= |m.voice| ==> DuckGain(Render(m, n).0.duck) == 1638
    ensures n >= |m.voice| + 11025 ==> DuckGain(Render(m, n).0.duck) == 32768
  {
    RenderIsPointwise(m, n);
    if n <= |m.voice| {
      assert Overlaps(m, n) == Repeat(true, n);
      DuckRunClosedForm(m.duck, true, n);
    } else {
      var k := |m.voice|;
      assert Overlaps(m, n) == Overlaps(m, k) + Repeat(false, n - k);
      FoldConcat(DuckNext, m.duck, Overlaps(m, k), Repeat(false, n - k));
      DuckStaysInRange(m.duck, Overlaps(m, k));
      DuckRunClosedForm(DuckRun(m.duck, Overlaps(m, k)), false, n - k);
    }
  }
}
