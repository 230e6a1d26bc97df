/**
  applications/audio_mixer.c: two ring-buffered sources, the render callback of the playback DMA and the
  session calls that start and stop the playback sink. Rings and arithmetic come from FrameRing and
  MixArithmetic; MixSpec says what a render has to produce.
 */
module AudioMixer {
  import opened FixedPoint
  import opened MixArithmetic
  import opened FrameRing
  import opened MixSpec
  import opened DriverModes
  import opened CodecDriver

  const BACKGROUND_BUFFER_FRAMES := 4096
  const VOICE_BUFFER_FRAMES := 2048
  const BACKGROUND_START_FRAMES := 3000
  const VOICE_START_FRAMES := 1024

  datatype Source = Background | Voice | NoSuchSource

  datatype WriteStatus = WriteOk | InvalidArgument | NotInited | SourceInactive | InvalidFormat | SampleRateMismatch

  predicate FormatAccepted(source: Source, channels: nat) {
    match source
    case Background => 1 <= channels <= 2
    case Voice => channels == 1
    case NoSuchSource => false
  }

  /** Interleaved input as frames; a mono background frame feeds both sides. */
  function Frames(pcm: seq<Sample>, frames: nat, channels: nat): seq<Stereo>
    requires 1 <= channels <= 2 && frames * channels <= |pcm|
  {
    seq(frames, i requires 0 <= i < frames =>
      if channels == 1 then Stereo(pcm[i], pcm[i]) else Stereo(pcm[2 * i], pcm[2 * i + 1]))
  }

  /** Frame i of a stereo input is its samples 2i and 2i + 1; of a mono input, sample i on both sides. */
  lemma FramesInterleave(pcm: seq<Sample>, frames: nat, channels: nat, i: nat)
    requires 1 <= channels <= 2 && frames * channels <= |pcm| && i < frames
    ensures |Frames(pcm, frames, channels)| == frames
    ensures channels == 2 ==> 2 * i + 1 < |pcm| && Frames(pcm, frames, channels)[i] == Stereo(pcm[2 * i], pcm[2 * i + 1])
    ensures channels == 1 ==> i < |pcm| && Frames(pcm, frames, channels)[i] == Stereo(pcm[i], pcm[i])
  {
  }

  /** A source that is switched on starts empty; one that already runs is left alone. */
  function Activated(m: Mix, source: Source): Mix {
    match source
    case Background => if m.backgroundActive then m else m.(background := [], backgroundActive := true)
    case Voice => if m.voiceActive then m else m.(voice := [], voiceActive := true)
    case NoSuchSource => m
  }

  /** A source that is switched off is emptied; the envelope is cleared with the last of them. */
  function Silenced(m: Mix, source: Source): Mix {
    var off := match source
      case Background => m.(background := [], backgroundActive := false)
      case Voice => m.(voice := [], voiceActive := false)
      case NoSuchSource => m;
    if off.backgroundActive || off.voiceActive then off else off.(duck := 0)
  }

  /** What switching sources means, queue by queue. */
  lemma SwitchingSources(m: Mix, source: Source)
    requires !source.NoSuchSource?
    ensures var on := Activated(m, source);
            && on == m.(background := on.background, backgroundActive := on.backgroundActive,
                        voice := on.voice, voiceActive := on.voiceActive)
            && on.backgroundActive == (m.backgroundActive || source.Background?)
            && on.voiceActive == (m.voiceActive || source.Voice?)
            && on.background == (if source.Background? && !m.backgroundActive then [] else m.background)
            && on.voice == (if source.Voice? && !m.voiceActive then [] else m.voice)
    ensures var off := Silenced(m, source);
            && off == m.(background := off.background, backgroundActive := off.backgroundActive,
                         voice := off.voice, voiceActive := off.voiceActive, duck := off.duck)
            && off.backgroundActive == (m.backgroundActive && !source.Background?)
            && off.voiceActive == (m.voiceActive && !source.Voice?)
            && off.background == (if source.Background? then [] else m.background)
            && off.voice == (if source.Voice? then [] else m.voice)
            && off.duck == (if off.backgroundActive || off.voiceActive then m.duck else 0)
  {
  }

  /** The sink half of a source start: nothing to do when playback runs, else configure it and start it. */
  function OpenSink(d: Driver, f: Faults): (Driver, Err) {
    if d.playback then (d, Ok)
    else
      var (configured, err) := Configure(d, SAMPLE_RATE, 2, f);
      if err.Ok? then StartPlayback(configured, f) else (configured, err)
  }

  lemma OpenSinkOutcome(d: Driver, f: Faults)
    requires d.inited && !d.capture
    ensures var (after, err) := OpenSink(d, f);
            && (after.playback <==> err.Ok?) && !after.capture && after.inited
            && (err.Ok? && !d.playback ==> after.pending && after.rate == SAMPLE_RATE)
            && (err.Ok? <==> d.playback || ((Reclocks(d, 44100) ==> ReclockIsFaultFree(d, f)) && !f.codecPlayback))
  {
    if Reclocks(d, 44100) { ReclockRestoresDma(FlushCapture(d), 44100, f); }
  }

  class Mixer {
    const background: Ring<Stereo>
    const voice: Ring<Sample>
    const sink: Es8311Audio
    var inited: bool
    var duckQ15: int
    var backgroundGainQ15: int
    var backgroundVolume: nat

    ghost const Repr: set<object>

    ghost predicate Valid()
      reads this, Repr
    {
      && Repr == {this, background, background.buffer, voice, voice.buffer, sink}
      && (background as object) != voice && (background.buffer as object) != voice.buffer
      && background.Valid() && background.capacityFrames == BACKGROUND_BUFFER_FRAMES
      && voice.Valid() && voice.capacityFrames == VOICE_BUFFER_FRAMES
      && (inited ==> sink.inited)
      && DuckInRange(duckQ15)
      && backgroundVolume <= VOLUME_MAX && backgroundGainQ15 == BackgroundGain(backgroundVolume)
      && 0 <= backgroundGainQ15 <= Q15_ONE
    }

    /** The abstract state that rendering works on. */
    ghost function State(): Mix
      reads this, Repr
      requires Valid()
    {
      MixRecord(background.Contents(), voice.Contents(), background.active, voice.active, backgroundGainQ15, duckQ15)
    }

    predicate AnyActive()
      reads background, voice
    {
      background.active || voice.active
    }

    predicate PlaybackReady()
      reads background, voice
    {
      || (background.active && background.levelFrames >= BACKGROUND_START_FRAMES)
      || (voice.active && voice.levelFrames >= VOICE_START_FRAMES)
    }

    /** The sink runs only on behalf of a source. */
    predicate SinkHasSource()
      reads background, voice, sink
    {
      sink.playbackRunning ==> AnyActive()
    }

    constructor (sink: Es8311Audio)
      ensures Valid() && this.sink == sink && fresh(Repr - {sink})
      ensures !inited && State() == MixRecord([], [], false, false, 0, 0)
    {
      this.sink := sink;
      var backgroundRing := new Ring<Stereo>(BACKGROUND_BUFFER_FRAMES);
      var voiceRing := new Ring<Sample>(VOICE_BUFFER_FRAMES);
      background, voice := backgroundRing, voiceRing;
      backgroundVolume, backgroundGainQ15, duckQ15 := 0, 0, 0;
      inited := false;
      Repr := {this, backgroundRing, backgroundRing.buffer, voiceRing, voiceRing.buffer, sink};
    }

    method ClearSources()
      requires Valid()
      modifies this`duckQ15, background, voice
      ensures Valid()
      ensures State() == MixRecord([], [], false, false, backgroundGainQ15, 0)
    {
      background.active, voice.active := false, false;
      background.Reset();
      voice.Reset();
      duckQ15 := 0;
    }

    /** audio_mixer_init: needs an initialised, silent sink to register the renderer with. */
    method Init(mutexInit: bool) returns (err: Err)
      requires Valid()
      modifies this`inited, this`duckQ15, this`backgroundVolume, this`backgroundGainQ15, background, voice, sink`renderer
      ensures Valid()
      ensures old(inited) ==> err.Ok? && State() == old(State())
      ensures !old(inited) ==> State() == MixRecord([], [], false, false, Q15_ONE, 0)
      ensures !old(inited) ==> (err.Ok? <==> inited) && (err.Ok? <==> mutexInit && sink.inited && !sink.playbackRunning)
      ensures !old(inited) && err.Ok? ==> sink.renderer == MixerRenderer
    {
      if inited {
        return Ok;
      }
      ClearSources();
      backgroundVolume, backgroundGainQ15 := VOLUME_MAX, Q15_ONE;
      if !mutexInit {
        return Failed;
      }
      err := sink.SetRenderer(MixerRenderer);
      if err.Ok? {
        inited := true;
      }
    }

    /** Volumes above 127 are clamped; the voice is not affected by the setting. */
    method SetBackgroundVolume(requested: nat) returns (err: Err)
      requires Valid()
      modifies this`backgroundVolume, this`backgroundGainQ15
      ensures Valid()
      ensures err == if inited then Ok else Failed
      ensures State() == if inited then old(State()).(gain := BackgroundGain(requested)) else old(State())
    {
      if !inited {
        return Failed;
      }
      var volume := if requested > VOLUME_MAX then VOLUME_MAX else requested;
      GainTableIsMonotone(volume, volume);
      GainTableIsMonotone(requested, requested);
      GainTableIsMonotone(VOLUME_MAX, VOLUME_MAX);
      backgroundVolume := volume;
      backgroundGainQ15 := BackgroundGain(volume);
      return Ok;
    }

    /** Which writes are accepted at all. */
    lemma AcceptedWrites(pcm: array?<Sample>, frames: nat, source: Source, channels: nat, sampleRate: nat)
      ensures CheckWrite(pcm, frames, source, channels, sampleRate) == WriteOk <==>
                pcm != null && frames > 0 && inited && sampleRate == 44100
                && ((source.Background? && (channels == 1 || channels == 2) && background.active)
                    || (source.Voice? && channels == 1 && voice.active))
    {
    }

    /** The checks of audio_mixer_write, in its order. */
    function CheckWrite(pcm: array?<Sample>, frames: nat, source: Source, channels: nat, sampleRate: nat): WriteStatus
      reads this, background, voice
    {
      if pcm == null || frames == 0 || source.NoSuchSource? then InvalidArgument
      else if !inited then NotInited
      else if sampleRate != SAMPLE_RATE then SampleRateMismatch
      else if !FormatAccepted(source, channels) then InvalidFormat
      else if !(if source.Background? then background.active else voice.active) then SourceInactive
      else WriteOk
    }

    /** Both ends of the ready test, in the frames that are held. */
    lemma ReadyMeans()
      requires Valid()
      ensures PlaybackReady() <==> (State().backgroundActive && |State().background| >= 3000)
                                   || (State().voiceActive && |State().voice| >= 1024)
    {
    }

    /** The stereo frames of an accepted write, taken over into the background ring. */
    method StoreBackground(pcm: array<Sample>, frames: nat, channels: nat) returns (written: nat, ghost stored: seq<Stereo>)
      requires Valid() && pcm !in Repr && 1 <= channels <= 2 && frames * channels <= pcm.Length
      modifies Repr - {this, sink}
      ensures Valid() && written == Min(frames, 4096)
      ensures State() == old(State()).(background := KeepLast(4096, old(State()).background + stored))
      ensures |stored| == frames && stored == Frames(pcm[..], frames, channels)
    {
      stored := Frames(pcm[..], frames, channels);
      var overflowed;
      written, overflowed := background.WriteNewest(Frames(pcm[..], frames, channels));
    }

    method StoreVoice(pcm: array<Sample>, frames: nat) returns (written: nat)
      requires Valid() && pcm !in Repr && frames <= pcm.Length
      modifies Repr - {this, sink}
      ensures Valid() && written == Min(frames, 2048)
      ensures State() == old(State()).(voice := KeepLast(2048, old(State()).voice + pcm[..frames]))
    {
      var overflowed;
      written, overflowed := voice.WriteNewest(pcm[..frames]);
    }

    /** The frames that an input buffer holds: its samples in pairs, or each on both sides. */
    ghost predicate Interleaves(stored: seq<Stereo>, pcm: seq<Sample>, channels: nat) {
      && 1 <= channels <= 2 && |stored| * channels <= |pcm|
      && forall i :: 0 <= i < |stored| ==>
           stored[i].left == pcm[channels * i] && stored[i].right == pcm[if channels == 2 then 2 * i + 1 else i]
    }

    /**
      The interrupt-locked part of audio_mixer_write. An accepted write always stores something, drops the
      oldest frames when it has to, and touches only its own source.
     */
    method Write(source: Source, pcm: array?<Sample>, frames: nat, channels: nat, sampleRate: nat)
      returns (written: nat, status: WriteStatus, notifyReady: bool, ghost stored: seq<Stereo>)
      requires Valid()
      requires pcm != null ==> pcm !in Repr
      requires pcm != null && FormatAccepted(source, channels) ==> frames * channels <= pcm.Length
      modifies Repr
      ensures Valid() && unchanged(sink) && unchanged(this)
      ensures status == old(CheckWrite(pcm, frames, source, channels, sampleRate))
      ensures status != WriteOk ==> written == 0 && !notifyReady && State() == old(State())
      ensures status == WriteOk ==>
                pcm != null && written > 0
                && (notifyReady <==> (State().backgroundActive && |State().background| >= 3000)
                                     || (State().voiceActive && |State().voice| >= 1024))
      ensures status == WriteOk && source.Background? ==>
                State() == old(State()).(background := KeepLast(4096, old(State()).background + stored))
                && |stored| == frames && Interleaves(stored, old(pcm[..]), channels)
                && written == Min(frames, 4096)
      ensures status == WriteOk && source.Voice? ==>
                State() == old(State()).(voice := KeepLast(2048, old(State()).voice + old(pcm[..frames])))
                && written == Min(frames, 2048)
    {
      written, notifyReady, stored := 0, false, [];
      status := CheckWrite(pcm, frames, source, channels, sampleRate);
      if status != WriteOk {
        return;
      }
      if source.Background? {
        written, stored := StoreBackground(pcm, frames, channels);
        forall i | 0 <= i < frames
          ensures stored[i].left == old(pcm[..])[channels * i]
                  && stored[i].right == old(pcm[..])[if channels == 2 then 2 * i + 1 else i]
        {
          FramesInterleave(old(pcm[..]), frames, channels, i);
        }
      } else {
        written := StoreVoice(pcm, frames);
      }
      ReadyMeans();
      notifyReady := PlaybackReady();
    }

    method MoveEnvelope(overlap: bool)
      requires DuckInRange(duckQ15)
      modifies this`duckQ15
      ensures duckQ15 == DuckNext(old(duckQ15), overlap) && DuckInRange(duckQ15)
    {
      if overlap {
        duckQ15 := duckQ15 + ATTACK_STEP;
        if duckQ15 > Q15_ONE {
          duckQ15 := Q15_ONE;
        }
      } else if duckQ15 > 0 {
        duckQ15 := duckQ15 - RELEASE_STEP;
        if duckQ15 < 0 {
          duckQ15 := 0;
        }
      }
    }

    method MixFrame(backgroundFrame: Stereo, voiceSample: Sample) returns (frame: Stereo)
      requires DuckInRange(duckQ15) && 0 <= backgroundGainQ15 <= Q15_ONE
      ensures frame == MixedFrame(backgroundFrame, voiceSample, backgroundGainQ15, duckQ15)
    {
      MixNeverOverflows(backgroundFrame.left, voiceSample, backgroundGainQ15, duckQ15);
      MixNeverOverflows(backgroundFrame.right, voiceSample, backgroundGainQ15, duckQ15);
      var duckGain := Q15_ONE - Asr15(duckQ15 * (Q15_ONE - DUCK_BACKGROUND_GAIN));
      var gain := Asr15(backgroundGainQ15 * duckGain);
      var mixedLeft := Asr15(backgroundFrame.left * gain) + voiceSample;
      var mixedRight := Asr15(backgroundFrame.right * gain) + voiceSample;
      frame := Stereo(Saturate(mixedLeft), Saturate(mixedRight));
    }

    method TakeBackground() returns (frame: Stereo)
      requires Valid()
      modifies background`readFrame, background`levelFrames, background`contents, background`overflowLogged
      ensures Valid() && frame == BackgroundHead(old(State()))
      ensures var m := old(State()); State() == m.(background := if TakesBackground(m) then m.background[1..] else m.background)
    {
      frame := SILENCE;
      if background.active && background.levelFrames > 0 {
        frame := background.Pop();
      }
    }

    method TakeVoice() returns (sample: Sample, hasFrame: bool)
      requires Valid()
      modifies voice`readFrame, voice`levelFrames, voice`contents, voice`overflowLogged
      ensures Valid() && sample == VoiceHead(old(State())) && hasFrame == TakesVoice(old(State()))
      ensures var m := old(State()); State() == m.(voice := if TakesVoice(m) then m.voice[1..] else m.voice)
    {
      sample, hasFrame := 0, false;
      if voice.active && voice.levelFrames > 0 {
        sample := voice.Pop();
        hasFrame := true;
      }
    }

    method AdvanceSources() returns (backgroundFrame: Stereo, voiceSample: Sample)
      requires Valid()
      modifies this`duckQ15, background`readFrame, background`levelFrames, background`contents, background`overflowLogged,
               voice`readFrame, voice`levelFrames, voice`contents, voice`overflowLogged
      ensures Valid() && State() == Advance(old(State()))
      ensures backgroundFrame == BackgroundHead(old(State())) && voiceSample == VoiceHead(old(State()))
    {
      backgroundFrame := TakeBackground();
      var voiceHasFrame;
      voiceSample, voiceHasFrame := TakeVoice();
      MoveEnvelope(background.active && voiceHasFrame);
    }

    /** One iteration of the render loop. */
    method RenderOne() returns (frame: Stereo)
      requires Valid()
      modifies this`duckQ15, background`readFrame, background`levelFrames, background`contents, background`overflowLogged,
               voice`readFrame, voice`levelFrames, voice`contents, voice`overflowLogged
      ensures Valid() && (State(), frame) == RenderFrame(old(State()))
    {
      var backgroundFrame, voiceSample := AdvanceSources();
      frame := MixFrame(backgroundFrame, voiceSample);
    }

    /** The interleaved buffer holds these frames from its start. */
    ghost predicate Holds(pcm: array<Sample>, frames: seq<Stereo>)
      requires 2 * |frames| <= pcm.Length
      reads pcm
    {
      forall i :: 0 <= i < |frames| ==> pcm[2 * i] == frames[i].left && pcm[2 * i + 1] == frames[i].right
    }

    method PutFrame(pcm: array<Sample>, frameIndex: nat, frame: Stereo, ghost earlier: seq<Stereo>)
      requires |earlier| == frameIndex && 2 * frameIndex + 2 <= pcm.Length && Holds(pcm, earlier)
      modifies pcm
      ensures Holds(pcm, earlier + [frame])
      ensures forall k :: 2 * frameIndex + 2 <= k < pcm.Length ==> pcm[k] == old(pcm[k])
    {
      pcm[2 * frameIndex] := frame.left;
      pcm[2 * frameIndex + 1] := frame.right;
    }

    method RenderLoop(pcm: array<Sample>, frames: nat) returns (ghost outputs: seq<Stereo>)
      requires Valid() && pcm !in Repr && 2 * frames <= pcm.Length
      modifies this`duckQ15, background`readFrame, background`levelFrames, background`contents, background`overflowLogged,
               voice`readFrame, voice`levelFrames, voice`contents, voice`overflowLogged, pcm
      ensures Valid()
      ensures (State(), outputs) == Render(old(State()), frames)
      ensures |outputs| == frames && Holds(pcm, outputs)
      ensures forall k :: 2 * frames <= k < pcm.Length ==> pcm[k] == old(pcm[k])
    {
      ghost var start := State();
      outputs := [];
      for frameIndex := 0 to frames
        invariant Valid() && |outputs| == frameIndex
        invariant (State(), outputs) == Render(start, frameIndex)
        invariant Holds(pcm, outputs)
        invariant forall k :: 2 * frameIndex <= k < pcm.Length ==> pcm[k] == old(pcm[k])
      {
        RenderNext(start, frameIndex);
        var frame := RenderOne();
        PutFrame(pcm, frameIndex, frame, outputs);
        outputs := outputs + [frame];
      }
    }

    /** audio_mixer_render_stereo: fill `frames` interleaved frames and nothing beyond them. */
    method RenderStereo(pcm: array?<Sample>, frames: nat) returns (rendered: nat)
      requires Valid()
      requires pcm != null ==> pcm !in Repr && 2 * frames <= pcm.Length
      modifies this`duckQ15, background`readFrame, background`levelFrames, background`contents, background`overflowLogged,
               voice`readFrame, voice`levelFrames, voice`contents, voice`overflowLogged, pcm
      ensures Valid()
      ensures rendered == if pcm == null || frames == 0 || !old(inited) then 0 else frames
      ensures State() == Render(old(State()), rendered).0
      ensures pcm != null ==>
                forall i :: 0 <= i < rendered ==>
                  pcm[2 * i] == Render(old(State()), rendered).1[i].left
                  && pcm[2 * i + 1] == Render(old(State()), rendered).1[i].right
      ensures pcm != null ==> forall k :: 2 * rendered <= k < pcm.Length ==> pcm[k] == old(pcm[k])
    {
      if pcm == null || frames == 0 || !inited {
        return 0;
      }
      ghost var outputs := RenderLoop(pcm, frames);
      return frames;
    }

    // ---- Sessions --------------------------------------------------------------------------

    /** Silence one source: inactive, empty, and the envelope cleared once no source is left. */
    method Deactivate(source: Source) returns (anyLeft: bool)
      requires Valid() && !source.NoSuchSource?
      modifies background, voice, this`duckQ15
      ensures Valid() && anyLeft == AnyActive()
      ensures State() == Silenced(old(State()), source)
    {
      if source.Background? {
        background.active := false;
        background.Reset();
      } else {
        voice.active := false;
        voice.Reset();
      }
      anyLeft := AnyActive();
      if !anyLeft {
        duckQ15 := 0;
      }
    }

    method Activate(source: Source)
      requires Valid() && !source.NoSuchSource?
      modifies background, voice
      ensures Valid() && AnyActive()
      ensures State() == Activated(old(State()), source)
      ensures source.Background? && !old(background.active) ==> State().background == []
      ensures source.Voice? && !old(voice.active) ==> State().voice == []
    {
      if source.Background? {
        if !background.active {
          background.Reset();
          background.active := true;
        }
      } else {
        if !voice.active {
          voice.Reset();
          voice.active := true;
        }
      }
    }

    method OpenSinkNow(f: Faults) returns (err: Err)
      requires Valid()
      modifies sink
      ensures (sink.State(), err) == OpenSink(old(sink.State()), f)
      ensures Valid() && State() == old(State())
    {
      if sink.playbackRunning {
        return Ok;
      }
      err := sink.ConfigureNow(SAMPLE_RATE, 2, f);
      if err.Ok? {
        err := sink.StartPlaybackNow(f);
      }
    }

    predicate StartRejected(source: Source, sampleRate: nat, channels: nat)
      reads this`inited, sink`captureRunning
    {
      !inited || sampleRate != SAMPLE_RATE || !FormatAccepted(source, channels) || sink.captureRunning
    }

    /** Which starts are rejected at once. */
    lemma RejectedStarts(source: Source, sampleRate: nat, channels: nat)
      ensures StartRejected(source, sampleRate, channels) <==>
                !inited || sampleRate != 44100 || sink.captureRunning
                || !((source.Background? && (channels == 1 || channels == 2)) || (source.Voice? && channels == 1))
    {
    }

    /** The accepted part of a start: activate, open the sink, and roll the source back if that fails. */
    method ActivateAndOpen(source: Source, f: Faults) returns (err: Err)
      requires Valid() && !source.NoSuchSource?
      modifies background, voice, sink, this`duckQ15
      ensures Valid() && (sink.State(), err) == OpenSink(old(sink.State()), f)
      ensures State() == if err.Ok? then Activated(old(State()), source) else Silenced(old(State()), source)
    {
      Activate(source);
      assert sink.State() == old(sink.State()) && Silenced(State(), source) == Silenced(old(State()), source);
      err := OpenSinkNow(f);
      if !err.Ok? {
        var left := Deactivate(source);
      }
    }

    /**
      audio_mixer_source_start: on success the source is active over a running sink and keeps the frames it
      had if it was active already; a rejected call changes nothing; on a sink failure the source is rolled
      back to inactive and empty and the sink does not run. Capture excludes playback.
     */
    method SourceStart(source: Source, sampleRate: nat, channels: nat, f: Faults) returns (err: Err)
      requires Valid()
      modifies background, voice, sink, this`duckQ15
      ensures Valid() && (old(SinkHasSource()) ==> SinkHasSource())
      ensures err.Ok? ==> inited && sampleRate == 44100 && !old(sink.captureRunning)
                          && ((source.Background? && (channels == 1 || channels == 2)) || (source.Voice? && channels == 1))
      ensures old(StartRejected(source, sampleRate, channels)) ==>
                !err.Ok? && State() == old(State()) && sink.State() == old(sink.State())
      ensures !old(StartRejected(source, sampleRate, channels)) ==>
                (sink.State(), err) == OpenSink(old(sink.State()), f) && sink.playbackRunning == err.Ok?
                && (err.Ok? ==> State() == Activated(old(State()), source))
                && (!err.Ok? ==> State() == Silenced(old(State()), source))
    {
      if !inited {
        return Failed;
      }
      if source.NoSuchSource? || sampleRate != SAMPLE_RATE || !FormatAccepted(source, channels) {
        return Invalid;
      }
      if sink.captureRunning {
        return Busy;
      }
      OpenSinkOutcome(sink.State(), f);
      err := ActivateAndOpen(source, f);
      assert err.Ok? ==> State().backgroundActive || State().voiceActive;
    }

    /** audio_mixer_source_stop: the last source to stop takes the sink down with it. */
    method SourceStop(source: Source)
      requires Valid()
      modifies background, voice, sink, this`duckQ15
      ensures Valid() && (old(SinkHasSource()) ==> SinkHasSource())
      ensures !inited || source.NoSuchSource? ==> State() == old(State()) && sink.State() == old(sink.State())
      ensures inited && !source.NoSuchSource? ==>
                State() == Silenced(old(State()), source)
                && sink.State() == (if AnyActive() then old(sink.State()) else StopPlayback(old(sink.State())))
    {
      if !inited || source.NoSuchSource? {
        return;
      }
      var left := Deactivate(source);
      if !left {
        sink.StopPlaybackNow();
      }
    }

    method StopAll()
      requires Valid()
      modifies background, voice, sink, this`duckQ15
      ensures Valid() && (old(SinkHasSource()) ==> SinkHasSource())
      ensures inited ==> State() == MixRecord([], [], false, false, backgroundGainQ15, 0)
                         && sink.State() == StopPlayback(old(sink.State()))
    {
      if !inited {
        return;
      }
      ClearSources();
      sink.StopPlaybackNow();
    }
  }
}
