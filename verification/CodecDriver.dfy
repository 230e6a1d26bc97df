/**
  applications/es8311_audio.c in its own form: one context whose flags the calls change step by step. Each
  method takes the outcome of the hardware calls it may make, is proved to compute the matching function of
  DriverModes on the whole state, and keeps flags and DMA mode in agreement wherever its caller may call it.
 */
module CodecDriver {
  import opened DriverModes

  class Es8311Audio {
    var inited: bool
    var dmaInited: bool
    var i2sInited: bool
    var dmaMode: DmaMode
    var playbackRunning: bool
    var captureRunning: bool
    var playbackStartPending: bool
    var renderer: Renderer
    var sampleRate: nat
    var callSampleRate: nat
    var captureLevel: nat

    ghost function State(): Driver
      reads this
    {
      Driver(inited, dmaInited, i2sInited, dmaMode, playbackRunning, captureRunning,
             playbackStartPending, renderer, sampleRate, callSampleRate, captureLevel)
    }

    /** Flags and DMA mode agree. */
    ghost predicate Valid()
      reads this
    {
      Coherent(State())
    }

    /** es8311_audio_init: the codec probe may fail, and then so may the first I2S configuration. */
    method Init(codecProbe: bool, f: Faults) returns (err: Err)
      modifies this
      ensures old(inited) ==> err.Ok? && State() == old(State())
      ensures !old(inited) ==> Valid() && GetRunMode(State()).Idle? && (err.Ok? <==> inited)
      ensures !old(inited) && err.Ok? ==> i2sInited && sampleRate == 44100 && callSampleRate == 16000
      ensures !old(inited) ==> (err.Ok? <==> codecProbe && !f.i2sInit && !f.dmaInit && !f.codecRate)
    {
      if inited {
        return Ok;
      }
      dmaInited, i2sInited, dmaMode := false, false, Stopped;
      playbackRunning, captureRunning, playbackStartPending, renderer := false, false, false, NoRenderer;
      sampleRate, callSampleRate, captureLevel := DEFAULT_SAMPLE_RATE, MSBC_SAMPLE_RATE, 0;
      if !codecProbe {
        return Failed;
      }
      inited := true;
      var clocked := I2sReconfigure(sampleRate, f);
      if clocked != Ok {
        inited := false;
        return Failed;
      }
      return Ok;
    }

    method StopDma()
      modifies this`dmaMode
      ensures dmaMode == Stopped
    {
      if dmaMode == Stopped {
        return;
      }
      dmaMode := Stopped;
    }

    method StartPlaybackDmaNow(f: Faults) returns (err: Err)
      modifies this`dmaMode
      ensures (State(), err) == StartPlaybackDma(old(State()), f)
    {
      if dmaMode == DmaMode.Playback {
        return Ok;
      }
      if dmaMode != Stopped {
        return Busy;
      }
      if f.transmitDma {
        return Failed;
      }
      dmaMode := DmaMode.Playback;
      return Ok;
    }

    method StartDuplexDmaNow(f: Faults) returns (err: Err)
      modifies this`dmaMode
      ensures (State(), err) == StartDuplexDma(old(State()), f)
    {
      if dmaMode == Duplex {
        return Ok;
      }
      if dmaMode != Stopped {
        return Busy;
      }
      if f.duplexDma {
        return Failed;
      }
      dmaMode := Duplex;
      return Ok;
    }

    method ApplyCodecState(f: Faults) returns (err: Err)
      ensures err == if CodecStateFails(State(), f) then Failed else Ok
    {
      if f.codecRate {
        return Failed;
      }
      if playbackRunning {
        if f.codecPlayback {
          return Failed;
        }
      }
      if captureRunning {
        if f.codecRecord {
          return Failed;
        }
      }
      return Ok;
    }

    method DmaInit(f: Faults) returns (err: Err)
      modifies this`dmaInited
      ensures err == if !old(dmaInited) && f.dmaInit then Failed else Ok
      ensures dmaInited == (old(dmaInited) || err.Ok?)
    {
      if dmaInited {
        return Ok;
      }
      if f.dmaInit {
        return Failed;
      }
      dmaInited := true;
      return Ok;
    }

    method ResumeDmaNow(f: Faults) returns (err: Err)
      modifies this`dmaMode
      ensures (State(), err) == ResumeDma(old(State()), f)
    {
      err := Ok;
      if captureRunning {
        err := StartDuplexDmaNow(f);
      } else if playbackRunning && !playbackStartPending {
        err := StartPlaybackDmaNow(f);
      }
    }

    method RebuildI2s(rate: nat, f: Faults) returns (err: Err)
      modifies this`dmaMode, this`i2sInited, this`sampleRate
      ensures err == if f.i2sInit then Failed else Ok
      ensures dmaMode == Stopped && i2sInited == err.Ok?
      ensures sampleRate == if err.Ok? then rate else old(sampleRate)
    {
      if dmaMode != Stopped {
        StopDma();
      }
      if f.i2sInit {
        i2sInited := false;
        dmaMode := Stopped;
        return Failed;
      }
      i2sInited := true;
      sampleRate := rate;
      return Ok;
    }

    /** DMA first, then the codec. */
    method PrepareBus(f: Faults) returns (err: Err)
      modifies this`dmaInited
      ensures err == if (!old(dmaInited) && f.dmaInit) || CodecStateFails(old(State()), f) then Failed else Ok
      ensures dmaInited == (old(dmaInited) || !f.dmaInit)
    {
      err := DmaInit(f);
      if err == Ok {
        err := ApplyCodecState(f);
      }
    }

    /** The second half of es8311_audio_i2s_reconfigure; what fails takes the recorded rate back. */
    method SettleI2s(ghost before: Driver, wasI2sInited: bool, wasDmaMode: DmaMode, oldSampleRate: nat, f: Faults) returns (err: Err)
      requires wasI2sInited == before.i2sInited && wasDmaMode == before.dma && oldSampleRate == before.rate
      modifies this`dmaInited, this`dmaMode, this`i2sInited, this`sampleRate
      ensures (State(), err) == Settle(old(State()), before, f)
    {
      err := PrepareBus(f);
      if err != Ok {
        i2sInited, sampleRate := wasI2sInited, oldSampleRate;
        return;
      }
      err := ResumeDmaNow(f);
      if err != Ok {
        i2sInited, sampleRate, dmaMode := wasI2sInited, oldSampleRate, wasDmaMode;
        err := Failed;
      }
    }

    /** The steps of es8311_audio_i2s_reconfigure. */
    method ReclockNow(rate: nat, f: Faults) returns (err: Err)
      modifies this`dmaInited, this`dmaMode, this`i2sInited, this`sampleRate
      ensures (State(), err) == Reconfigure(old(State()), rate, f)
    {
      if !Supported(rate) {
        return Invalid;
      }
      if i2sInited && sampleRate == rate {
        return Ok;
      }
      ghost var before := State();
      var wasI2sInited, wasDmaMode, oldSampleRate := i2sInited, dmaMode, sampleRate;
      err := RebuildI2s(rate, f);
      if err != Ok {
        return;
      }
      err := SettleI2s(before, wasI2sInited, wasDmaMode, oldSampleRate, f);
    }

    /** Under load as at rest: all or nothing of the flags' own DMA mode, and never a change of the flags. */
    method I2sReconfigure(rate: nat, f: Faults) returns (err: Err)
      modifies this`dmaInited, this`dmaMode, this`i2sInited, this`sampleRate
      ensures (State(), err) == Reconfigure(old(State()), rate, f)
      ensures old(Reclocks(State(), rate)) ==> (err.Ok? <==> ReclockIsFaultFree(old(State()), f))
      ensures err.Ok? ==> i2sInited && sampleRate == rate
      ensures old(Valid() && (captureRunning ==> !Reclocks(State(), rate))) ==> Valid()
    {
      ghost var before := State();
      if Coherent(before) && (before.capture ==> !Reclocks(before, rate)) { ReconfigureKeepsCoherence(before, rate, f); }
      if Reclocks(before, rate) { ReclockRestoresDma(before, rate, f); }
      err := ReclockNow(rate, f);
    }

    method StartCallDuplexNow(f: Faults) returns (err: Err)
      modifies this
      ensures (State(), err) == StartCallDuplex(old(State()), f)
      ensures old(Valid()) ==> Valid()
    {
      if !inited {
        return Failed;
      }
      if dmaMode != Stopped || playbackRunning || captureRunning {
        return Busy;
      }
      playbackStartPending := false;
      captureLevel := 0;
      if f.codecPlayback {
        return Failed;
      }
      if f.codecRecord {
        return Failed;
      }
      playbackRunning, captureRunning := true, true;
      playbackStartPending := false;
      var started := StartDuplexDmaNow(f);
      if started != Ok {
        playbackRunning, captureRunning := false, false;
        playbackStartPending := false;
        captureLevel := 0;
        return Failed;
      }
      return Ok;
    }

    method CurrentRunMode() returns (mode: RunMode)
      ensures mode == GetRunMode(State())
      ensures Valid() && (mode.CaptureOnly? || mode.CallDuplex?) ==> dmaMode == Duplex
      ensures Valid() && (mode.Idle? || mode.CaptureOnly?) ==> dmaMode != DmaMode.Playback && !playbackStartPending
    {
      if playbackRunning && captureRunning {
        mode := CallDuplex;
      } else if captureRunning {
        mode := CaptureOnly;
      } else if playbackRunning {
        mode := PlaybackOnly;
      } else {
        mode := Idle;
      }
    }

    method StopPlaybackNow()
      modifies this`playbackRunning, this`playbackStartPending, this`dmaMode
      ensures State() == StopPlayback(old(State()))
      ensures old(Valid()) ==> Valid()
    {
      ghost var before := State();
      if Coherent(before) && Safe(before, CallStopPlayback) { SafeCallKeepsCoherence(before, CallStopPlayback, NO_FAULTS); }
      if !inited {
        return;
      }
      playbackRunning := false;
      playbackStartPending := false;
      if dmaMode == DmaMode.Playback {
        StopDma();
      }
    }

    method StopCaptureNow()
      modifies this`captureRunning, this`dmaMode
      ensures State() == StopCapture(old(State()))
      ensures old(Valid()) ==> Valid()
    {
      ghost var before := State();
      if Coherent(before) && Safe(before, CallStopCapture) { SafeCallKeepsCoherence(before, CallStopCapture, NO_FAULTS); }
      if !inited {
        return;
      }
      captureRunning := false;
      if dmaMode == Duplex && !playbackRunning {
        StopDma();
      }
    }

    method FlushCaptureNow()
      modifies this`captureLevel
      ensures State() == FlushCapture(old(State()))
      ensures old(Valid()) ==> Valid()
    {
      ghost var before := State();
      if Coherent(before) && Safe(before, CallFlushCapture) { SafeCallKeepsCoherence(before, CallFlushCapture, NO_FAULTS); }
      captureLevel := 0;
    }

    method StartPlaybackNow(f: Faults) returns (err: Err)
      modifies this
      ensures (State(), err) == StartPlayback(old(State()), f)
      ensures old(Valid()) ==> Valid()
    {
      ghost var before := State();
      if Coherent(before) && Safe(before, CallStartPlayback) { SafeCallKeepsCoherence(before, CallStartPlayback, f); }
      if !inited {
        return Failed;
      }
      if captureRunning {
        StopCaptureNow();
      }
      if playbackRunning {
        return Ok;
      }
      playbackRunning := true;
      playbackStartPending := true;
      if f.codecPlayback {
        playbackRunning := false;
        playbackStartPending := false;
        return Failed;
      }
      return Ok;
    }

    method StartCaptureNow(f: Faults) returns (err: Err)
      modifies this
      ensures (State(), err) == StartCapture(old(State()), f)
      ensures old(Valid()) && Safe(old(State()), CallStartCapture) ==> Valid()
    {
      ghost var before := State();
      if Coherent(before) && Safe(before, CallStartCapture) { SafeCallKeepsCoherence(before, CallStartCapture, f); }
      if !inited {
        return Failed;
      }
      if playbackRunning {
        return Busy;
      }
      captureLevel := 0;
      if dmaMode == Stopped {
        var started := StartDuplexDmaNow(f);
        if started != Ok {
          return Failed;
        }
      }
      if f.codecRecord {
        StopDma();
        return Failed;
      }
      captureRunning := true;
      return Ok;
    }

    method NotifyReady(f: Faults) returns (err: Err)
      modifies this
      ensures (State(), err) == NotifyPlaybackReady(old(State()), f)
      ensures old(Valid()) ==> Valid()
    {
      ghost var before := State();
      if Coherent(before) && Safe(before, CallNotifyReady) { SafeCallKeepsCoherence(before, CallNotifyReady, f); }
      if !inited {
        return Failed;
      }
      var startDma := playbackRunning && playbackStartPending && !renderer.NoRenderer?;
      if startDma {
        playbackStartPending := false;
      }
      if !startDma {
        return Ok;
      }
      var started := StartPlaybackDmaNow(f);
      if started != Ok {
        playbackRunning := false;
        playbackStartPending := false;
        return Failed;
      }
      return Ok;
    }

    /** Refused without an argument or under playback; what is playing keeps its renderer. */
    method SetRenderer(requested: Renderer) returns (err: Err)
      modifies this`renderer
      ensures (State(), err) == SetPlaybackRenderer(old(State()), requested)
      ensures old(Valid()) ==> Valid()
      ensures playbackRunning ==> renderer == old(renderer)
      ensures err.Ok? ==> renderer == requested != NoRenderer
    {
      if !inited || requested.NoRenderer? {
        return Invalid;
      }
      if playbackRunning {
        return Busy;
      }
      renderer := requested;
      return Ok;
    }

    /** Only the two rates of a call; the next call runs at the one accepted last. */
    method SetCallRate(rate: nat) returns (err: Err)
      modifies this`callSampleRate
      ensures (State(), err) == SetCallSampleRate(old(State()), rate)
      ensures old(Valid()) ==> Valid()
      ensures err.Ok? ==> forall f :: SetRunMode(State(), CallDuplex, f).1.Ok? ==> SetRunMode(State(), CallDuplex, f).0.rate == rate
    {
      if !inited {
        return Failed;
      }
      if rate != CVSD_SAMPLE_RATE && rate != MSBC_SAMPLE_RATE {
        return Invalid;
      }
      ghost var before := State();
      callSampleRate := rate;
      forall f | SetRunMode(State(), CallDuplex, f).1.Ok? ensures SetRunMode(State(), CallDuplex, f).0.rate == rate {
        CallRateTakesEffect(before, rate, f);
      }
      return Ok;
    }

    method ConfigureNow(rate: nat, channels: nat, f: Faults) returns (err: Err)
      modifies this
      ensures (State(), err) == Configure(old(State()), rate, channels, f)
      ensures old(Valid()) && Safe(old(State()), CallConfigure(rate, channels)) ==> Valid()
    {
      ghost var before := State();
      if Coherent(before) && Safe(before, CallConfigure(rate, channels)) { SafeCallKeepsCoherence(before, CallConfigure(rate, channels), f); }
      if !inited {
        return Failed;
      }
      if rate == 0 || channels == 0 || channels > 2 {
        return Invalid;
      }
      captureLevel := 0;
      err := I2sReconfigure(rate, f);
    }

    /** How every switch begins: stop playback, stop capture, flush unless capture is next, re-clock. */
    method RestAndReclock(rate: nat, flush: bool, f: Faults) returns (err: Err)
      modifies this
      ensures var stopped := StopCapture(StopPlayback(old(State())));
              (State(), err) == Reconfigure(if flush then FlushCapture(stopped) else stopped, rate, f)
    {
      StopPlaybackNow();
      StopCaptureNow();
      if flush {
        FlushCaptureNow();
      }
      err := I2sReconfigure(rate, f);
    }

    /** The switch statement of es8311_audio_set_run_mode. */
    method Dispatch(mode: RunMode, f: Faults) returns (err: Err)
      requires inited
      modifies this
      ensures (State(), err) == SetRunMode(old(State()), mode, f)
    {
      match mode
      case Idle =>
        StopPlaybackNow();
        StopCaptureNow();
        FlushCaptureNow();
        return Ok;
      case PlaybackOnly =>
        var current := CurrentRunMode();
        if current == PlaybackOnly {
          return Ok;
        }
        err := RestAndReclock(DEFAULT_SAMPLE_RATE, true, f);
        if err != Ok {
          return Failed;
        }
        err := StartPlaybackNow(f);
      case CaptureOnly =>
        var current := CurrentRunMode();
        if current == CaptureOnly {
          return Ok;
        }
        err := RestAndReclock(DEFAULT_SAMPLE_RATE, false, f);
        if err != Ok {
          return Failed;
        }
        err := StartCaptureNow(f);
      case CallDuplex =>
        var current := CurrentRunMode();
        if current == CallDuplex && sampleRate == callSampleRate {
          return Ok;
        }
        err := RestAndReclock(callSampleRate, true, f);
        if err != Ok {
          return Failed;
        }
        err := StartCallDuplexNow(f);
      case Unknown =>
        return Invalid;
    }

    /** All or nothing: the requested mode at its rate, or nothing running and the DMA stopped. */
    method SwitchRunMode(mode: RunMode, f: Faults) returns (err: Err)
      modifies this
      ensures (State(), err) == SetRunMode(old(State()), mode, f)
      ensures old(Valid()) ==> Valid()
      ensures old(inited && Supported(callSampleRate)) && !mode.Unknown? ==>
                && (err.Ok? <==> mode.Idle? || AlreadyIn(old(State()), mode) || SwitchIsFaultFree(old(State()), mode, f))
                && (err.Ok? ==>
                      && (playbackRunning <==> mode.PlaybackOnly? || mode.CallDuplex?)
                      && (captureRunning <==> mode.CaptureOnly? || mode.CallDuplex?)
                      && (mode.CallDuplex? ==> sampleRate == callSampleRate)
                      && (mode.Idle? || !old(AlreadyIn(State(), mode)) ==> captureLevel == 0)
                      && (!old(AlreadyIn(State(), mode)) && (mode.PlaybackOnly? || mode.CaptureOnly?) ==> sampleRate == 44100))
                && (!err.Ok? || mode.Idle? ==> Quiet(State()))
    {
      ghost var before := State();
      if Coherent(before) && Safe(before, CallSetRunMode(mode)) { SafeCallKeepsCoherence(before, CallSetRunMode(mode), f); }
      if inited && Supported(callSampleRate) && !mode.Unknown? {
        SetRunModeIsAllOrNothing(before, mode, f);
        SwitchKeepsIdentity(before, mode, f);
      }
      if !inited {
        return Failed;
      }
      err := Dispatch(mode, f);
    }
  }
}
