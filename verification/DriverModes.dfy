/**
  The playback / capture / call mode machine of applications/es8311_audio.c, as a function of the driver's
  flags and of which codec, I2S and DMA calls fail. Module CodecDriver holds the imperative form.
 */
module DriverModes {

  const DEFAULT_SAMPLE_RATE := 44100
  const CVSD_SAMPLE_RATE := 8000
  const MSBC_SAMPLE_RATE := 16000

  datatype DmaMode = Stopped | Playback | Duplex

  datatype RunMode = Idle | PlaybackOnly | CaptureOnly | CallDuplex | Unknown

  datatype Err = Ok | Failed | Busy | Invalid

  /** Who fills the transmit buffer: nobody yet, the mixer, or the hands-free call. */
  datatype Renderer = NoRenderer | MixerRenderer | CallRenderer

  /** Which of the calls whose status the driver checks would fail during one API call. */
  datatype Faults = Faults(i2sInit: bool, dmaInit: bool, codecRate: bool, codecPlayback: bool,
                           codecRecord: bool, transmitDma: bool, duplexDma: bool)

  datatype Driver = Driver(inited: bool, dmaInited: bool, i2sInited: bool, dma: DmaMode,
                           playback: bool, capture: bool, pending: bool, renderer: Renderer,
                           rate: nat, callRate: nat, captureLevel: nat)

  predicate Supported(rate: nat) {
    rate == 8000 || rate == 11025 || rate == 16000 || rate == 22050
    || rate == 32000 || rate == 44100 || rate == 48000 || rate == 96000
  }

  // ---- The static helpers ------------------------------------------------------------------

  function StartPlaybackDma(d: Driver, f: Faults): (Driver, Err) {
    if d.dma.Playback? then (d, Ok)
    else if !d.dma.Stopped? then (d, Busy)
    else if f.transmitDma then (d, Failed)
    else (d.(dma := Playback), Ok)
  }

  function StartDuplexDma(d: Driver, f: Faults): (Driver, Err) {
    if d.dma.Duplex? then (d, Ok)
    else if !d.dma.Stopped? then (d, Busy)
    else if f.duplexDma then (d, Failed)
    else (d.(dma := Duplex), Ok)
  }

  predicate CodecStateFails(d: Driver, f: Faults) {
    f.codecRate || (d.playback && f.codecPlayback) || (d.capture && f.codecRecord)
  }

  /** Capture needs the full-duplex DMA back; playback only if it had got past its start watermark. */
  function ResumeDma(d: Driver, f: Faults): (Driver, Err) {
    if d.capture then StartDuplexDma(d, f)
    else if d.playback && !d.pending then StartPlaybackDma(d, f)
    else (d, Ok)
  }

  /** The second half of a re-clocking, with I2S up at the new rate; what fails takes the recorded rate back. */
  function Settle(up: Driver, before: Driver, f: Faults): (Driver, Err) {
    var undone := up.(i2sInited := before.i2sInited, rate := before.rate);
    if !up.dmaInited && f.dmaInit then (undone, Failed)
    else if CodecStateFails(up, f) then (undone.(dmaInited := true), Failed)
    else
      var (started, err) := ResumeDma(up.(dmaInited := true), f);
      if err.Ok? then (started, Ok)
      else (undone.(dmaInited := true, dma := before.dma), Failed)
  }

  function Reconfigure(d: Driver, rate: nat, f: Faults): (Driver, Err) {
    if !Supported(rate) then (d, Invalid)
    else if d.i2sInited && d.rate == rate then (d, Ok)
    else if f.i2sInit then (d.(dma := Stopped, i2sInited := false), Failed)
    else Settle(d.(dma := Stopped, i2sInited := true, rate := rate), d, f)
  }

  function StartCallDuplex(d: Driver, f: Faults): (Driver, Err) {
    if !d.inited then (d, Failed)
    else if !d.dma.Stopped? || d.playback || d.capture then (d, Busy)
    else
      var reset := d.(pending := false, captureLevel := 0);
      if f.codecPlayback || f.codecRecord || StartDuplexDma(reset, f).1 != Ok then (reset, Failed)
      else (StartDuplexDma(reset.(playback := true, capture := true), f).0, Ok)
  }

  // ---- The public calls --------------------------------------------------------------------

  function GetRunMode(d: Driver): RunMode {
    if d.playback && d.capture then CallDuplex
    else if d.capture then CaptureOnly
    else if d.playback then PlaybackOnly
    else Idle
  }

  function StopPlayback(d: Driver): Driver {
    if !d.inited then d
    else d.(playback := false, pending := false, dma := if d.dma.Playback? then Stopped else d.dma)
  }

  function StopCapture(d: Driver): Driver {
    if !d.inited then d
    else d.(capture := false, dma := if d.dma.Duplex? && !d.playback then Stopped else d.dma)
  }

  function FlushCapture(d: Driver): Driver { d.(captureLevel := 0) }

  function StartPlayback(d: Driver, f: Faults): (Driver, Err) {
    if !d.inited then (d, Failed)
    else
      var quiet := if d.capture then StopCapture(d) else d;
      if quiet.playback then (quiet, Ok)
      else if f.codecPlayback then (quiet.(pending := false), Failed)
      else (quiet.(playback := true, pending := true), Ok)
  }

  function StartCapture(d: Driver, f: Faults): (Driver, Err) {
    if !d.inited then (d, Failed)
    else if d.playback then (d, Busy)
    else
      var reset := FlushCapture(d);
      var (running, err) := if d.dma.Stopped? then StartDuplexDma(reset, f) else (reset, Ok);
      if err != Ok then (running, Failed)
      else if f.codecRecord then (running.(dma := Stopped), Failed)
      else (running.(capture := true), Ok)
  }

  function NotifyPlaybackReady(d: Driver, f: Faults): (Driver, Err) {
    if !d.inited then (d, Failed)
    else if !(d.playback && d.pending && !d.renderer.NoRenderer?) then (d, Ok)
    else
      var (started, err) := StartPlaybackDma(d.(pending := false), f);
      if err.Ok? then (started, Ok) else (started.(playback := false, pending := false), Failed)
  }

  function SetPlaybackRenderer(d: Driver, renderer: Renderer): (Driver, Err) {
    if !d.inited || renderer.NoRenderer? then (d, Invalid)
    else if d.playback then (d, Busy)
    else (d.(renderer := renderer), Ok)
  }

  function SetCallSampleRate(d: Driver, rate: nat): (Driver, Err) {
    if !d.inited then (d, Failed)
    else if rate != CVSD_SAMPLE_RATE && rate != MSBC_SAMPLE_RATE then (d, Invalid)
    else (d.(callRate := rate), Ok)
  }

  function Configure(d: Driver, rate: nat, channels: nat, f: Faults): (Driver, Err) {
    if !d.inited then (d, Failed)
    else if rate == 0 || channels == 0 || channels > 2 then (d, Invalid)
    else Reconfigure(FlushCapture(d), rate, f)
  }

  predicate AlreadyIn(d: Driver, mode: RunMode) {
    GetRunMode(d) == mode && (mode.CallDuplex? ==> d.rate == d.callRate)
  }

  function TargetRate(d: Driver, mode: RunMode): nat {
    if mode.CallDuplex? then d.callRate else DEFAULT_SAMPLE_RATE
  }

  function EnterMode(d: Driver, mode: RunMode, f: Faults): (Driver, Err) {
    match mode
    case PlaybackOnly => StartPlayback(d, f)
    case CaptureOnly => StartCapture(d, f)
    case CallDuplex => StartCallDuplex(d, f)
    case _ => (d, Ok)
  }

  /** A switch to capture leaves the ring to start_capture; every other switch flushes it first. */
  function SetRunMode(d: Driver, mode: RunMode, f: Faults): (Driver, Err) {
    if !d.inited then (d, Failed)
    else if mode.Unknown? then (d, Invalid)
    else if !mode.Idle? && AlreadyIn(d, mode) then (d, Ok)
    else
      var stopped := StopCapture(StopPlayback(d));
      if mode.Idle? then (FlushCapture(stopped), Ok)
      else
        var flushed := if mode.CaptureOnly? then stopped else FlushCapture(stopped);
        var (clocked, err) := Reconfigure(flushed, TargetRate(d, mode), f);
        if err != Ok then (clocked, Failed) else EnterMode(clocked, mode, f)
  }

  // ---- All-or-nothing switching ------------------------------------------------------------

  /** The checked hardware calls a switch makes, and hence the faults that can stop it. */
  predicate SwitchIsFaultFree(d: Driver, mode: RunMode, f: Faults) {
    && (!(d.i2sInited && d.rate == TargetRate(d, mode)) ==>
          !f.i2sInit && (d.dmaInited || !f.dmaInit) && !f.codecRate)
    && (mode.PlaybackOnly? || mode.CallDuplex? ==> !f.codecPlayback)
    && (mode.CaptureOnly? || mode.CallDuplex? ==> !f.codecRecord && !f.duplexDma)
  }

  predicate Quiet(d: Driver) { !d.playback && !d.capture && !d.pending && d.dma.Stopped? }

  lemma StoppingQuietens(d: Driver)
    requires d.inited
    ensures Quiet(StopCapture(StopPlayback(d)))
    ensures StopCapture(StopPlayback(d)) == d.(playback := false, capture := false, pending := false, dma := Stopped)
  {
  }

  /** With nothing running, re-clocking succeeds exactly when its own calls do, and starts nothing. */
  lemma ReconfigureWhenQuiet(d: Driver, rate: nat, f: Faults)
    requires Quiet(d) && Supported(rate)
    ensures var (after, err) := Reconfigure(d, rate, f);
            && Quiet(after) && after.inited == d.inited && after.captureLevel == d.captureLevel && after.callRate == d.callRate
            && (err.Ok? <==> ((d.i2sInited && d.rate == rate) || (!f.i2sInit && (d.dmaInited || !f.dmaInit) && !f.codecRate)))
            && (err.Ok? ==> after.i2sInited && after.rate == rate)
  {
  }

  lemma EnterModeWhenQuiet(d: Driver, mode: RunMode, f: Faults)
    requires d.inited && Quiet(d) && !mode.Idle? && !mode.Unknown?
    ensures var (after, err) := EnterMode(d, mode, f);
            && (err.Ok? <==> (mode.CaptureOnly? || !f.codecPlayback) && (mode.PlaybackOnly? || (!f.codecRecord && !f.duplexDma)))
            && (after.rate == d.rate && after.callRate == d.callRate && after.i2sInited == d.i2sInited)
            && (err.Ok? ==>
                  (GetRunMode(after) == mode
                   && (after.capture ==> after.captureLevel == 0 && after.dma.Duplex? && !after.pending)
                   && (mode.PlaybackOnly? ==> after.pending && after.dma.Stopped?)))
            && (!err.Ok? ==> Quiet(after))
  {
  }

  /**
    A switch to a valid mode succeeds exactly when none of the hardware calls it needs fails. On success
    the driver is in the requested mode at that mode's rate, with an empty capture ring when capture is
    newly started; on failure nothing runs and the DMA is stopped. There is no state in between.
   */
  lemma SetRunModeIsAllOrNothing(d: Driver, mode: RunMode, f: Faults)
    requires d.inited && !mode.Unknown? && Supported(d.callRate)
    ensures var (after, err) := SetRunMode(d, mode, f);
            && (err.Ok? <==> mode.Idle? || AlreadyIn(d, mode) || SwitchIsFaultFree(d, mode, f))
            && (err.Ok? ==> GetRunMode(after) == mode && (mode.CallDuplex? ==> after.rate == d.callRate))
            && (err.Ok? && !AlreadyIn(d, mode) && !mode.Idle? ==>
                  (after.i2sInited
                   && after.rate == (if mode.CallDuplex? then d.callRate else 44100)
                   && (after.playback <==> mode.PlaybackOnly? || mode.CallDuplex?)
                   && (after.capture <==> mode.CaptureOnly? || mode.CallDuplex?)
                   && (after.capture ==> after.captureLevel == 0 && after.dma.Duplex?)
                   && (mode.PlaybackOnly? ==> after.pending && after.dma.Stopped?)))
            && (err.Ok? && (mode.Idle? || !AlreadyIn(d, mode)) ==> after.captureLevel == 0)
            && (!err.Ok? || mode.Idle? ==> Quiet(after))
  {
    StoppingQuietens(d);
    var stopped := StopCapture(StopPlayback(d));
    if !mode.Idle? && !AlreadyIn(d, mode) {
      var from := if mode.CaptureOnly? then stopped else FlushCapture(stopped);
      ReconfigureWhenQuiet(from, TargetRate(d, mode), f);
      EnterModeWhenQuiet(Reconfigure(from, TargetRate(d, mode), f).0, mode, f);
    }
  }

  // ---- Coherence over runs -----------------------------------------------------------------

  predicate Coherent(d: Driver) {
    && (d.capture ==> d.dma.Duplex?)
    && (d.dma.Playback? ==> d.playback && !d.pending && !d.capture)
    && (d.pending ==> d.playback && !d.capture)
    && Supported(d.callRate)
  }

  datatype Call =
    | CallSetRunMode(mode: RunMode) | CallStartPlayback | CallStopPlayback | CallStartCapture | CallStopCapture
    | CallFlushCapture | CallNotifyReady | CallSetRenderer(renderer: Renderer) | CallSetCallRate(rate: nat) | CallConfigure(rate: nat, channels: nat)

  function Apply(d: Driver, call: Call, f: Faults): Driver {
    match call
    case CallSetRunMode(mode) => SetRunMode(d, mode, f).0
    case CallStartPlayback => StartPlayback(d, f).0
    case CallStopPlayback => StopPlayback(d)
    case CallStartCapture => StartCapture(d, f).0
    case CallStopCapture => StopCapture(d)
    case CallFlushCapture => FlushCapture(d)
    case CallNotifyReady => NotifyPlaybackReady(d, f).0
    case CallSetRenderer(renderer) => SetPlaybackRenderer(d, renderer).0
    case CallSetCallRate(rate) => SetCallSampleRate(d, rate).0
    case CallConfigure(rate, channels) => Configure(d, rate, channels, f).0
  }

  predicate Reclocks(d: Driver, rate: nat) { Supported(rate) && !(d.i2sInited && d.rate == rate) }

  /** What a caller has to check first: no second start of a running capture, no re-clocking under it. */
  predicate Safe(d: Driver, call: Call) {
    match call
    case CallStartCapture => !(d.inited && d.capture && !d.playback)
    case CallConfigure(rate, channels) => !(d.inited && d.capture && Reclocks(d, rate) && 1 <= channels <= 2)
    case _ => true
  }

  const NO_FAULTS := Faults(false, false, false, false, false, false, false)

  lemma ReconfigureKeepsCoherence(d: Driver, rate: nat, f: Faults)
    requires Coherent(d) && (d.capture ==> !Reclocks(d, rate))
    ensures Coherent(Reconfigure(d, rate, f).0)
  {
  }

  lemma SwitchKeepsCoherence(d: Driver, mode: RunMode, f: Faults)
    requires Coherent(d)
    ensures Coherent(SetRunMode(d, mode, f).0)
  {
    if d.inited && !mode.Unknown? && !mode.Idle? {
      StoppingQuietens(d);
      var stopped := StopCapture(StopPlayback(d));
      var from := if mode.CaptureOnly? then stopped else FlushCapture(stopped);
      ReconfigureWhenQuiet(from, TargetRate(d, mode), f);
      EnterModeWhenQuiet(Reconfigure(from, TargetRate(d, mode), f).0, mode, f);
    }
  }

  lemma SafeCallKeepsCoherence(d: Driver, call: Call, f: Faults)
    requires Coherent(d) && Safe(d, call)
    ensures Coherent(Apply(d, call, f))
  {
    match call
    case CallSetRunMode(mode) => SwitchKeepsCoherence(d, mode, f);
    case CallConfigure(rate, channels) =>
      if d.inited && 1 <= channels <= 2 { ReconfigureKeepsCoherence(FlushCapture(d), rate, f); }
    case _ =>
  }

  /** A second start_capture whose record command fails leaves capture_running set over a stopped DMA. */
  lemma SecondCaptureStartBreaks(d: Driver)
    requires Coherent(d) && !Safe(d, CallStartCapture)
    ensures !Coherent(StartCapture(d, NO_FAULTS.(codecRecord := true)).0)
  {
  }

  /** So does re-clocking during capture when the I2S peripheral fails to initialise. */
  lemma ReclockDuringCaptureBreaks(d: Driver, rate: nat, channels: nat)
    requires Coherent(d) && !Safe(d, CallConfigure(rate, channels))
    ensures !Coherent(Configure(d, rate, channels, NO_FAULTS.(i2sInit := true)).0)
  {
  }

  /** The guard is exact: a call keeps the driver coherent under every fault pattern if and only if it is Safe. */
  lemma SafetyGuardIsExact(d: Driver, call: Call)
    requires Coherent(d)
    ensures Safe(d, call) <==> forall f :: Coherent(Apply(d, call, f))
  {
    if Safe(d, call) {
      forall f ensures Coherent(Apply(d, call, f)) { SafeCallKeepsCoherence(d, call, f); }
    } else {
      ghost var f := if call.CallStartCapture? then NO_FAULTS.(codecRecord := true) else NO_FAULTS.(i2sInit := true);
      assert !Coherent(Apply(d, call, f)) by {
        match call
        case CallStartCapture => SecondCaptureStartBreaks(d);
        case CallConfigure(rate, channels) => ReclockDuringCaptureBreaks(d, rate, channels);
        case _ =>
      }
    }
  }

  function Run(d: Driver, calls: seq<(Call, Faults)>): Driver {
    if calls == [] then d
    else
      var before := Run(d, calls[..|calls| - 1]);
      var (call, f) := calls[|calls| - 1];
      Apply(before, call, f)
  }

  predicate SafeRun(d: Driver, calls: seq<(Call, Faults)>) {
    calls == [] ||
    (SafeRun(d, calls[..|calls| - 1]) && Safe(Run(d, calls[..|calls| - 1]), calls[|calls| - 1].0))
  }

  /** On every run of guarded calls, whatever fails, flags and DMA mode stay in agreement. */
  lemma {:induction false} RunsStayCoherent(d: Driver, calls: seq<(Call, Faults)>)
    requires Coherent(d) && SafeRun(d, calls)
    ensures Coherent(Run(d, calls))
  {
    if calls != [] {
      RunsStayCoherent(d, calls[..|calls| - 1]);
      SafeCallKeepsCoherence(Run(d, calls[..|calls| - 1]), calls[|calls| - 1].0, calls[|calls| - 1].1);
    }
  }

  /** The calls that the application makes of the driver; capture is only ever started through set_run_mode. */
  predicate MadeByApplication(d: Driver, call: Call) {
    match call
    case CallStartCapture => false
    case CallConfigure(_, _) => !d.capture
    case _ => true
  }

  /** If every configure still finds capture off, no run of the application's calls trips the guard. */
  lemma {:induction false} ApplicationRunsAreSafe(d: Driver, calls: seq<(Call, Faults)>)
    requires Coherent(d)
    requires forall i :: 0 <= i < |calls| ==> MadeByApplication(Run(d, calls[..i]), calls[i].0)
    ensures SafeRun(d, calls) && Coherent(Run(d, calls))
  {
    if calls != [] {
      var n := |calls| - 1;
      forall i | 0 <= i < n ensures MadeByApplication(Run(d, calls[..n][..i]), calls[..n][i].0) {
        assert calls[..n][..i] == calls[..i];
      }
      ApplicationRunsAreSafe(d, calls[..n]);
      assert MadeByApplication(Run(d, calls[..n]), calls[n].0);
    }
    RunsStayCoherent(d, calls);
  }

  /** Mode switches and ready notifications alone, in particular, never trip it. */
  lemma RunModeCallsAreSafe(d: Driver, calls: seq<(Call, Faults)>)
    requires Coherent(d) && forall i :: 0 <= i < |calls| ==> calls[i].0.CallSetRunMode? || calls[i].0.CallNotifyReady?
    ensures SafeRun(d, calls) && Coherent(Run(d, calls))
  {
    ApplicationRunsAreSafe(d, calls);
  }

  /**
    The mixer checks that capture is off and then configures, and the hands-free handler does not take the
    mixer's mutex. A call set up in between makes the configure re-clock a running capture: from rest, with the
    check passed, the driver ends with capture running over a stopped DMA if the I2S peripheral fails then.
   */
  lemma CheckThenConfigureRaces(d: Driver)
    requires d.inited && Quiet(d) && Coherent(d)
    ensures var answered := SetRunMode(SetCallSampleRate(d, MSBC_SAMPLE_RATE).0, CallDuplex, NO_FAULTS).0;
            var configured := Configure(answered, 44100, 2, NO_FAULTS.(i2sInit := true)).0;
            !d.capture && Coherent(answered) && !Safe(answered, CallConfigure(44100, 2))
            && configured.capture && configured.dma.Stopped? && !Coherent(configured)
  {
    var asked := SetCallSampleRate(d, MSBC_SAMPLE_RATE).0;
    SetRunModeIsAllOrNothing(asked, CallDuplex, NO_FAULTS);
    SwitchKeepsCoherence(asked, CallDuplex, NO_FAULTS);
    var answered := SetRunMode(asked, CallDuplex, NO_FAULTS).0;
    StoppingQuietens(asked);
    SwitchKeepsIdentity(asked, CallDuplex, NO_FAULTS);
    ReclockDuringCaptureBreaks(answered, 44100, 2);
  }

  predicate SameIdentity(d: Driver, after: Driver) {
    after.inited == d.inited && after.renderer == d.renderer && after.callRate == d.callRate
  }

  lemma ReconfigureKeepsIdentity(d: Driver, rate: nat, f: Faults)
    ensures SameIdentity(d, Reconfigure(d, rate, f).0)
  {
  }

  lemma EnterModeKeepsIdentity(d: Driver, mode: RunMode, f: Faults)
    ensures SameIdentity(d, EnterMode(d, mode, f).0)
  {
  }

  /** A switch of mode leaves initialisation, renderer and call rate alone. */
  lemma SwitchKeepsIdentity(d: Driver, mode: RunMode, f: Faults)
    ensures SameIdentity(d, SetRunMode(d, mode, f).0)
  {
    if d.inited && !mode.Unknown? && !mode.Idle? {
      var stopped := StopCapture(StopPlayback(d));
      var from := if mode.CaptureOnly? then stopped else FlushCapture(stopped);
      StoppingQuietens(d);
      ReconfigureKeepsIdentity(from, TargetRate(d, mode), f);
      EnterModeKeepsIdentity(Reconfigure(from, TargetRate(d, mode), f).0, mode, f);
    }
  }

  // ---- Calls that belong together ----------------------------------------------------------

  /** The checks a re-clocking under load makes: clock, DMA setup, codec for what runs, DMA for what runs. */
  predicate ReclockIsFaultFree(d: Driver, f: Faults) {
    && !f.i2sInit && (d.dmaInited || !f.dmaInit) && !f.codecRate
    && (d.playback ==> !f.codecPlayback) && (d.capture ==> !f.codecRecord && !f.duplexDma)
    && (d.playback && !d.pending && !d.capture ==> !f.transmitDma)
  }

  predicate CalledOffBeforeResume(d: Driver, f: Faults) {
    f.i2sInit || (!d.dmaInited && f.dmaInit) || f.codecRate || (d.playback && f.codecPlayback) || (d.capture && f.codecRecord)
  }

  /**
    Re-clocking succeeds exactly when all of them do, and then the codec follows the running flags and the DMA is
    in the one mode they call for. It never changes what the flags say. A failure leaves the old rate recorded, and the
    DMA stopped; only if the DMA itself does not restart, its old mode stays recorded.
   */
  lemma ReclockRestoresDma(d: Driver, rate: nat, f: Faults)
    requires Reclocks(d, rate)
    ensures var (after, err) := Reconfigure(d, rate, f);
            && (err.Ok? <==> ReclockIsFaultFree(d, f))
            && after == d.(dma := after.dma, i2sInited := after.i2sInited, dmaInited := after.dmaInited, rate := after.rate)
            && (err.Ok? ==>
                  after.rate == rate && after.i2sInited
                  && after.dma == if d.capture then Duplex else if d.playback && !d.pending then Playback else Stopped)
            && (!err.Ok? ==>
                  after.rate == d.rate
                  && after.i2sInited == (d.i2sInited && !f.i2sInit)
                  && after.dma == if CalledOffBeforeResume(d, f) then Stopped else d.dma)
  {
  }

  /** Asking again for a mode that has been reached is answered without touching anything, whatever would fail. */
  lemma SwitchIsIdempotent(d: Driver, mode: RunMode, f: Faults, g: Faults)
    requires d.inited && Supported(d.callRate) && SetRunMode(d, mode, f).1.Ok?
    ensures var after := SetRunMode(d, mode, f).0; SetRunMode(after, mode, g) == (after, Ok)
  {
    if !mode.Unknown? {
      SetRunModeIsAllOrNothing(d, mode, f);
      SwitchKeepsIdentity(d, mode, f);
      IdleSwitch(d, f);
    }
  }

  lemma IdleSwitch(d: Driver, f: Faults)
    requires d.inited
    ensures SetRunMode(d, Idle, f) == (d.(playback := false, capture := false, pending := false, dma := Stopped, captureLevel := 0), Ok)
  {
    StoppingQuietens(d);
  }

  /** A call rate that is accepted is the rate of the next call, also when a call at another rate is still running. */
  lemma CallRateTakesEffect(d: Driver, rate: nat, f: Faults)
    requires SetCallSampleRate(d, rate).1.Ok?
    ensures var (after, err) := SetRunMode(SetCallSampleRate(d, rate).0, CallDuplex, f);
            err.Ok? ==> GetRunMode(after) == CallDuplex && after.rate == rate
    ensures rate == 8000 || rate == 16000
  {
    SetRunModeIsAllOrNothing(SetCallSampleRate(d, rate).0, CallDuplex, f);
  }

  /** On every run the rate kept for calls is one of the two that a call can have. */
  lemma {:induction false} RunsKeepCallRate(d: Driver, calls: seq<(Call, Faults)>)
    requires d.callRate == CVSD_SAMPLE_RATE || d.callRate == MSBC_SAMPLE_RATE
    ensures var rate := Run(d, calls).callRate; rate == CVSD_SAMPLE_RATE || rate == MSBC_SAMPLE_RATE
  {
    if calls != [] {
      var before := Run(d, calls[..|calls| - 1]);
      var (call, f) := calls[|calls| - 1];
      RunsKeepCallRate(d, calls[..|calls| - 1]);
      OnlySettersSet(before, call, f);
    }
  }

  /** The call rate changes only through its setter, the renderer only through its own and only without playback. */
  lemma OnlySettersSet(d: Driver, call: Call, f: Faults)
    ensures var after := Apply(d, call, f);
            && (after.callRate != d.callRate ==> call.CallSetCallRate? && after.callRate == call.rate
                                                 && SetCallSampleRate(d, call.rate).1.Ok?)
            && (after.renderer != d.renderer ==> call.CallSetRenderer? && after.renderer == call.renderer && !d.playback)
            && (d.renderer != NoRenderer ==> after.renderer != NoRenderer)
  {
    match call
    case CallSetRunMode(mode) => SwitchKeepsIdentity(d, mode, f);
    case CallConfigure(rate, channels) => if Reclocks(d, rate) { ReclockRestoresDma(FlushCapture(d), rate, f); }
    case _ =>
  }

  /** As long as playback keeps running, its renderer stays the same, whatever is called. */
  lemma {:induction false} RendererIsStableUnderPlayback(d: Driver, calls: seq<(Call, Faults)>)
    requires forall i :: 0 <= i < |calls| ==> Run(d, calls[..i]).playback
    ensures Run(d, calls).renderer == d.renderer
  {
    if calls != [] {
      var n := |calls| - 1;
      forall i | 0 <= i < n ensures Run(d, calls[..n][..i]).playback {
        assert calls[..n][..i] == calls[..i];
      }
      RendererIsStableUnderPlayback(d, calls[..n]);
      assert Run(d, calls[..n]).playback;
      OnlySettersSet(Run(d, calls[..n]), calls[n].0, calls[n].1);
    }
  }

  /** A notification starts the pending playback or, if the DMA fails, gives it up; any other one changes nothing. */
  lemma NotifyStartsPending(d: Driver, f: Faults)
    requires d.inited && d.dma.Stopped?
    ensures var (after, err) := NotifyPlaybackReady(d, f);
            if d.playback && d.pending && d.renderer != NoRenderer then
              if f.transmitDma then err == Failed && after == d.(playback := false, pending := false)
              else err == Ok && after == d.(pending := false, dma := Playback)
            else err == Ok && after == d
  {
  }

  /** Either stop leaves alone what the other side still uses. */
  lemma StopsKeepTheOtherSide(d: Driver)
    ensures d.inited && d.playback ==> StopCapture(d) == d.(capture := false)
    ensures d.inited && !d.dma.Playback? ==> StopPlayback(d) == d.(playback := false, pending := false)
    ensures d.inited ==> !StopPlayback(d).playback && !StopPlayback(d).dma.Playback? && !StopCapture(d).capture
  {
  }

  /**
    The order of two stops matters: playback first and capture second always leaves a stopped DMA, the other order
    leaves the duplex DMA of a call running with nobody using it, and exactly then.
   */
  lemma StopOrderMatters(d: Driver)
    requires d.inited
    ensures StopCapture(StopPlayback(d)).dma.Stopped?
    ensures StopPlayback(StopCapture(d)).dma.Stopped? <==> !(d.dma.Duplex? && d.playback)
    ensures !StopPlayback(StopCapture(d)).playback && !StopPlayback(StopCapture(d)).capture
  {
    StoppingQuietens(d);
  }

  /** Before initialisation no call has any effect on the driver, but for the flush of the capture ring. */
  lemma UninitialisedIsInert(d: Driver, call: Call, f: Faults)
    requires !d.inited && !call.CallFlushCapture?
    ensures Apply(d, call, f) == d
  {
  }

  /** What a start that succeeds has started, and ended: playback takes over from capture, capture never from playback. */
  lemma StartsExcludeEachOther(d: Driver, f: Faults)
    ensures var (after, err) := StartPlayback(d, f);
            err.Ok? ==> after.inited && after.playback && !after.capture && (!d.playback ==> after.pending)
    ensures var (after, err) := StartCapture(d, f);
            err.Ok? ==> after.inited && after.capture && !after.playback && after.captureLevel == 0 && !after.dma.Stopped?
    ensures d.inited && d.playback ==> StartCapture(d, f) == (d, Busy)
  {
  }

  /** Configuring an initialised driver forgets what was captured, and on success has it at the rate asked for. */
  lemma ConfigureOutcome(d: Driver, rate: nat, channels: nat, f: Faults)
    ensures var (after, err) := Configure(d, rate, channels, f);
            && (err.Ok? ==> d.inited && after.rate == rate && after.i2sInited && 1 <= channels <= 2)
            && (d.inited && rate > 0 && 1 <= channels <= 2 ==> after.captureLevel == 0)
  {
    if Reclocks(d, rate) { ReclockRestoresDma(FlushCapture(d), rate, f); }
  }
}
