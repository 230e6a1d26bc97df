/**
  The concurrent life of a playback session: any number of threads calling audio_mixer_write,
  audio_mixer_source_start, audio_mixer_source_stop and audio_mixer_stop_all, and the DMA interrupt that
  renders. Each interrupt-locked section and each driver call is one atomic step; the session mutex is a
  lock that threads may have to wait for. A thread is described by the step it will take next.
 */
module PlaybackSession {
  import opened FixedPoint
  import opened FrameRing
  import opened DriverModes
  import opened MixSpec
  import M = AudioMixer

  datatype Pc =
    | Resting
    | WriteWaiting | WriteRecheck | WriteNotify | WriteStartDma | WriteStartFailed
    | StartWaiting(source: M.Source) | StartEntry(source: M.Source) | StartActivate(source: M.Source)
    | StartProbe(source: M.Source) | StartConfigure(source: M.Source) | StartFlags(source: M.Source)
    | StartCodec(source: M.Source) | StartUndoFlags(source: M.Source) | StartRollback(source: M.Source)
    | StopWaiting(background: bool, voice: bool) | StopDeactivate(background: bool, voice: bool) | StopFlags | StopDmaStep
    | Releasing

  datatype Queue = Queue(active: bool, level: nat)

  datatype Owner = Free | HeldBy(thread: nat)

  datatype System = System(background: Queue, voice: Queue, driver: Driver, owner: Owner, threads: seq<Pc>)

  /** What one step does: which thread moves, or the interrupt; plus everything the code does not decide. */
  datatype Action =
    | CallWrite(t: nat, source: M.Source, frames: nat)
    | CallStart(t: nat, source: M.Source)
    | CallStop(t: nat, background: bool, voice: bool)
    | Next(t: nat, f: Faults)
    | RenderInterrupt(frames: nat)

  predicate Ready(s: System) {
    || (s.background.active && s.background.level >= M.BACKGROUND_START_FRAMES)
    || (s.voice.active && s.voice.level >= M.VOICE_START_FRAMES)
  }

  predicate AnyActive(s: System) { s.background.active || s.voice.active }

  function Filled(q: Queue, frames: nat, capacity: nat): Queue {
    q.(level := Min(capacity, q.level + Min(frames, capacity)))
  }

  /** Counting frames is enough: the level moves exactly as the ring of module FrameRing does. */
  lemma FilledIsRingLevel<T>(capacity: nat, held: seq<T>, frames: seq<T>)
    requires |held| <= capacity
    ensures Filled(Queue(true, |held|), |frames|, capacity).level == |KeepLast(capacity, held + frames)|
  {
  }

  function Drained(q: Queue, frames: nat): Queue {
    if q.active then q.(level := q.level - Min(q.level, frames)) else q
  }

  function Consume(s: System, frames: nat): System {
    s.(background := Drained(s.background, frames), voice := Drained(s.voice, frames))
  }

  function At(s: System, t: nat, pc: Pc): System
    requires t < |s.threads|
  {
    s.(threads := s.threads[t := pc])
  }

  predicate IsActive(s: System, source: M.Source) {
    match source case Background => s.background.active case Voice => s.voice.active case NoSuchSource => false
  }

  function Off(s: System, background: bool, voice: bool): System {
    s.(background := if background then Queue(false, 0) else s.background,
       voice := if voice then Queue(false, 0) else s.voice)
  }

  function Activated(s: System, source: M.Source): System {
    match source
    case Background => if s.background.active then s else s.(background := Queue(true, 0))
    case Voice => if s.voice.active then s else s.(voice := Queue(true, 0))
    case NoSuchSource => s
  }

  const PREFILL_FRAMES := 1024

  /** The mutex-waiting steps block while the lock is held; every other step is always possible. */
  function Advance(s: System, t: nat, f: Faults): (after: System)
    requires t < |s.threads|
    ensures |after.threads| == |s.threads|
  {
    var d := s.driver;
    match s.threads[t]
    case Resting => s
    case WriteWaiting => if s.owner.Free? then At(s.(owner := HeldBy(t)), t, WriteRecheck) else s
    case WriteRecheck => At(s, t, if Ready(s) then WriteNotify else Releasing)
    case WriteNotify =>
      if d.playback && d.pending && !d.renderer.NoRenderer? then At(s.(driver := d.(pending := false)), t, WriteStartDma)
      else At(s, t, Releasing)
    case WriteStartDma =>
      if d.dma.Playback? then At(s, t, Releasing)
      else
        var filled := if d.dma.Stopped? && d.renderer.MixerRenderer? then Consume(s, PREFILL_FRAMES) else s;
        var (started, err) := StartPlaybackDma(d, f);
        At(filled.(driver := started), t, if err.Ok? then Releasing else WriteStartFailed)
    case WriteStartFailed => At(s.(driver := d.(playback := false, pending := false)), t, Releasing)
    case StartWaiting(source) => if s.owner.Free? then At(s.(owner := HeldBy(t)), t, StartEntry(source)) else s
    case StartEntry(source) => At(s, t, if d.capture then Releasing else StartActivate(source))
    case StartActivate(source) => At(Activated(s, source), t, StartProbe(source))
    case StartProbe(source) => At(s, t, if d.playback then Releasing else StartConfigure(source))
    case StartConfigure(source) =>
      var (configured, err) := Configure(d, 44100, 2, f);
      At(s.(driver := configured), t, if err.Ok? then StartFlags(source) else StartRollback(source))
    case StartFlags(source) =>
      var quiet := if d.capture then StopCapture(d) else d;
      if quiet.playback then At(s.(driver := quiet), t, Releasing)
      else At(s.(driver := quiet.(playback := true, pending := true)), t, StartCodec(source))
    case StartCodec(source) => At(s, t, if f.codecPlayback then StartUndoFlags(source) else Releasing)
    case StartUndoFlags(source) => At(s.(driver := d.(playback := false, pending := false)), t, StartRollback(source))
    case StartRollback(source) => At(Off(s, source.Background?, source.Voice?), t, Releasing)
    case StopWaiting(b, v) => if s.owner.Free? then At(s.(owner := HeldBy(t)), t, StopDeactivate(b, v)) else s
    case StopDeactivate(b, v) =>
      var off := Off(s, b, v);
      At(off, t, if AnyActive(off) then Releasing else StopFlags)
    case StopFlags => At(s.(driver := d.(playback := false, pending := false)), t, StopDmaStep)
    case StopDmaStep => At(s.(driver := if d.dma.Playback? then d.(dma := Stopped) else d), t, Releasing)
    case Releasing => At(s.(owner := Free), t, Resting)
  }

  /** The locked part of a write: an inactive source takes nothing; reaching a watermark asks for the mutex. */
  function WriteStep(s: System, t: nat, source: M.Source, frames: nat): System
    requires t < |s.threads|
  {
    if frames == 0 || !IsActive(s, source) then s
    else
      var filled := if source.Background? then s.(background := Filled(s.background, frames, M.BACKGROUND_BUFFER_FRAMES))
                    else s.(voice := Filled(s.voice, frames, M.VOICE_BUFFER_FRAMES));
      if Ready(filled) then At(filled, t, WriteWaiting) else filled
  }

  function Step(s: System, a: Action): System {
    match a
    case CallWrite(t, source, frames) =>
      if t < |s.threads| && s.threads[t].Resting? then WriteStep(s, t, source, frames) else s
    case CallStart(t, source) =>
      if t < |s.threads| && s.threads[t].Resting? && !source.NoSuchSource? then At(s, t, StartWaiting(source)) else s
    case CallStop(t, b, v) =>
      if t < |s.threads| && s.threads[t].Resting? && (b || v) then At(s, t, StopWaiting(b, v)) else s
    case Next(t, f) => if t < |s.threads| then Advance(s, t, f) else s
    case RenderInterrupt(frames) =>
      if s.driver.dma.Playback? && s.driver.playback && !s.driver.pending && s.driver.renderer.MixerRenderer? then Consume(s, frames) else s
  }

  // ---- Invariant ---------------------------------------------------------------------------

  predicate Holds(pc: Pc) {
    !pc.Resting? && !pc.WriteWaiting? && !pc.StartWaiting? && !pc.StopWaiting?
  }

  ghost predicate MutexInvariant(s: System) {
    && (s.owner.HeldBy? ==> s.owner.thread < |s.threads|)
    && forall t :: 0 <= t < |s.threads| ==> (Holds(s.threads[t]) <==> s.owner == HeldBy(t))
  }

  /** What is known of the session at each step of the thread that holds the mutex. */
  predicate PcInvariant(s: System, pc: Pc) {
    var d := s.driver;
    match pc
    case WriteNotify => Settled(s) && (Ready(s) || d.dma.Playback?)
    case WriteStartDma => Ready(s) && d.playback && !d.pending && d.dma.Stopped?
    case WriteStartFailed => AnyActive(s) && d.dma.Stopped?
    case StartProbe(source) => Settled(s) && IsActive(s, source)
    case StartConfigure(source) => IsActive(s, source) && !d.playback && !d.pending && d.dma.Stopped?
    case StartFlags(source) => IsActive(s, source) && !d.playback && !d.pending && d.dma.Stopped?
    case StartCodec(source) => IsActive(s, source) && d.playback && d.pending && d.dma.Stopped?
    case StartUndoFlags(source) => IsActive(s, source) && d.dma.Stopped?
    case StartRollback(source) => IsActive(s, source) && !d.playback && !d.pending && d.dma.Stopped?
    case StopFlags => !AnyActive(s) && (d.dma.Playback? ==> !d.pending)
    case StopDmaStep => !AnyActive(s) && !d.playback && !d.pending
    case StartActivate(source) => Settled(s) && !source.NoSuchSource?
    case StartEntry(source) => Settled(s) && !source.NoSuchSource?
    case _ => Settled(s)
  }

  /** Between calls: the sink runs only for an active source, and its DMA only past the watermark. */
  predicate Settled(s: System) {
    && (s.driver.playback ==> AnyActive(s))
    && (s.driver.dma.Playback? ==> s.driver.playback && !s.driver.pending)
  }

  predicate SinkInvariant(s: System) {
    && s.driver.inited && !s.driver.capture && !s.driver.dma.Duplex? && (s.driver.pending ==> s.driver.playback)
    && s.background.level <= M.BACKGROUND_BUFFER_FRAMES && s.voice.level <= M.VOICE_BUFFER_FRAMES
  }

  ghost predicate Invariant(s: System) {
    && MutexInvariant(s)
    && SinkInvariant(s)
    && (forall t :: 0 <= t < |s.threads| && s.threads[t].StartWaiting? ==> !s.threads[t].source.NoSuchSource?)
    && (if s.owner.Free? then Settled(s) else PcInvariant(s, s.threads[s.owner.thread]))
  }

  lemma WriteKeepsInvariant(s: System, t: nat, source: M.Source, frames: nat)
    requires Invariant(s) && t < |s.threads| && s.threads[t].Resting?
    ensures Invariant(WriteStep(s, t, source, frames))
  {
  }

  lemma RenderKeepsInvariant(s: System, frames: nat)
    requires Invariant(s)
    ensures Invariant(Step(s, RenderInterrupt(frames)))
  {
  }

  lemma WriterAdvances(s: System, t: nat, f: Faults)
    requires t < |s.threads| && SinkInvariant(s) && PcInvariant(s, s.threads[t])
    requires var pc := s.threads[t]; pc.WriteRecheck? || pc.WriteNotify? || pc.WriteStartDma? || pc.WriteStartFailed?
    ensures var after := Advance(s, t, f); SinkInvariant(after) && PcInvariant(after, after.threads[t])
  {
  }

  lemma StarterEnters(s: System, t: nat, f: Faults)
    requires t < |s.threads| && SinkInvariant(s) && PcInvariant(s, s.threads[t])
    requires var pc := s.threads[t]; pc.StartEntry? || pc.StartActivate? || pc.StartProbe? || pc.StartConfigure?
    ensures var after := Advance(s, t, f); SinkInvariant(after) && PcInvariant(after, after.threads[t])
  {
    if s.threads[t].StartConfigure? && !s.driver.playback { ReconfigureWhenQuiet(FlushCapture(s.driver), 44100, f); }
  }

  lemma StarterFinishes(s: System, t: nat, f: Faults)
    requires t < |s.threads| && SinkInvariant(s) && PcInvariant(s, s.threads[t])
    requires var pc := s.threads[t]; pc.StartFlags? || pc.StartCodec? || pc.StartUndoFlags? || pc.StartRollback?
    ensures var after := Advance(s, t, f); SinkInvariant(after) && PcInvariant(after, after.threads[t])
  {
  }

  lemma StopperAdvances(s: System, t: nat, f: Faults)
    requires t < |s.threads| && SinkInvariant(s) && PcInvariant(s, s.threads[t])
    requires var pc := s.threads[t]; pc.StopDeactivate? || pc.StopFlags? || pc.StopDmaStep? || pc.Releasing?
    ensures var after := Advance(s, t, f); SinkInvariant(after) && PcInvariant(after, after.threads[t])
  {
  }

  lemma HolderAdvances(s: System, t: nat, f: Faults)
    requires t < |s.threads| && SinkInvariant(s) && PcInvariant(s, s.threads[t]) && Holds(s.threads[t])
    ensures var after := Advance(s, t, f); SinkInvariant(after) && PcInvariant(after, after.threads[t])
  {
    var pc := s.threads[t];
    if pc.WriteRecheck? || pc.WriteNotify? || pc.WriteStartDma? || pc.WriteStartFailed? {
      WriterAdvances(s, t, f);
    } else if pc.StartEntry? || pc.StartActivate? || pc.StartProbe? || pc.StartConfigure? {
      StarterEnters(s, t, f);
    } else if pc.StartFlags? || pc.StartCodec? || pc.StartUndoFlags? || pc.StartRollback? {
      StarterFinishes(s, t, f);
    } else {
      StopperAdvances(s, t, f);
    }
  }

  /** A waiter moves only by taking the free lock. */
  lemma WaiterAdvances(s: System, t: nat, f: Faults)
    requires t < |s.threads| && !Holds(s.threads[t])
    ensures var after := Advance(s, t, f);
            || after == s
            || (s.owner.Free? && after == At(s.(owner := HeldBy(t)), t, after.threads[t])
                && (after.threads[t].WriteRecheck? || after.threads[t].StopDeactivate?
                    || (after.threads[t].StartEntry? && after.threads[t].source == s.threads[t].source)))
  {
  }

  /** A holder keeps the lock until it releases it, and moves no other thread. */
  lemma HolderKeepsLock(s: System, t: nat, f: Faults)
    requires t < |s.threads| && Holds(s.threads[t]) && s.owner == HeldBy(t)
    ensures var after := Advance(s, t, f);
            && after.threads == s.threads[t := after.threads[t]]
            && (if s.threads[t].Releasing? then after.owner.Free? && after.threads[t].Resting?
                else after.owner == HeldBy(t) && Holds(after.threads[t]))
  {
  }

  lemma AdvanceKeepsInvariant(s: System, t: nat, f: Faults)
    requires Invariant(s) && t < |s.threads|
    ensures Invariant(Advance(s, t, f))
  {
    if Holds(s.threads[t]) {
      HolderKeepsLock(s, t, f);
      HolderAdvances(s, t, f);
    } else {
      WaiterAdvances(s, t, f);
    }
  }

  lemma StepKeepsInvariant(s: System, a: Action)
    requires Invariant(s)
    ensures Invariant(Step(s, a))
  {
    match a
    case CallWrite(t, source, frames) =>
      if t < |s.threads| && s.threads[t].Resting? { WriteKeepsInvariant(s, t, source, frames); }
    case Next(t, f) =>
      if t < |s.threads| { AdvanceKeepsInvariant(s, t, f); }
    case RenderInterrupt(frames) => RenderKeepsInvariant(s, frames);
    case _ =>
  }

  // ---- Runs --------------------------------------------------------------------------------

  function Run(s: System, actions: seq<Action>): System {
    if actions == [] then s else Step(Run(s, actions[..|actions| - 1]), actions[|actions| - 1])
  }

  /** Nothing runs yet and every thread is idle. */
  ghost predicate Initial(s: System) {
    && s.driver.inited && Quiet(s.driver) && s.owner.Free?
    && s.background == Queue(false, 0) && s.voice == Queue(false, 0)
    && forall t :: 0 <= t < |s.threads| ==> s.threads[t].Resting?
  }

  lemma {:induction false} RunKeepsInvariant(s: System, actions: seq<Action>)
    requires Initial(s)
    ensures Invariant(Run(s, actions))
  {
    if actions != [] {
      RunKeepsInvariant(s, actions[..|actions| - 1]);
      StepKeepsInvariant(Run(s, actions[..|actions| - 1]), actions[|actions| - 1]);
    }
  }

  /** A thread sets the DMA running only from the step after its second readiness check. */
  lemma ThreadStartsDma(s: System, t: nat, f: Faults)
    requires t < |s.threads| && Invariant(s) && !s.driver.dma.Playback? && Advance(s, t, f).driver.dma.Playback?
    ensures s.threads[t].WriteStartDma? && s.owner == HeldBy(t)
  {
    if s.threads[t].StartConfigure? { ReconfigureWhenQuiet(FlushCapture(s.driver), 44100, f); }
  }

  /** The only step that can set the DMA running is the one a thread takes after its second readiness check. */
  lemma DmaStartNeedsReadiness(s: System, a: Action)
    requires Invariant(s) && !s.driver.dma.Playback? && Step(s, a).driver.dma.Playback?
    ensures Ready(s) && a.Next? && s.threads[a.t].WriteStartDma?
  {
    match a
    case Next(t, f) => ThreadStartsDma(s, t, f);
    case _ =>
  }

  /**
    In every interleaving of writers, starters, stoppers and the render interrupt, playback DMA starts only in
    a state where some active source is at its start watermark.
   */
  lemma DmaStartsOnlyAtWatermark(s: System, actions: seq<Action>, a: Action)
    requires Initial(s)
    requires !Run(s, actions).driver.dma.Playback? && Run(s, actions + [a]).driver.dma.Playback?
    ensures Ready(Run(s, actions))
  {
    assert (actions + [a])[..|actions|] == actions;
    RunKeepsInvariant(s, actions);
    DmaStartNeedsReadiness(Run(s, actions), a);
  }

  /** The thread inside a session call is at this step. */
  predicate HolderStops(s: System, flagsToo: bool) {
    s.owner.HeldBy? && s.owner.thread < |s.threads|
    && (s.threads[s.owner.thread].StopFlags? || (flagsToo && s.threads[s.owner.thread].StopDmaStep?))
  }

  /**
    In every state of every run a running sink has an active source, except while a stop that has just silenced the
    last one is about to clear the flag; and so does running DMA, up to the stop's next step.
   */
  lemma SinkHasSourceUnlessStopping(s: System, actions: seq<Action>)
    requires Initial(s)
    ensures var now := Run(s, actions);
            && (now.driver.playback ==> AnyActive(now) || HolderStops(now, false))
            && (now.driver.dma.Playback? ==> AnyActive(now) || HolderStops(now, true))
  {
    RunKeepsInvariant(s, actions);
  }

  /** In particular whenever no session call is in progress. */
  lemma RunningSinkHasSource(s: System, actions: seq<Action>)
    requires Initial(s) && Run(s, actions).owner.Free?
    ensures Run(s, actions).driver.playback ==> AnyActive(Run(s, actions))
    ensures Run(s, actions).driver.dma.Playback? ==> AnyActive(Run(s, actions))
  {
    SinkHasSourceUnlessStopping(s, actions);
  }

  /** At most one thread is inside a session call at any time. */
  lemma SessionsAreExclusive(s: System, actions: seq<Action>, t: nat, u: nat)
    requires Initial(s) && t < |Run(s, actions).threads| && u < |Run(s, actions).threads|
    requires Holds(Run(s, actions).threads[t]) && Holds(Run(s, actions).threads[u])
    ensures t == u
  {
    RunKeepsInvariant(s, actions);
  }

  // ---- The machine and the mixer -----------------------------------------------------------

  /** The state machine counts what the mixer holds. */
  predicate Shows(s: System, m: Mix) {
    s.background == Queue(m.backgroundActive, |m.background|) && s.voice == Queue(m.voiceActive, |m.voice|)
  }

  /** Ready means what the mixer's write answers: 3000 frames of active music or 1024 of an active reply. */
  lemma ReadyIsTheMixersReady(s: System, m: Mix)
    requires Shows(s, m)
    ensures Ready(s) <==> (m.backgroundActive && |m.background| >= 3000) || (m.voiceActive && |m.voice| >= 1024)
  {
  }

  /** Rendering drains the counted queues by what it consumes of the held ones. */
  lemma RenderDrains(s: System, m: Mix, frames: nat)
    requires Shows(s, m)
    ensures Shows(Consume(s, frames), Render(m, frames).0)
  {
    RenderIsPointwise(m, frames);
  }

  /** Between session calls the interrupt renders exactly while playback DMA runs for the mixer, and else takes nothing. */
  lemma InterruptRenders(s: System, m: Mix, frames: nat)
    requires Invariant(s) && s.owner.Free? && Shows(s, m)
    ensures var after := Step(s, RenderInterrupt(frames));
            if s.driver.dma.Playback? && s.driver.renderer.MixerRenderer? then Shows(after, Render(m, frames).0) else after == s
    ensures var after := Step(s, RenderInterrupt(frames));
            after.driver == s.driver && after.owner == s.owner && after.threads == s.threads
  {
    RenderDrains(s, m, frames);
  }

  /** Switching a source on or off is the mixer's. */
  lemma SwitchesMatch(s: System, m: Mix, source: M.Source)
    requires Shows(s, m) && !source.NoSuchSource?
    ensures Shows(Activated(s, source), M.Activated(m, source))
    ensures Shows(Off(s, source.Background?, source.Voice?), M.Silenced(m, source))
    ensures Off(s, true, true).background == Off(s, true, true).voice == Queue(false, 0)
  {
  }

  /** A write fills the counted queue as the ring is filled, only for an active source, and asks for the sink iff ready. */
  lemma WritesMatch(s: System, t: nat, m: Mix, music: seq<Stereo>, reply: seq<Sample>)
    requires t < |s.threads| && Shows(s, m) && |m.background| <= 4096 && |m.voice| <= 2048
    ensures var after := WriteStep(s, t, M.Background, |music|);
            Shows(after, if m.backgroundActive then m.(background := KeepLast(4096, m.background + music)) else m)
            && after.threads[t] == if m.backgroundActive && music != [] && Ready(after) then WriteWaiting else s.threads[t]
    ensures var after := WriteStep(s, t, M.Voice, |reply|);
            Shows(after, if m.voiceActive then m.(voice := KeepLast(2048, m.voice + reply)) else m)
            && after.threads[t] == if m.voiceActive && reply != [] && Ready(after) then WriteWaiting else s.threads[t]
  {
    assert m.background + [] == m.background && m.voice + [] == m.voice;
  }

  // ---- Without interference ----------------------------------------------------------------

  /** n steps of one thread in a row. */
  function Alone(s: System, t: nat, f: Faults, n: nat): System
    requires t < |s.threads|
    decreases n
  {
    if n == 0 then s else Alone(Advance(s, t, f), t, f, n - 1)
  }

  lemma {:induction false} RestsForever(s: System, t: nat, f: Faults, n: nat)
    requires t < |s.threads| && s.threads[t].Resting?
    ensures Alone(s, t, f, n) == s
  {
    if n > 0 { RestsForever(s, t, f, n - 1); }
  }

  lemma ThenReleases(s: System, t: nat, f: Faults, n: nat)
    requires t < |s.threads| && s.threads[t].Releasing?
    ensures Alone(s, t, f, n + 1) == At(s.(owner := Free), t, Resting)
  {
    RestsForever(Advance(s, t, f), t, f, n);
  }

  /** What a session call leaves behind when nothing comes between its steps. */
  predicate Finished(s: System, t: nat, after: System, driver: Driver, queues: System)
    requires t < |s.threads|
  {
    after == s.(owner := Free, threads := s.threads[t := Resting], driver := driver,
                background := queues.background, voice := queues.voice)
  }

  lemma StopFlagsAlone(s: System, t: nat, f: Faults)
    requires t < |s.threads| && s.threads[t].StopFlags? && s.driver.inited
    ensures Finished(s, t, Alone(s, t, f, 10), StopPlayback(s.driver), s)
  {
    var flags := Advance(s, t, f);
    var stopped := Advance(flags, t, f);
    ThenReleases(stopped, t, f, 7);
  }

  /** A stop is the silencing of its sources and, with the last of them, the driver's stop_playback. */
  lemma StopAlone(s: System, t: nat, f: Faults, background: bool, voice: bool)
    requires t < |s.threads| && s.threads[t] == StopWaiting(background, voice) && s.owner.Free? && s.driver.inited
    ensures var off := Off(s, background, voice);
            Finished(s, t, Alone(s, t, f, 12), if AnyActive(off) then s.driver else StopPlayback(s.driver), off)
  {
    var locked := Advance(s, t, f);
    var silent := Advance(locked, t, f);
    assert Alone(s, t, f, 12) == Alone(locked, t, f, 11) == Alone(silent, t, f, 10);
    if silent.threads[t].StopFlags? {
      StopFlagsAlone(silent, t, f);
    } else {
      ThenReleases(silent, t, f, 9);
    }
  }

  lemma CodecAlone(s: System, t: nat, f: Faults, source: M.Source)
    requires t < |s.threads| && s.threads[t] == StartCodec(source)
    ensures Finished(s, t, Alone(s, t, f, 6),
                     if f.codecPlayback then s.driver.(playback := false, pending := false) else s.driver,
                     if f.codecPlayback then Off(s, source.Background?, source.Voice?) else s)
  {
    var codec := Advance(s, t, f);
    if f.codecPlayback {
      var undone := Advance(codec, t, f);
      var rolledBack := Advance(undone, t, f);
      ThenReleases(rolledBack, t, f, 2);
      assert Alone(codec, t, f, 5) == Alone(undone, t, f, 4) == Alone(rolledBack, t, f, 3);
    } else {
      ThenReleases(codec, t, f, 4);
    }
  }

  lemma FlagsAlone(s: System, t: nat, f: Faults, source: M.Source)
    requires t < |s.threads| && s.threads[t] == StartFlags(source) && s.driver.inited && !s.driver.playback && !s.driver.capture
    ensures var (driver, err) := StartPlayback(s.driver, f);
            Finished(s, t, Alone(s, t, f, 7), driver, if err.Ok? then s else Off(s, source.Background?, source.Voice?))
  {
    CodecAlone(Advance(s, t, f), t, f, source);
  }

  /** The steps that open the sink, from the configuration on. */
  lemma OpeningAlone(s: System, t: nat, f: Faults, source: M.Source)
    requires t < |s.threads| && s.threads[t] == StartConfigure(source) && s.driver.inited && !s.driver.playback && !s.driver.capture
    ensures var (driver, err) := M.OpenSink(s.driver, f);
            Finished(s, t, Alone(s, t, f, 8), driver, if err.Ok? then s else Off(s, source.Background?, source.Voice?))
  {
    var configured := Advance(s, t, f);
    M.OpenSinkOutcome(s.driver, f);
    assert configured.driver == Configure(s.driver, 44100, 2, f).0;
    if configured.threads[t].StartFlags? {
      FlagsAlone(configured, t, f, source);
    } else {
      var rolledBack := Advance(configured, t, f);
      ThenReleases(rolledBack, t, f, 5);
      assert Alone(configured, t, f, 7) == Alone(rolledBack, t, f, 6);
    }
  }

  /** A start activates its source and opens the sink exactly as the sequential call does, or rolls the source back. */
  lemma StartAlone(s: System, t: nat, f: Faults, source: M.Source)
    requires t < |s.threads| && s.threads[t] == StartWaiting(source) && s.owner.Free? && s.driver.inited && !s.driver.capture
    ensures var (driver, err) := M.OpenSink(s.driver, f);
            var active := Activated(s, source);
            Finished(s, t, Alone(s, t, f, 12), driver, if err.Ok? then active else Off(active, source.Background?, source.Voice?))
  {
    var locked := Advance(s, t, f);
    var entered := Advance(locked, t, f);
    var active := Advance(entered, t, f);
    var probed := Advance(active, t, f);
    assert Alone(s, t, f, 12) == Alone(locked, t, f, 11) == Alone(entered, t, f, 10);
    assert Alone(entered, t, f, 10) == Alone(active, t, f, 9) == Alone(probed, t, f, 8);
    if s.driver.playback {
      ThenReleases(probed, t, f, 7);
    } else {
      OpeningAlone(probed, t, f, source);
    }
  }

  /** Both halves of the buffer are filled from the sources before the DMA is set running. */
  predicate StartsFromRest(d: Driver) { d.playback && d.pending && d.renderer.MixerRenderer? && d.dma.Stopped? }

  predicate Prefills(s: System) { Ready(s) && StartsFromRest(s.driver) }

  /** A start while capture runs gives up at once. */
  lemma StartUnderCaptureAlone(s: System, t: nat, f: Faults, source: M.Source)
    requires t < |s.threads| && s.threads[t] == StartWaiting(source) && s.owner.Free? && s.driver.capture
    ensures Finished(s, t, Alone(s, t, f, 12), s.driver, s)
  {
    var locked := Advance(s, t, f);
    ThenReleases(Advance(locked, t, f), t, f, 9);
    assert Alone(s, t, f, 12) == Alone(locked, t, f, 11);
  }

  /** A writer that has asked for the sink notifies the driver exactly if a source is still ready. */
  lemma NotifyAlone(s: System, t: nat, f: Faults)
    requires t < |s.threads| && s.threads[t].WriteWaiting? && s.owner.Free? && s.driver.inited
    ensures Alone(s, t, f, 12).driver == if Ready(s) then NotifyPlaybackReady(s.driver, f).0 else s.driver
    ensures Alone(s, t, f, 12).owner.Free? && Alone(s, t, f, 12).threads == s.threads[t := Resting]
    ensures Alone(s, t, f, 12).(driver := s.driver, threads := s.threads) == if Prefills(s) then Consume(s, 1024) else s
  {
    var locked := Advance(s, t, f);
    var checked := Advance(locked, t, f);
    assert Alone(s, t, f, 12) == Alone(locked, t, f, 11) == Alone(checked, t, f, 10);
    if Ready(s) {
      NotifyingAlone(checked, t, f);
    } else {
      ThenReleases(checked, t, f, 9);
    }
  }

  lemma NotifyingAlone(s: System, t: nat, f: Faults)
    requires t < |s.threads| && s.threads[t].WriteNotify? && s.driver.inited
    ensures var after := Alone(s, t, f, 10);
            && after.driver == NotifyPlaybackReady(s.driver, f).0 && after.owner.Free? && after.threads == s.threads[t := Resting]
            && after.(driver := s.driver, threads := s.threads, owner := s.owner) ==
                 if StartsFromRest(s.driver) then Consume(s, 1024) else s
  {
    var notified := Advance(s, t, f);
    if notified.threads[t].WriteStartDma? {
      var started := Advance(notified, t, f);
      if started.threads[t].WriteStartFailed? {
        var failed := Advance(started, t, f);
        ThenReleases(failed, t, f, 6);
        assert Alone(started, t, f, 8) == Alone(failed, t, f, 7);
      } else {
        ThenReleases(started, t, f, 7);
      }
      assert Alone(notified, t, f, 9) == Alone(started, t, f, 8);
    } else {
      ThenReleases(notified, t, f, 8);
    }
  }

  /** With the sink pending, a writer that finds a source ready does start the DMA, unless the DMA call fails. */
  lemma ReadyWriterStartsPlayback(s: System, t: nat, f: Faults)
    requires t < |s.threads| && s.threads[t].WriteWaiting? && s.owner.Free? && Ready(s)
    requires s.driver.inited && s.driver.playback && s.driver.pending && !s.driver.renderer.NoRenderer? && s.driver.dma.Stopped?
    ensures var after := Alone(s, t, f, 12).driver;
            if f.transmitDma then !after.playback && after.dma.Stopped? else after.playback && !after.pending && after.dma.Playback?
  {
    NotifyAlone(s, t, f);
    NotifyStartsPending(s.driver, f);
  }
}
