/**
  The media gate of applications/bt_a2dp_sink_app.c: when packets of the A2DP stream may reach the mixer. The
  class treats each event and each call as one step. The state machine below it looks inside them: the control
  thread may run while a stream-started event blocks in starting the source, and an event may come between any two
  steps of the call that closes or opens the gate.
 */
module A2dpGate {
  import opened Streams

  const DEFAULT_SAMPLE_RATE := 44100

  datatype Event =
    | StreamEstablished(success: bool, cid: nat, seid: nat)
    | SbcConfigured(rate: nat)
    | StreamStarted(sourceStarts: bool)
    | StreamSuspended
    | StreamStopped
    | StreamReleased
    | SignalingReleased
    | SuspendRejected

  class A2dpSink {
    var cid: nat
    var localSeid: nat
    var sampleRate: nat
    var streamActive: bool
    var localMediaEnabled: bool
    var mediaAllowed: bool
    var suspendInProgress: bool

    ghost predicate Valid()
      reads this
    {
      mediaAllowed ==> streamActive && localMediaEnabled
    }

    constructor ()
      ensures Valid() && localMediaEnabled && !streamActive
    {
      cid, localSeid, sampleRate := 0, 0, DEFAULT_SAMPLE_RATE;
      streamActive, localMediaEnabled, mediaAllowed, suspendInProgress := false, true, false, false;
    }

    /** No event touches the gate; only a start with the gate open and the mixer source running lets packets in. */
    method Handle(event: Event) returns (stopSource: bool)
      requires Valid()
      modifies this
      ensures Valid() && localMediaEnabled == old(localMediaEnabled)
      ensures streamActive == match event
              case StreamStarted(_) => true
              case StreamEstablished(success, _, _) => old(streamActive) && !success
              case SbcConfigured(_) => old(streamActive)
              case SuspendRejected => old(streamActive)
              case _ => false
      ensures mediaAllowed == match event
              case StreamStarted(starts) => localMediaEnabled && starts
              case StreamEstablished(success, _, _) => old(mediaAllowed) && !success
              case SbcConfigured(_) => old(mediaAllowed)
              case SuspendRejected => old(mediaAllowed)
              case _ => false
      ensures localSeid == match event
              case StreamEstablished(success, _, seid) => if success then seid else old(localSeid)
              case StreamReleased => 0
              case SignalingReleased => 0
              case _ => old(localSeid)
      ensures cid == match event
              case StreamEstablished(success, newCid, _) => if success then newCid else old(cid)
              case SignalingReleased => 0
              case _ => old(cid)
      ensures sampleRate == match event
              case SbcConfigured(rate) => rate
              case StreamReleased => DEFAULT_SAMPLE_RATE
              case SignalingReleased => DEFAULT_SAMPLE_RATE
              case _ => old(sampleRate)
      ensures suspendInProgress == (old(suspendInProgress) && (event.StreamEstablished? || event.SbcConfigured?))
      ensures stopSource <==> event.StreamSuspended? || event.StreamStopped? || event.StreamReleased? || event.SignalingReleased?
    {
      stopSource := false;
      match event
      case StreamEstablished(success, newCid, seid) =>
        if success {
          cid, localSeid, streamActive, mediaAllowed := newCid, seid, false, false;
        }
      case SbcConfigured(rate) =>
        sampleRate := rate;
      case StreamStarted(sourceStarts) =>
        suspendInProgress, streamActive := false, true;
        if !localMediaEnabled {
          mediaAllowed := false;
        } else if sourceStarts {
          mediaAllowed := true;
        } else {
          mediaAllowed := false;
        }
      case StreamSuspended =>
        suspendInProgress, streamActive, mediaAllowed, stopSource := false, false, false, true;
      case StreamStopped =>
        suspendInProgress, streamActive, mediaAllowed, stopSource := false, false, false, true;
      case StreamReleased =>
        suspendInProgress, streamActive, mediaAllowed, stopSource := false, false, false, true;
        sampleRate, localSeid := DEFAULT_SAMPLE_RATE, 0;
      case SignalingReleased =>
        suspendInProgress, streamActive, mediaAllowed, stopSource := false, false, false, true;
        sampleRate, cid, localSeid := DEFAULT_SAMPLE_RATE, 0, 0;
      case SuspendRejected =>
        suspendInProgress := false;
    }

    /** bt_a2dp_sink_set_local_media_enabled: closing always works; opening may fail to start the source. */
    method SetLocalMediaEnabled(enabled: bool, sourceStarts: bool) returns (ok: bool)
      requires Valid()
      modifies this`localMediaEnabled, this`mediaAllowed
      ensures Valid() && localMediaEnabled == enabled
      ensures ok <==> !enabled || !streamActive || sourceStarts
      ensures mediaAllowed <==> enabled && streamActive && sourceStarts
    {
      localMediaEnabled := enabled;
      if !localMediaEnabled {
        mediaAllowed := false;
        return true;
      }
      if !streamActive {
        mediaAllowed := false;
        return true;
      }
      if !sourceStarts {
        mediaAllowed := false;
        return false;
      }
      mediaAllowed := true;
      return true;
    }

    /** The media handler's three checks: a processed packet belongs to this active stream with the gate open. */
    method MediaPacket(seid: nat) returns (processed: bool)
      requires Valid()
      ensures processed <==> mediaAllowed && (localSeid == 0 || seid == localSeid)
      ensures processed ==> streamActive && localMediaEnabled
    {
      if localSeid != 0 && seid != localSeid {
        return false;
      }
      if !localMediaEnabled {
        return false;
      }
      if !mediaAllowed {
        return false;
      }
      return true;
    }
  }

  // ---- Inside the calls --------------------------------------------------------------------

  /** The stream-started handler after it has seen the gate open. */
  datatype EventPc = EventIdle | EventStartingSource

  /**
    Where the gate call stands: a close has stored the flag and not yet the permission; an opening has yet to look
    at the stream, is starting the source for an active one, or is about to forbid media for an inactive one.
   */
  datatype ControlPc = ControlIdle | Closing | OpenTesting | OpenStartingSource | OpenForbidding

  datatype Gate = Gate(enabled: bool, active: bool, allowed: bool, event: EventPc, control: ControlPc)

  /** StopStream is a suspend, stop, release or new establishment of the stream. */
  datatype GateStep =
    | BeginStarted | FinishStarted(sourceStarts: bool) | StopStream
    | BeginClose | FinishClose
    | BeginOpen | TestOpen | FinishOpen(sourceStarts: bool)

  function Move(g: Gate, step: GateStep): Gate {
    match step
    case BeginStarted =>
      if !g.event.EventIdle? then g
      else if g.enabled then g.(active := true, event := EventStartingSource)
      else g.(active := true, allowed := false)
    case FinishStarted(starts) => if g.event.EventIdle? then g else g.(allowed := starts, event := EventIdle)
    case StopStream => if g.event.EventIdle? then g.(active := false, allowed := false) else g
    case BeginClose => if g.control.ControlIdle? then g.(enabled := false, control := Closing) else g
    case FinishClose => if g.control.Closing? then g.(allowed := false, control := ControlIdle) else g
    case BeginOpen => if g.control.ControlIdle? then g.(enabled := true, control := OpenTesting) else g
    case TestOpen =>
      if !g.control.OpenTesting? then g else g.(control := if g.active then OpenStartingSource else OpenForbidding)
    case FinishOpen(starts) =>
      if g.control.OpenStartingSource? then g.(allowed := starts, control := ControlIdle)
      else if g.control.OpenForbidding? then g.(allowed := false, control := ControlIdle)
      else g
  }

  function Moves(g: Gate, steps: seq<GateStep>): Gate { Fold(Move, g, steps) }

  /** Media is allowed only for an active stream, and with the gate open or the close still under way. */
  predicate AllowedOnlyWhenOpen(g: Gate) { g.allowed ==> g.active && (g.enabled || g.control.Closing?) }

  /** What the control flow itself guarantees: only a gate call writes the flag, only an event the stream state. */
  predicate Consistent(g: Gate) {
    && (g.event.EventStartingSource? ==> g.active)
    && (g.control.Closing? ==> !g.enabled)
    && (g.control.OpenTesting? || g.control.OpenStartingSource? || g.control.OpenForbidding? ==> g.enabled)
  }

  const START := Gate(true, false, false, EventIdle, ControlIdle)

  /** Without interference each call and each event leaves what the class says. */
  lemma UninterruptedCalls(g: Gate, sourceStarts: bool)
    requires g.event.EventIdle? && g.control.ControlIdle?
    ensures Move(Move(g, BeginClose), FinishClose) == g.(enabled := false, allowed := false)
    ensures Move(Move(Move(g, BeginOpen), TestOpen), FinishOpen(sourceStarts))
            == g.(enabled := true, allowed := g.active && sourceStarts)
    ensures Move(Move(g, BeginStarted), FinishStarted(sourceStarts)) == g.(active := true, allowed := g.enabled && sourceStarts)
  {
  }

  /** The two steps that set the permission, when what they have looked at is no longer so. */
  predicate Overtaken(g: Gate, step: GateStep) {
    match step
    case FinishStarted(starts) => starts && g.event.EventStartingSource? && !g.enabled && !g.control.Closing?
    case FinishOpen(starts) => starts && g.control.OpenStartingSource? && !g.active
    case _ => false
  }

  const CLOSED_RACE := [BeginStarted, BeginClose, FinishClose, FinishStarted(true)]

  /** A close inside a start is lost: media stays allowed behind a closed gate, with both threads idle. */
  lemma CloseInsideStartIsLost()
    ensures Moves(START, CLOSED_RACE) == Gate(false, true, true, EventIdle, ControlIdle)
    ensures !AllowedOnlyWhenOpen(Moves(START, CLOSED_RACE))
  {
    FoldTwo(Move, START, [], BeginStarted, BeginClose);
    assert [] + [BeginStarted, BeginClose] == [BeginStarted, BeginClose];
    FoldTwo(Move, START, [BeginStarted, BeginClose], FinishClose, FinishStarted(true));
    assert CLOSED_RACE == [BeginStarted, BeginClose] + [FinishClose, FinishStarted(true)];
  }

  const SUSPENDED_RACE := [BeginOpen, TestOpen, StopStream, FinishOpen(true)]

  /** A suspend inside an opening is lost: from a closed gate over an active stream, media ends allowed over a dead one. */
  lemma SuspendInsideOpeningIsLost()
    ensures var closed := Gate(false, true, false, EventIdle, ControlIdle);
            Moves(START, [BeginStarted, FinishStarted(true), BeginClose, FinishClose]) == closed
            && Moves(closed, SUSPENDED_RACE) == Gate(true, false, true, EventIdle, ControlIdle)
            && !AllowedOnlyWhenOpen(Moves(closed, SUSPENDED_RACE))
  {
    var closed := Gate(false, true, false, EventIdle, ControlIdle);
    FoldFour(START, BeginStarted, FinishStarted(true), BeginClose, FinishClose);
    FoldFour(closed, BeginOpen, TestOpen, StopStream, FinishOpen(true));
  }

  lemma FoldFour(g: Gate, a: GateStep, b: GateStep, c: GateStep, d: GateStep)
    ensures Moves(g, [a, b, c, d]) == Move(Move(Move(Move(g, a), b), c), d)
  {
    FoldTwo(Move, g, [], a, b);
    assert [] + [a, b] == [a, b];
    FoldTwo(Move, g, [a, b], c, d);
    assert [a, b] + [c, d] == [a, b, c, d];
  }

  /** A step breaks the gate exactly when it is one of the two overtaken ones. */
  lemma OnlyOvertakenStepsBreakTheGate(g: Gate, step: GateStep)
    requires AllowedOnlyWhenOpen(g) && Consistent(g)
    ensures AllowedOnlyWhenOpen(Move(g, step)) <==> !Overtaken(g, step)
    ensures Consistent(Move(g, step))
  {
  }

  ghost predicate HoldsThroughout(steps: seq<GateStep>) {
    forall i :: 0 <= i <= |steps| ==> AllowedOnlyWhenOpen(Moves(START, steps[..i]))
  }

  /** On every run: allowed media always implies an active stream and an open gate iff no step is overtaken. */
  lemma RunsHoldExactly(steps: seq<GateStep>)
    ensures HoldsThroughout(steps) <==> forall i :: 0 <= i < |steps| ==> !Overtaken(Moves(START, steps[..i]), steps[i])
  {
    if forall i :: 0 <= i < |steps| ==> !Overtaken(Moves(START, steps[..i]), steps[i]) {
      forall i | 0 <= i <= |steps| ensures AllowedOnlyWhenOpen(Moves(START, steps[..i])) { HoldsUpTo(steps, i); }
    }
    if HoldsThroughout(steps) {
      forall i | 0 <= i < |steps| ensures !Overtaken(Moves(START, steps[..i]), steps[i]) {
        StaysConsistent(steps[..i]);
        NextMove(steps, i);
        assert AllowedOnlyWhenOpen(Moves(START, steps[..i])) && AllowedOnlyWhenOpen(Moves(START, steps[..i + 1]));
        OnlyOvertakenStepsBreakTheGate(Moves(START, steps[..i]), steps[i]);
      }
    }
  }

  lemma NextMove(steps: seq<GateStep>, i: nat)
    requires i < |steps|
    ensures Moves(START, steps[..i + 1]) == Move(Moves(START, steps[..i]), steps[i])
  {
    assert steps[..i + 1][..i] == steps[..i];
  }

  lemma {:induction false} StaysConsistent(steps: seq<GateStep>)
    ensures Consistent(Moves(START, steps))
  {
    if steps != [] { StaysConsistent(steps[..|steps| - 1]); }
  }

  lemma {:induction false} HoldsUpTo(steps: seq<GateStep>, n: nat)
    requires n <= |steps| && forall i :: 0 <= i < |steps| ==> !Overtaken(Moves(START, steps[..i]), steps[i])
    ensures AllowedOnlyWhenOpen(Moves(START, steps[..n]))
  {
    if n > 0 {
      HoldsUpTo(steps, n - 1);
      StaysConsistent(steps[..n - 1]);
      NextMove(steps, n - 1);
      OnlyOvertakenStepsBreakTheGate(Moves(START, steps[..n - 1]), steps[n - 1]);
    }
  }

  /** No close begins while a start is in progress, and no stream ends while an opening starts its source. */
  predicate AvoidsWindows(steps: seq<GateStep>) {
    forall i :: 0 <= i < |steps| ==>
      (steps[i].BeginClose? ==> Moves(START, steps[..i]).event.EventIdle?)
      && (steps[i].StopStream? ==> !Moves(START, steps[..i]).control.OpenStartingSource?)
  }

  lemma {:induction false} WindowsStayClear(steps: seq<GateStep>, n: nat)
    requires n <= |steps| && AvoidsWindows(steps)
    ensures var g := Moves(START, steps[..n]);
            (g.event.EventStartingSource? ==> g.enabled) && (g.control.OpenStartingSource? ==> g.active)
  {
    if n > 0 {
      WindowsStayClear(steps, n - 1);
      StaysConsistent(steps[..n - 1]);
      NextMove(steps, n - 1);
    }
  }

  /** On every run that avoids both windows, allowed media implies an active stream and an open gate. */
  lemma GateHoldsOutsideWindows(steps: seq<GateStep>)
    requires AvoidsWindows(steps)
    ensures HoldsThroughout(steps)
  {
    forall i | 0 <= i < |steps| ensures !Overtaken(Moves(START, steps[..i]), steps[i]) { WindowsStayClear(steps, i); }
    RunsHoldExactly(steps);
  }
}
