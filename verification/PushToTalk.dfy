/**
  Push-to-talk of applications/control_app.c. Key callbacks only post a request; the control thread polls it
  and walks through pausing the phone, closing the media gate, preparing the export and entering capture. Where
  that walk blocks, stream events may arrive. The callbacks run inside keyboard_poll on the same thread, so in the
  code no key arrives during the walk; the model lets keys arrive there all the same, and its results hold for
  either. What does rest on the single thread is that the poll reads and clears the request in one step.
 */
module PushToTalk {
  import opened A2dpGate

  datatype Request = NoRequest | StartRequest | StopRequest

  /** What the other components answer during one poll. */
  datatype World = World(connected: bool, remotePlaying: bool, pauseWorks: bool, exportStarts: bool, captureStarts: bool,
                         sourceStarts: bool, connectedAtStop: bool)

  class PttControl {
    var request: Request
    var wantHold: bool
    var capturing: bool
    var resumePlay: bool
    var mediaGateClosed: bool
    const sink: A2dpSink

    /** Accounts: pauses the phone accepted, play commands attempted for them, pauses given up while disconnected. */
    ghost var pausesAccepted: nat
    ghost var playAttempts: nat
    ghost var resumesForfeited: nat
    ghost var exportsStarted: nat
    ghost var exportsStopped: nat
    ghost var capturesEntered: nat
    ghost var capturesLeft: nat

    /** How often the key has been released. */
    ghost var releases: nat

    /** Everything taken for a conversation is given back, or still held by the one in progress. */
    ghost predicate Balanced()
      reads this
    {
      && pausesAccepted == playAttempts + resumesForfeited + (if resumePlay then 1 else 0)
      && exportsStarted == exportsStopped + (if capturing then 1 else 0)
      && capturesEntered == capturesLeft + (if capturing then 1 else 0)
    }

    /** What holds whenever the control thread is between two polls. */
    ghost predicate Valid()
      reads this, sink
    {
      && sink.Valid() && Balanced()
      && (resumePlay ==> capturing)
      && (mediaGateClosed <==> capturing)
      && (sink.localMediaEnabled <==> !mediaGateClosed)
      && (request.StartRequest? ==> wantHold)
      && (!wantHold && request.NoRequest? ==> !capturing)
    }

    constructor (sink: A2dpSink)
      requires sink.Valid() && sink.localMediaEnabled
      ensures Valid() && !capturing && this.sink == sink
    {
      this.sink := sink;
      request, wantHold, capturing, resumePlay, mediaGateClosed := NoRequest, false, false, false, false;
      pausesAccepted, playAttempts, resumesForfeited := 0, 0, 0;
      exportsStarted, exportsStopped, capturesEntered, capturesLeft, releases := 0, 0, 0, 0, 0;
    }

    // ---- Key callbacks ---------------------------------------------------------------------

    method LongPress()
      modifies this`wantHold, this`request
      ensures wantHold && request == StartRequest
      ensures old(Valid()) ==> Valid()
    {
      wantHold := true;
      request := StartRequest;
    }

    method LongPressRelease()
      modifies this`wantHold, this`request, this`releases
      ensures !wantHold && request == StopRequest && releases == old(releases) + 1
      ensures old(Valid()) ==> Valid()
    {
      releases := releases + 1;
      wantHold := false;
      request := StopRequest;
    }

    /** Stream events, and for generality keys, that arrive while the control thread blocks. */
    method Elapse()
      requires sink.Valid()
      modifies this`wantHold, this`request, this`releases, sink`streamActive, sink`mediaAllowed
      ensures sink.Valid() && releases >= old(releases)
      ensures releases == old(releases) && old(wantHold) ==> wantHold
      ensures (wantHold == old(wantHold) && request == old(request)) || (wantHold && request.StartRequest?) || (!wantHold && request.StopRequest?)
    {
      if * {
        LongPress();
      } else if * {
        LongPressRelease();
      }
      var active, allowed :| allowed ==> active && sink.localMediaEnabled;
      sink.streamActive, sink.mediaAllowed := active, allowed;
    }

    // ---- The control thread ----------------------------------------------------------------

    /** While a poll runs: the accounts are exact and the gate flag tells the truth. */
    ghost predicate Midway()
      reads this, sink
    {
      && sink.Valid() && Balanced() && (sink.localMediaEnabled <==> !mediaGateClosed)
      && (request.StartRequest? ==> wantHold) && (!wantHold ==> !request.StartRequest?)
    }

    method ReopenGate(sourceStarts: bool)
      requires Midway()
      modifies this`mediaGateClosed, sink`localMediaEnabled, sink`mediaAllowed
      ensures Midway() && !mediaGateClosed
    {
      if mediaGateClosed {
        var ignored := sink.SetLocalMediaEnabled(true, sourceStarts);
        mediaGateClosed := false;
      }
    }

    /** The abort path: one play command if, and only if, this walk had paused the phone. */
    method ResumeIfPaused()
      requires Midway()
      modifies this`resumePlay, this`playAttempts
      ensures Midway() && !resumePlay
      ensures playAttempts == old(playAttempts) + if old(resumePlay) then 1 else 0
    {
      if resumePlay {
        playAttempts := playAttempts + 1;
        resumePlay := false;
      }
    }

    /**
      control_ptt_start: either capture is entered with the gate closed, or everything is undone. Releasing the
      key during either wait makes it undo.
     */
    method Start(w: World) returns (ok: bool)
      requires Midway() && (resumePlay ==> capturing) && (mediaGateClosed <==> capturing)
      modifies this, sink
      ensures Midway() && (resumePlay ==> capturing) && (mediaGateClosed <==> capturing)
      ensures old(capturing) ==> capturing && pausesAccepted == old(pausesAccepted)
      ensures releases >= old(releases) && (old(wantHold) && releases == old(releases) ==> wantHold)
      ensures old(wantHold) && releases == old(releases) && w.exportStarts && w.captureStarts ==> capturing
      ensures capturing && !old(capturing) ==> ok && w.exportStarts && w.captureStarts && capturesEntered == old(capturesEntered) + 1
      ensures !ok ==> !capturing && old(wantHold) && (!w.exportStarts || !w.captureStarts)
      ensures resumesForfeited == old(resumesForfeited)
      ensures pausesAccepted == old(pausesAccepted) +
                (if !old(capturing) && old(wantHold) && w.connected && w.remotePlaying && w.pauseWorks then 1 else 0)
    {
      if capturing {
        return true;
      }
      if !wantHold {
        return true;
      }
      resumePlay := false;
      if w.connected && w.remotePlaying {
        if w.pauseWorks {
          resumePlay := true;
          pausesAccepted := pausesAccepted + 1;
        }
      }
      Elapse();
      if !wantHold {
        ResumeIfPaused();
        return true;
      }
      var closed := sink.SetLocalMediaEnabled(false, w.sourceStarts);
      if closed {
        mediaGateClosed := true;
      }
      Elapse();
      if !w.exportStarts {
        ReopenGate(w.sourceStarts);
        ResumeIfPaused();
        return false;
      }
      ok := EnterCapture(w);
    }

    /** The last part of the start, with the export running. */
    method EnterCapture(w: World) returns (ok: bool)
      requires Midway() && !capturing && mediaGateClosed && w.exportStarts
      modifies this, sink
      ensures Midway() && (resumePlay ==> capturing) && (mediaGateClosed <==> capturing)
      ensures capturing ==> ok && w.captureStarts && capturesEntered == old(capturesEntered) + 1
      ensures old(wantHold) && w.captureStarts ==> capturing
      ensures releases >= old(releases) && (old(wantHold) && releases == old(releases) ==> wantHold)
      ensures !ok <==> old(wantHold) && !w.captureStarts
      ensures resumesForfeited == old(resumesForfeited) && pausesAccepted == old(pausesAccepted)
    {
      exportsStarted := exportsStarted + 1;
      if !wantHold {
        Undo(w);
        return true;
      }
      Elapse();
      if !w.captureStarts {
        Undo(w);
        return false;
      }
      capturing := true;
      capturesEntered := capturesEntered + 1;
      return true;
    }

    /** Give back the export, the gate and the pause, in this order. */
    method Undo(w: World)
      requires sink.Valid() && (sink.localMediaEnabled <==> !mediaGateClosed) && !capturing
      requires (request.StartRequest? ==> wantHold) && (!wantHold ==> !request.StartRequest?)
      requires pausesAccepted == playAttempts + resumesForfeited + (if resumePlay then 1 else 0)
      requires exportsStarted == exportsStopped + 1 && capturesEntered == capturesLeft
      modifies this`wantHold, this`request, this`releases, this`exportsStopped, this`mediaGateClosed, this`resumePlay, this`playAttempts,
               sink`streamActive, sink`mediaAllowed, sink`localMediaEnabled
      ensures Midway() && !resumePlay && !mediaGateClosed && releases >= old(releases)
      ensures releases == old(releases) && old(wantHold) ==> wantHold
    {
      exportsStopped := exportsStopped + 1;
      Elapse();
      ReopenGate(w.sourceStarts);
      ResumeIfPaused();
    }

    /** control_ptt_stop: leave capture, reopen the gate, then resume the phone if it is still there. */
    method Stop(w: World)
      requires Midway() && (resumePlay ==> capturing) && (mediaGateClosed <==> capturing)
      modifies this, sink
      ensures Midway() && !capturing && !resumePlay && !mediaGateClosed && releases >= old(releases)
      ensures pausesAccepted == old(pausesAccepted)
      ensures old(resumePlay) && w.connectedAtStop ==> playAttempts == old(playAttempts) + 1 && resumesForfeited == old(resumesForfeited)
      ensures old(resumePlay) && !w.connectedAtStop ==> playAttempts == old(playAttempts) && resumesForfeited == old(resumesForfeited) + 1
      ensures !old(resumePlay) ==> playAttempts == old(playAttempts) && resumesForfeited == old(resumesForfeited)
    {
      if !capturing {
        resumePlay := false;
        return;
      }
      var needResume := resumePlay;
      resumePlay, capturing := false, false;
      exportsStopped, capturesLeft := exportsStopped + 1, capturesLeft + 1;
      resumesForfeited := resumesForfeited + if needResume then 1 else 0;
      Elapse();
      ReopenGate(w.sourceStarts);
      if needResume && w.connectedAtStop {
        playAttempts, resumesForfeited := playAttempts + 1, resumesForfeited - 1;
      }
    }

    /**
      control_ptt_poll: between polls the flags agree with the conversation state, whatever happened during
      the poll; a release that is seen always ends the conversation, and a press that is held through the poll
      always starts it unless the export or the capture fails.
     */
    method Poll(w: World)
      requires Valid()
      modifies this, sink
      ensures Valid()
      ensures old(request).StopRequest? ==> !capturing && !resumePlay && !mediaGateClosed && sink.localMediaEnabled
      ensures old(request).StartRequest? && releases == old(releases) && w.exportStarts && w.captureStarts ==> capturing
      ensures old(request).NoRequest? ==> capturing == old(capturing) && pausesAccepted == old(pausesAccepted)
      ensures pausesAccepted == old(pausesAccepted) +
                (if old(request).StartRequest? && !old(capturing) && w.connected && w.remotePlaying && w.pauseWorks then 1 else 0)
      ensures resumesForfeited > old(resumesForfeited) ==> !w.connectedAtStop
    {
      // Reading and then clearing loses no request only because no callback can run in between.
      var taken := request;
      if taken == NoRequest {
        return;
      }
      request := NoRequest;
      if taken == StartRequest {
        var ok := Start(w);
        if capturing && !wantHold {
          Stop(w);
        }
      } else if taken == StopRequest {
        Stop(w);
      }
    }
  }
}
