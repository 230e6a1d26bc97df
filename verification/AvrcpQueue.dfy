/**
  The command queue of applications/bt_avrcp_ct_app.c. Any thread may post; the BTstack run loop executes a
  single registered callback that runs the queue dry. Each interrupt-locked section, each registration and
  each command sent is one atomic step, so the object invariant covers every interleaving.
 */
module AvrcpQueue {
  import opened FrameRing

  const QUEUE_SIZE := 8

  datatype Command = Play | Pause | NextTrack | PreviousTrack | VolumeUp | VolumeDown

  datatype Runner = Asleep | Awake | Sending(command: Command)

  class CommandQueue {
    const queue: Ring<Command>
    var callbackPending: bool
    var runner: Runner

    /** The registration between a poster's decision and the run loop: still with the poster, or with the loop. */
    var withPoster: nat
    var withRunLoop: nat

    ghost var accepted: seq<Command>
    ghost var executed: seq<Command>

    function InHand(): seq<Command>
      reads this
    {
      if runner.Sending? then [runner.command] else []
    }

    ghost predicate Valid()
      reads this, queue, queue.buffer
    {
      && queue.Valid() && queue.capacityFrames == QUEUE_SIZE
      && accepted == executed + InHand() + queue.Contents()
      && withPoster + withRunLoop + (if runner.Asleep? then 0 else 1) == (if callbackPending then 1 else 0)
      && (queue.Contents() != [] ==> callbackPending)
    }

    constructor ()
      ensures Valid() && !callbackPending && accepted == [] && fresh(queue) && fresh(queue.buffer)
    {
      queue := new Ring<Command>(QUEUE_SIZE);
      callbackPending, runner := false, Asleep;
      withPoster, withRunLoop, accepted, executed := 0, 0, [], [];
    }

    /** bt_avrcp_ct_post_command up to the end of its locked section; a full queue refuses. */
    method Post(command: Command, connected: bool) returns (ok: bool, register: bool)
      requires Valid()
      modifies this`callbackPending, this`withPoster, this`accepted, queue`writeFrame, queue`levelFrames, queue`contents, queue.buffer
      ensures Valid()
      ensures ok <==> connected && old(queue.levelFrames) < QUEUE_SIZE
      ensures accepted == if ok then old(accepted) + [command] else old(accepted)
      ensures register <==> ok && !old(callbackPending)
      ensures withPoster == old(withPoster) + if register then 1 else 0
    {
      ok, register := false, false;
      if !connected {
        return;
      }
      if queue.levelFrames >= QUEUE_SIZE {
        return;
      }
      ghost var waiting := queue.Contents();
      queue.Push(command);
      accepted := accepted + [command];
      assert executed + InHand() + (waiting + [command]) == (executed + InHand() + waiting) + [command];
      if !callbackPending {
        callbackPending := true;
        register := true;
        withPoster := withPoster + 1;
      }
      ok := true;
    }

    /** btstack_run_loop_execute_on_main_thread by the poster that set the pending flag. */
    method Register()
      requires Valid() && withPoster > 0
      modifies this`withPoster, this`withRunLoop
      ensures Valid() && withPoster == 0 && withRunLoop == 1
    {
      withPoster := withPoster - 1;
      withRunLoop := withRunLoop + 1;
    }

    /** The run loop takes the registration off its list and calls bt_avrcp_ct_run_queued_commands. */
    method StartRunner()
      requires Valid() && withRunLoop > 0
      modifies this`withRunLoop, this`runner
      ensures Valid() && runner.Awake? && withRunLoop == 0
    {
      withRunLoop := withRunLoop - 1;
      runner := Awake;
    }

    /** One locked section of the runner: take the oldest command, or find the queue dry and stop. */
    method TakeNext()
      requires Valid() && runner.Awake?
      modifies this`callbackPending, this`runner, queue`readFrame, queue`levelFrames, queue`contents, queue`overflowLogged
      ensures Valid()
      ensures var waiting := old(queue.Contents());
              if waiting == [] then runner.Asleep? && !callbackPending
              else runner == Sending(waiting[0]) && queue.Contents() == waiting[1..] && callbackPending
    {
      if queue.levelFrames == 0 {
        callbackPending := false;
        runner := Asleep;
        return;
      }
      ghost var waiting := queue.Contents();
      var command := queue.Pop();
      runner := Sending(command);
      assert waiting == [command] + waiting[1..];
      assert executed + [] + ([command] + waiting[1..]) == executed + [command] + waiting[1..];
    }

    /** bt_avrcp_ct_send_command_now, outside the lock; its status is ignored by the runner. */
    method SendTaken()
      requires Valid() && runner.Sending?
      modifies this`runner, this`executed
      ensures Valid() && runner.Awake?
      ensures executed == old(executed) + old(InHand())
    {
      executed := executed + [runner.command];
      runner := Awake;
    }

    // ---- Consequences ----------------------------------------------------------------------

    /** Exactly once and in order: the executed commands are a prefix of the accepted ones. */
    lemma ExecutedIsPrefix()
      requires Valid()
      ensures executed <= accepted && |accepted| - |executed| <= QUEUE_SIZE + 1
      ensures withPoster + withRunLoop <= 1
      ensures !callbackPending ==> executed == accepted
    {
      assert accepted == executed + (InHand() + queue.Contents());
    }

    /** No lost wake-up: whatever was accepted is executed by the one callback already on its way. */
    method RunDry()
      requires Valid()
      modifies this, queue`readFrame, queue`levelFrames, queue`contents, queue`overflowLogged
      ensures Valid() && runner.Asleep? && executed == accepted == old(accepted)
    {
      if withPoster > 0 {
        Register();
      }
      if withRunLoop > 0 {
        StartRunner();
      }
      if runner.Sending? {
        SendTaken();
      }
      while !runner.Asleep?
        invariant Valid() && !runner.Sending? && withPoster + withRunLoop == 0 && accepted == old(accepted)
        decreases queue.levelFrames, !runner.Asleep?
      {
        TakeNext();
        if runner.Sending? {
          SendTaken();
        }
      }
      ExecutedIsPrefix();
    }
  }
}
