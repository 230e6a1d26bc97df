/**
  The serial-port link of applications/bt_spp_app.c. Application threads write and read under the mutex; the
  BTstack thread runs the event handler and the transmit kick, which sends only after it has released the
  mutex. Every method is one atomic step, so the object invariant covers every interleaving of the threads.
  rt_ringbuffer is not part of this model: a ring is a bounded byte sequence whose put stores a prefix.
 */
module SppLink {

  const MAX_FRAME := 1024
  const RX_BUFFER_SIZE := 1024
  const TX_BUFFER_SIZE := 1024
  const SERVER_CHANNEL := 1
  const WORD := 0x1_0000_0000

  type Byte = x: int | 0 <= x < 256

  /** What the BTstack thread still has to do for a kick after releasing the mutex. */
  datatype BtStep =
    | NoKick
    | MustRequest
    | MustSend(frame: seq<Byte>, requestAfter: bool)

  function PutPrefix(ring: seq<Byte>, capacity: nat, data: seq<Byte>): (stored: nat)
    requires |ring| <= capacity
    ensures stored <= |data| && |ring| + stored <= capacity
    ensures stored < |data| ==> |ring| + stored == capacity
  {
    if |data| <= capacity - |ring| then |data| else capacity - |ring|
  }

  class SppContext {
    var rxRing: seq<Byte>
    var txRing: seq<Byte>
    var pendingCid: nat
    var rfcommCid: nat
    var maxFrameSize: nat
    var rxDroppedBytes: nat
    var overflowLogged: bool
    var txCallbackScheduled: bool

    /** The BTstack thread between mutex release and the end of a kick. */
    var btStep: BtStep

    /** Wake-ups on their way: registrations the run loop holds, writers about to register, a can-send event. */
    var callbacksQueued: nat
    var writersToRegister: nat
    var canSendRequested: bool

    /** Since the last channel open: writes accepted, bytes handed to rfcomm_send, whether a send failed. */
    ghost var accepted: seq<Byte>
    ghost var handed: seq<Byte>
    ghost var sendFailed: bool
    ghost var rxStored: seq<Byte>
    ghost var rxRead: seq<Byte>
    ghost var rxReceived: nat
    ghost var rxDropped: nat

    function FrameLimit(): (n: nat)
      reads this
      ensures 1 <= n <= 1024 && (maxFrameSize != 0 ==> n <= maxFrameSize)
      ensures n == 1024 || n == maxFrameSize
    {
      if maxFrameSize == 0 || maxFrameSize > MAX_FRAME then MAX_FRAME else maxFrameSize
    }

    function InFlight(): seq<Byte>
      reads this
    {
      if btStep.MustSend? then btStep.frame else []
    }

    /** Something will run the kick again. */
    ghost predicate Awake()
      reads this
    {
      callbacksQueued > 0 || writersToRegister > 0 || canSendRequested || btStep.MustRequest?
      || (btStep.MustSend? && btStep.requestAfter)
    }

    ghost predicate StreamIntact()
      reads this
    {
      && accepted == handed + InFlight() + txRing
      && RxIntact()
    }

    ghost predicate RxIntact()
      reads this`rxStored, this`rxRead, this`rxRing, this`rxReceived, this`rxDropped, this`rxDroppedBytes
    {
      && |rxRing| <= RX_BUFFER_SIZE && rxStored == rxRead + rxRing
      && rxReceived == |rxRead| + |rxRing| + rxDropped && rxDroppedBytes == rxDropped % WORD
    }

    ghost predicate Valid()
      reads this
    {
      && |txRing| <= TX_BUFFER_SIZE
      && (pendingCid == 0 || rfcommCid == 0)
      && (rfcommCid == 0 ==> txRing == [])
      && (btStep.MustSend? ==> 1 <= |btStep.frame| <= FrameLimit() && rfcommCid != 0)
      && StreamIntact()
      && (txCallbackScheduled ==> callbacksQueued + writersToRegister > 0)
      && (rfcommCid != 0 && txRing != [] && !sendFailed ==> Awake())
    }

    constructor ()
      ensures Valid() && rfcommCid == 0 && pendingCid == 0
      ensures btStep.NoKick? && callbacksQueued == writersToRegister == 0 && !canSendRequested && !txCallbackScheduled
    {
      rxRing, txRing := [], [];
      pendingCid, rfcommCid, maxFrameSize, rxDroppedBytes := 0, 0, 0, 0;
      overflowLogged, txCallbackScheduled := false, false;
      btStep := NoKick;
      callbacksQueued, writersToRegister, canSendRequested := 0, 0, false;
      accepted, handed, sendFailed := [], [], false;
      rxStored, rxRead, rxReceived, rxDropped := [], [], 0, 0;
    }

    /** bt_spp_reset_rx_locked and bt_spp_reset_tx_locked; the accounts start afresh with them. */
    method ResetRings()
      requires btStep.NoKick?
      modifies this`rxRing, this`txRing, this`rxDroppedBytes, this`overflowLogged, this`txCallbackScheduled,
               this`accepted, this`handed, this`sendFailed, this`rxStored, this`rxRead, this`rxReceived, this`rxDropped
      ensures rxRing == [] && txRing == [] && !txCallbackScheduled && !overflowLogged && !sendFailed
      ensures accepted == [] && handed == [] && rxReceived == 0 && StreamIntact()
    {
      rxRing, rxDroppedBytes, overflowLogged := [], 0, false;
      txRing, txCallbackScheduled := [], false;
      accepted, handed, sendFailed := [], [], false;
      rxStored, rxRead, rxReceived, rxDropped := [], [], 0, 0;
    }

    // ---- Events on the BTstack thread ------------------------------------------------------

    /** A connection is accepted only when no other one is pending or open; a failed accept withdraws it. */
    method IncomingConnection(serverChannel: nat, cid: nat, acceptWorks: bool) returns (accept: bool, declined: bool)
      requires Valid() && btStep.NoKick?
      modifies this`pendingCid
      ensures Valid()
      ensures accept <==> serverChannel == SERVER_CHANNEL && old(pendingCid) == 0 && rfcommCid == 0
      ensures declined <==> serverChannel == SERVER_CHANNEL && !accept
      ensures pendingCid == if accept then (if acceptWorks then cid else 0) else old(pendingCid)
    {
      accept, declined := false, false;
      if serverChannel != SERVER_CHANNEL {
        return;
      }
      if pendingCid == 0 && rfcommCid == 0 {
        pendingCid := cid;
        accept := true;
      }
      if accept {
        if !acceptWorks {
          if pendingCid == cid {
            pendingCid := 0;
          }
        }
      } else {
        declined := true;
      }
    }

    /** A successful open starts both streams afresh; a failed one only forgets its own pending request. */
    method ChannelOpened(success: bool, cid: nat, frameSize: nat)
      requires Valid() && btStep.NoKick?
      modifies this
      ensures Valid() && callbacksQueued == old(callbacksQueued) && writersToRegister == old(writersToRegister)
      ensures btStep.NoKick?
      ensures success ==> txRing == [] && rxRing == [] && !txCallbackScheduled && !canSendRequested && !sendFailed
      ensures success ==> rfcommCid == cid && pendingCid == 0 && accepted == [] && rxReceived == 0 && maxFrameSize == frameSize
      ensures !success ==> txRing == old(txRing) && rxRing == old(rxRing) && maxFrameSize == old(maxFrameSize)
      ensures !success ==> rfcommCid == old(rfcommCid) && accepted == old(accepted) && rxReceived == old(rxReceived)
                           && pendingCid == if old(pendingCid) == cid then 0 else old(pendingCid)
    {
      if success {
        pendingCid := 0;
        rfcommCid := cid;
        maxFrameSize := frameSize;
        ResetRings();
        canSendRequested := false;
      } else if pendingCid == cid {
        pendingCid := 0;
      }
    }

    method ChannelClosed(cid: nat)
      requires Valid() && btStep.NoKick?
      modifies this
      ensures Valid() && callbacksQueued == old(callbacksQueued) && writersToRegister == old(writersToRegister)
      ensures old(rfcommCid) == cid || old(pendingCid) == cid ==> rfcommCid == 0 && pendingCid == 0 && txRing == [] && rxRing == []
      ensures !(old(rfcommCid) == cid || old(pendingCid) == cid) ==>
                rfcommCid == old(rfcommCid) && txRing == old(txRing) && rxRing == old(rxRing) && accepted == old(accepted)
    {
      if rfcommCid == cid || pendingCid == cid {
        pendingCid, rfcommCid, maxFrameSize := 0, 0, 0;
        ResetRings();
        canSendRequested := false;
      }
    }

    /** Received data: a prefix is kept, the rest is counted, and other channels' packets are ignored. */
    method DataPacket(channel: nat, packet: seq<Byte>)
      requires Valid() && btStep.NoKick?
      modifies this`rxRing, this`rxDroppedBytes, this`overflowLogged, this`rxStored, this`rxReceived, this`rxDropped
      ensures Valid()
      ensures var taken := packet != [] && old(rfcommCid) == channel;
              rxReceived == old(rxReceived) + (if taken then |packet| else 0)
              && rxRing == old(rxRing) + (if taken then packet[..PutPrefix(old(rxRing), RX_BUFFER_SIZE, packet)] else [])
    {
      if packet == [] || rfcommCid != channel {
        return;
      }
      StoreReceived(packet);
    }

    /** rt_ringbuffer_put and the overflow count. */
    method StoreReceived(packet: seq<Byte>)
      requires RxIntact()
      modifies this`rxRing, this`rxDroppedBytes, this`overflowLogged, this`rxStored, this`rxReceived, this`rxDropped
      ensures RxIntact() && rxReceived == old(rxReceived) + |packet|
      ensures rxRing == old(rxRing) + packet[..PutPrefix(old(rxRing), RX_BUFFER_SIZE, packet)]
    {
      var storedLen := PutPrefix(rxRing, RX_BUFFER_SIZE, packet);
      assert rxRead + (rxRing + packet[..storedLen]) == (rxRead + rxRing) + packet[..storedLen];
      rxRing := rxRing + packet[..storedLen];
      rxStored, rxReceived := rxStored + packet[..storedLen], rxReceived + |packet|;
      if storedLen < |packet| {
        rxDroppedBytes := (rxDroppedBytes + (|packet| - storedLen)) % WORD;
        rxDropped := rxDropped + (|packet| - storedLen);
        overflowLogged := true;
      }
    }

    /** The locked part of the kick, for a registered callback that the run loop executes. */
    method KickFromCallback(canSendNow: bool)
      requires Valid() && btStep.NoKick? && callbacksQueued > 0
      modifies this`txCallbackScheduled, this`txRing, this`btStep, this`callbacksQueued
      ensures Valid() && callbacksQueued == old(callbacksQueued) - 1
      ensures btStep.MustSend? ==> 1 <= |btStep.frame| <= 1024 && (maxFrameSize != 0 ==> |btStep.frame| <= maxFrameSize)
      ensures btStep.MustSend? ==> txRing == [] || |btStep.frame| == 1024 || |btStep.frame| == maxFrameSize
      ensures btStep.MustSend? ==> btStep.frame + txRing == old(txRing) && (btStep.requestAfter <==> txRing != [])
      ensures btStep.MustSend? <==> rfcommCid != 0 && old(txRing) != [] && canSendNow
      ensures btStep.MustRequest? <==> rfcommCid != 0 && old(txRing) != [] && !canSendNow
      ensures !btStep.MustSend? ==> txRing == old(txRing)
    {
      callbacksQueued := callbacksQueued - 1;
      KickLocked(canSendNow);
    }

    /** The same for the can-send event of the open channel. */
    method KickFromEvent(canSendNow: bool)
      requires Valid() && btStep.NoKick? && canSendRequested
      modifies this`txCallbackScheduled, this`txRing, this`btStep, this`canSendRequested
      ensures Valid() && !canSendRequested
      ensures btStep.MustSend? ==> 1 <= |btStep.frame| <= 1024 && (maxFrameSize != 0 ==> |btStep.frame| <= maxFrameSize)
      ensures btStep.MustSend? ==> txRing == [] || |btStep.frame| == 1024 || |btStep.frame| == maxFrameSize
      ensures btStep.MustSend? ==> btStep.frame + txRing == old(txRing) && (btStep.requestAfter <==> txRing != [])
      ensures btStep.MustSend? <==> rfcommCid != 0 && old(txRing) != [] && canSendNow
      ensures btStep.MustRequest? <==> rfcommCid != 0 && old(txRing) != [] && !canSendNow
      ensures !btStep.MustSend? ==> txRing == old(txRing)
    {
      canSendRequested := false;
      KickLocked(canSendNow);
    }

    /** What a kick takes: the oldest bytes, as many as a frame holds, if the channel can take them now. */
    ghost predicate KickOutcome(canSendNow: bool, ring: seq<Byte>)
      reads this
    {
      if rfcommCid == 0 || ring == [] then btStep.NoKick? && txRing == ring
      else if !canSendNow then btStep.MustRequest? && txRing == ring
      else
        var n := if |ring| < FrameLimit() then |ring| else FrameLimit();
        btStep == MustSend(ring[..n], ring[n..] != []) && txRing == ring[n..]
    }

    method KickLocked(canSendNow: bool)
      requires |txRing| <= TX_BUFFER_SIZE && btStep.NoKick?
      modifies this`txCallbackScheduled, this`txRing, this`btStep
      ensures !txCallbackScheduled && KickOutcome(canSendNow, old(txRing))
      ensures InFlight() + txRing == old(txRing)
    {
      txCallbackScheduled := false;
      var cid, txLen, frameSize := rfcommCid, |txRing|, maxFrameSize;
      if cid == 0 || txLen == 0 {
        return;
      }
      if !canSendNow {
        btStep := MustRequest;
        return;
      }
      if frameSize == 0 || frameSize > MAX_FRAME {
        frameSize := MAX_FRAME;
      }
      if txLen < frameSize {
        frameSize := txLen;
      }
      var frame := txRing[..frameSize];
      txRing := txRing[frameSize..];
      btStep := MustSend(frame, |txRing| != 0);
    }

    /**
      The rest of the kick, outside the mutex. A failed send also drops the follow-up request: then the link
      is awake afterwards exactly if some other wake-up is still on its way.
     */
    method FinishKick(sendWorks: bool)
      requires Valid() && !btStep.NoKick?
      modifies this`btStep, this`handed, this`canSendRequested, this`sendFailed
      ensures Valid() && btStep.NoKick?
      ensures handed == old(handed) + old(InFlight())
      ensures sendFailed == (old(sendFailed) || (old(btStep).MustSend? && !sendWorks))
      ensures Awake() <==> callbacksQueued > 0 || writersToRegister > 0 || old(canSendRequested)
                           || old(btStep).MustRequest? || (sendWorks && old(btStep.requestAfter))
    {
      if btStep.MustRequest? {
        canSendRequested := true;
      } else {
        handed := handed + btStep.frame;
        if !sendWorks {
          sendFailed := true;
        } else if btStep.requestAfter {
          canSendRequested := true;
        }
      }
      btStep := NoKick;
    }

    // ---- Calls from application threads ----------------------------------------------------

    /** The locked part of bt_spp_tx_write: all of the data or none of it. */
    method TxWrite(data: seq<Byte>) returns (written: nat, register: bool)
      requires Valid()
      modifies this`txRing, this`txCallbackScheduled, this`accepted, this`writersToRegister
      ensures Valid()
      ensures written == if data != [] && |data| <= TX_BUFFER_SIZE && rfcommCid != 0 && |old(txRing)| + |data| <= TX_BUFFER_SIZE then |data| else 0
      ensures accepted == old(accepted) + data[..written] && txRing == old(txRing) + data[..written]
      ensures register <==> written > 0 && !old(txCallbackScheduled)
      ensures writersToRegister == old(writersToRegister) + if register then 1 else 0
    {
      written, register := 0, false;
      if data == [] || |data| > TX_BUFFER_SIZE {
        return;
      }
      if rfcommCid == 0 || TX_BUFFER_SIZE - |txRing| < |data| {
        return;
      }
      txRing := txRing + data;
      accepted := accepted + data;
      if !txCallbackScheduled {
        txCallbackScheduled := true;
        register := true;
        writersToRegister := writersToRegister + 1;
      }
      written := |data|;
    }

    /**
      btstack_run_loop_execute_on_main_thread, by a writer that found no callback scheduled. The run loop may merge a
      registration with one that it already holds, since it is the same object.
     */
    method RegisterCallback(merges: bool)
      requires Valid() && writersToRegister > 0
      modifies this`writersToRegister, this`callbacksQueued
      ensures Valid() && writersToRegister == old(writersToRegister) - 1
      ensures callbacksQueued == if merges && old(callbacksQueued) > 0 then old(callbacksQueued) else old(callbacksQueued) + 1
    {
      writersToRegister := writersToRegister - 1;
      if !merges || callbacksQueued == 0 {
        callbacksQueued := callbacksQueued + 1;
      }
    }

    method RxRead(size: nat) returns (buffer: seq<Byte>)
      requires Valid()
      modifies this`rxRing, this`rxRead
      ensures Valid() && |buffer| == if size < |old(rxRing)| then size else |old(rxRing)|
      ensures buffer + rxRing == old(rxRing) && rxRead == old(rxRead) + buffer
    {
      var n := if size > RX_BUFFER_SIZE then RX_BUFFER_SIZE else size;
      if n > |rxRing| {
        n := |rxRing|;
      }
      buffer := rxRing[..n];
      rxRing := rxRing[n..];
      rxRead := rxRead + buffer;
    }

    // ---- Consequences ----------------------------------------------------------------------

    /** The peer sees a prefix of what was accepted, and all of it once ring and kick are empty. */
    lemma HandedIsPrefix()
      requires Valid()
      ensures handed <= accepted
      ensures txRing == [] && btStep.NoKick? ==> handed == accepted
    {
      assert accepted == handed + (InFlight() + txRing);
    }

    /** One pending wake-up taken to its end on a channel that can send. */
    method ServeOneWakeUp()
      requires Valid() && btStep.NoKick? && rfcommCid != 0 && txRing != [] && !sendFailed
      modifies this
      ensures Valid() && btStep.NoKick? && rfcommCid == old(rfcommCid) && !sendFailed && accepted == old(accepted)
      ensures |txRing| < |old(txRing)|
    {
      if writersToRegister > 0 {
        RegisterCallback(true);
      }
      if callbacksQueued > 0 {
        KickFromCallback(true);
      } else {
        KickFromEvent(true);
      }
      FinishKick(true);
    }

    /**
      No lost wake-up: from any reachable state of a connected link without a failed send, the wake-ups that
      are already on their way are enough to hand over everything accepted so far.
     */
    method DrainByPendingWakeUps()
      requires Valid() && rfcommCid != 0 && !sendFailed
      modifies this
      ensures Valid() && txRing == [] && btStep.NoKick? && !sendFailed
      ensures accepted == old(accepted) && handed == old(accepted)
    {
      if !btStep.NoKick? {
        FinishKick(true);
      }
      while txRing != []
        invariant Valid() && btStep.NoKick? && rfcommCid == old(rfcommCid) && !sendFailed && accepted == old(accepted)
        decreases |txRing|
      {
        ServeOneWakeUp();
      }
      HandedIsPrefix();
    }
  }

  /** A fresh link with its channel open and nothing sent yet. */
  method Connected(cid: nat, frameSize: nat) returns (link: SppContext)
    ensures fresh(link) && link.Valid() && link.rfcommCid == cid && link.maxFrameSize == frameSize
    ensures link.btStep.NoKick? && link.accepted == link.txRing == [] && !link.txCallbackScheduled
    ensures link.writersToRegister == link.callbacksQueued == 0 && !link.canSendRequested
  {
    link := new SppContext();
    var accept, declined := link.IncomingConnection(SERVER_CHANNEL, cid, true);
    link.ChannelOpened(true, cid, frameSize);
  }

  /** The only wake-up, spent on a send that fails. */
  method FailOneSend(link: SppContext)
    requires link.Valid() && link.rfcommCid != 0 && link.btStep.NoKick? && link.FrameLimit() < |link.txRing|
    requires link.writersToRegister == 1 && link.callbacksQueued == 0 && !link.canSendRequested
    modifies link
    ensures link.Valid() && link.rfcommCid == old(link.rfcommCid) && link.btStep.NoKick? && link.accepted == old(link.accepted)
    ensures link.txRing == old(link.txRing)[old(link.FrameLimit())..] && !link.Awake()
  {
    link.RegisterCallback(false);
    link.KickFromCallback(true);
    link.FinishKick(false);
  }

  /**
    The input: 20 bytes over a channel with 10-byte frames, whose first send fails. The link ends connected, with
    ten accepted bytes in the ring and nothing on its way to send them.
   */
  method FailedSendStrandsTheRing(data: seq<Byte>) returns (link: SppContext)
    requires |data| == 20
    ensures link.Valid() && link.rfcommCid == 1 && link.btStep.NoKick?
    ensures link.accepted == data && link.txRing == data[10..]
    ensures !link.Awake()
  {
    link := Connected(1, 10);
    var written, register := link.TxWrite(data);
    assert link.txRing == data && link.accepted == data;
    FailOneSend(link);
  }
}
