/**
  The circular frame buffers of applications/audio_mixer.c and the contract they implement:
  a first-in first-out queue that keeps only its newest `capacity` frames.
 */
module FrameRing {

  /** The last `capacity` elements of s, or all of them. */
  function KeepLast<T>(capacity: nat, s: seq<T>): seq<T> {
    if |s| <= capacity then s else s[|s| - capacity..]
  }

  /** Forgetting early is the same as forgetting late. */
  lemma KeepLastConcat<T>(capacity: nat, older: seq<T>, newer: seq<T>)
    ensures KeepLast(capacity, KeepLast(capacity, older) + newer) == KeepLast(capacity, older + newer)
    ensures KeepLast(capacity, older + KeepLast(capacity, newer)) == KeepLast(capacity, older + newer)
  {
    if |older| > capacity {
      var lost := |older| - capacity;
      assert older + newer == older[..lost] + (older[lost..] + newer);
    }
    if |newer| > capacity {
      var lost := |newer| - capacity;
      assert older + newer == (older + newer[..lost]) + newer[lost..];
      assert (older + newer[lost..])[|older|..] == newer[lost..];
    }
  }

  /** What the drop-then-store order of the writer leaves behind. */
  lemma KeepLastParts<T>(capacity: nat, held: seq<T>, newer: seq<T>)
    requires |held| <= capacity
    ensures var stored := KeepLast(capacity, newer);
            var excess := |held| + |stored| - capacity;
            KeepLast(capacity, held + newer) == (if excess > 0 then held[excess..] else held) + stored
  {
  }

  class Ring<T(0)> {
    const capacityFrames: nat
    const buffer: array<T>
    var readFrame: nat
    var writeFrame: nat
    var levelFrames: nat
    var active: bool
    var overflowLogged: bool

    /** The held frames, oldest first. */
    ghost var contents: seq<T>

    ghost predicate Valid()
      reads this, buffer
    {
      && buffer.Length == capacityFrames > 0
      && readFrame < capacityFrames && writeFrame < capacityFrames && levelFrames <= capacityFrames
      && writeFrame == Wrap(readFrame + levelFrames)
      && |contents| == levelFrames
      && forall i :: 0 <= i < levelFrames ==> contents[i] == buffer[Wrap(readFrame + i)]
    }

    function Wrap(index: nat): nat {
      if index < capacityFrames then index else index - capacityFrames
    }

    ghost function Contents(): seq<T>
      reads this
    {
      contents
    }

    constructor (capacity: nat)
      requires capacity > 0
      ensures Valid() && fresh(buffer) && capacityFrames == capacity
      ensures Contents() == [] && !active && !overflowLogged
    {
      capacityFrames := capacity;
      buffer := new T[capacity];
      readFrame, writeFrame, levelFrames, contents := 0, 0, 0, [];
      active, overflowLogged := false, false;
    }

    method Reset()
      requires Valid()
      modifies this
      ensures Valid() && Contents() == [] && !overflowLogged && active == old(active)
    {
      readFrame, writeFrame, levelFrames, contents := 0, 0, 0, [];
      overflowLogged := false;
    }

    method DropOldest(frames: nat)
      requires Valid()
      modifies this`readFrame, this`levelFrames, this`contents
      ensures Valid()
      ensures Contents() == old(Contents())[if frames <= old(levelFrames) then frames else old(levelFrames)..]
    {
      var dropped := if frames > levelFrames then levelFrames else frames;
      WrapIsModulo(readFrame + dropped);
      readFrame := (readFrame + dropped) % capacityFrames;
      levelFrames, contents := levelFrames - dropped, contents[dropped..];
    }

    lemma WrapIsModulo(index: nat)
      requires index < 2 * capacityFrames
      ensures index % capacityFrames == Wrap(index)
    {
      if index >= capacityFrames {
        assert index == capacityFrames * 1 + (index - capacityFrames);
      }
    }

    /** The body of the write loop: store one frame in a slot known to be free. */
    method Push(frame: T)
      requires Valid() && levelFrames < capacityFrames
      modifies this`writeFrame, this`levelFrames, this`contents, buffer
      ensures Valid() && Contents() == old(Contents()) + [frame]
    {
      buffer[writeFrame] := frame;
      writeFrame := writeFrame + 1;
      if writeFrame >= capacityFrames {
        writeFrame := 0;
      }
      levelFrames, contents := levelFrames + 1, contents + [frame];
    }

    /** The read half of the render loop. */
    method Pop() returns (frame: T)
      requires Valid() && levelFrames > 0
      modifies this`readFrame, this`levelFrames, this`contents, this`overflowLogged
      ensures Valid() && !overflowLogged
      ensures frame == old(Contents())[0] && Contents() == old(Contents())[1..]
    {
      frame := buffer[readFrame];
      readFrame := readFrame + 1;
      if readFrame >= capacityFrames {
        readFrame := 0;
      }
      levelFrames, contents := levelFrames - 1, contents[1..];
      overflowLogged := false;
    }

    /** Free enough slots for `frames` more frames by forgetting the oldest ones. */
    method MakeRoom(frames: nat) returns (overflowed: bool)
      requires Valid() && frames <= capacityFrames
      modifies this`readFrame, this`levelFrames, this`contents, this`overflowLogged
      ensures Valid() && levelFrames + frames <= capacityFrames
      ensures var excess := old(levelFrames) + frames - capacityFrames;
              Contents() == if excess > 0 then old(Contents())[excess..] else old(Contents())
      ensures overflowed <==> old(levelFrames) + frames > capacityFrames && !old(overflowLogged)
      ensures overflowLogged <==> old(overflowLogged) || overflowed
    {
      overflowed := false;
      if capacityFrames - levelFrames < frames {
        DropOldest(frames - (capacityFrames - levelFrames));
        if !overflowLogged {
          overflowLogged := true;
          overflowed := true;
        }
      }
    }

    /** The write loop, into slots known to be free. */
    method StoreFrom(frames: seq<T>, startFrame: nat) returns (written: nat)
      requires Valid() && startFrame <= |frames| && levelFrames + |frames| - startFrame <= capacityFrames
      modifies this`writeFrame, this`levelFrames, this`contents, buffer
      ensures Valid() && Contents() == old(Contents()) + frames[startFrame..]
      ensures written == |frames| - startFrame
    {
      ghost var kept := Contents();
      written := 0;
      var frameIndex := startFrame;
      while frameIndex < |frames|
        invariant startFrame <= frameIndex <= |frames| && written == frameIndex - startFrame
        invariant Valid() && levelFrames == |kept| + written
        invariant Contents() == kept + frames[startFrame..frameIndex]
      {
        ghost var soFar := frames[startFrame..frameIndex];
        Push(frames[frameIndex]);
        assert soFar + [frames[frameIndex]] == frames[startFrame..frameIndex + 1];
        written := written + 1;
        frameIndex := frameIndex + 1;
      }
      assert frames[startFrame..frameIndex] == frames[startFrame..];
    }

    /** The ring part of audio_mixer_write: make room for the newest `capacity` frames, then store them. */
    method WriteNewest(frames: seq<T>) returns (written: nat, overflowed: bool)
      requires Valid()
      modifies this`readFrame, this`writeFrame, this`levelFrames, this`contents, this`overflowLogged, buffer
      ensures Valid()
      ensures Contents() == KeepLast(capacityFrames, old(Contents()) + frames)
      ensures written == if |frames| <= capacityFrames then |frames| else capacityFrames
      ensures overflowed <==> old(levelFrames) + written > capacityFrames && !old(overflowLogged)
      ensures overflowLogged <==> old(overflowLogged) || overflowed
    {
      KeepLastParts(capacityFrames, Contents(), frames);
      var startFrame, framesToWrite := 0, |frames|;
      if framesToWrite > capacityFrames {
        startFrame := framesToWrite - capacityFrames;
        framesToWrite := capacityFrames;
      }
      overflowed := MakeRoom(framesToWrite);
      written := StoreFrom(frames, startFrame);
    }
  }

  // ---- Whole runs --------------------------------------------------------------------------

  datatype Op<T> = Offer(frames: seq<T>) | Take

  /** A run of the queue, remembering every frame ever offered and where each delivered frame came from. */
  datatype Trace<T> = Trace(offered: seq<T>, held: seq<T>, gone: nat, delivered: seq<T>, positions: seq<nat>)

  function Step<T>(capacity: nat, t: Trace<T>, op: Op<T>): Trace<T>
    requires t.gone + |t.held| == |t.offered|
  {
    match op
    case Offer(frames) =>
      var held := KeepLast(capacity, t.held + frames);
      t.(offered := t.offered + frames, held := held, gone := |t.offered| + |frames| - |held|)
    case Take =>
      if t.held == [] then t
      else t.(held := t.held[1..], gone := t.gone + 1,
              delivered := t.delivered + [t.held[0]], positions := t.positions + [t.gone])
  }

  function Run<T>(capacity: nat, ops: seq<Op<T>>): (t: Trace<T>)
    ensures t.gone + |t.held| == |t.offered|
  {
    if ops == [] then Trace([], [], 0, [], [])
    else Step(capacity, Run(capacity, ops[..|ops| - 1]), ops[|ops| - 1])
  }

  ghost predicate InOrder<T>(t: Trace<T>)
    requires t.gone + |t.held| == |t.offered|
  {
    && t.held == t.offered[t.gone..]
    && |t.positions| == |t.delivered|
    && (forall i :: 0 <= i < |t.positions| ==> t.positions[i] < t.gone && t.delivered[i] == t.offered[t.positions[i]])
    && (forall i, j :: 0 <= i < j < |t.positions| ==> t.positions[i] < t.positions[j])
  }

  lemma OfferKeepsOrder<T>(capacity: nat, t: Trace<T>, frames: seq<T>)
    requires t.gone + |t.held| == |t.offered| && InOrder(t)
    ensures InOrder(Step(capacity, t, Offer(frames)))
  {
    var all := t.offered + frames;
    assert t.held + frames == all[t.gone..];
    forall i | 0 <= i < |t.positions| ensures all[t.positions[i]] == t.offered[t.positions[i]] { }
  }

  lemma TakeKeepsOrder<T>(capacity: nat, t: Trace<T>)
    requires t.gone + |t.held| == |t.offered| && InOrder(t)
    ensures InOrder(Step(capacity, t, Take))
  {
  }

  /**
    After any history the queue holds exactly the newest part of everything offered, within its capacity,
    and what it delivered is a subsequence of the offers in their original order: nothing is repeated,
    reordered or invented.
   */
  lemma {:induction false} RunDeliversInOrder<T>(capacity: nat, ops: seq<Op<T>>)
    ensures InOrder(Run(capacity, ops)) && |Run(capacity, ops).held| <= capacity
  {
    if ops != [] {
      var before := Run(capacity, ops[..|ops| - 1]);
      RunDeliversInOrder(capacity, ops[..|ops| - 1]);
      match ops[|ops| - 1]
      case Offer(frames) => OfferKeepsOrder(capacity, before, frames);
      case Take => TakeKeepsOrder(capacity, before);
    }
  }

  /** With offers only, the queue is the last `capacity` frames of the concatenated offers. */
  lemma {:induction false} OffersOnly<T>(capacity: nat, ops: seq<Op<T>>)
    requires forall i :: 0 <= i < |ops| ==> ops[i].Offer?
    ensures Run(capacity, ops).held == KeepLast(capacity, Run(capacity, ops).offered)
    ensures Run(capacity, ops).delivered == []
  {
    if ops != [] {
      var n := |ops| - 1;
      OffersOnly(capacity, ops[..n]);
      KeepLastConcat(capacity, Run(capacity, ops[..n]).offered, ops[n].frames);
    }
  }
}
