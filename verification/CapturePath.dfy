/**
  The capture side of applications/es8311_audio.c: the receive interrupt picks one of the two I2S slots,
  stores it in a bounded ring that drops the newest samples when full, and readers drain it. On top of it,
  the hands-free microphone reader of applications/bt_hfp_hf_app.c.
 */
module CapturePath {
  import opened FixedPoint
  import opened FrameRing
  import opened MixSpec

  const CAPTURE_BUFFER_SAMPLES := 2048
  const WORD := 0x1_0000_0000

  // ---- Slot choice -------------------------------------------------------------------------

  function InSlot(frame: Stereo, slot: nat): Sample { if slot == 0 then frame.left else frame.right }

  predicate Clipped(sample: Sample) { sample == -0x8000 || sample == 0x7FFF }

  predicate Silent(sample: Sample) { sample == 0 }

  datatype SlotStats = SlotStats(min: int, max: int, saturated: nat, zero: nat)

  function Count(source: seq<Stereo>, slot: nat, p: Sample -> bool): (n: nat)
    ensures n <= |source|
  {
    if source == [] then 0
    else
      var n := |source| - 1;
      Count(source[..n], slot, p) + (if p(InSlot(source[n], slot)) then 1 else 0)
  }

  lemma {:induction false} CountIsAll(source: seq<Stereo>, slot: nat, p: Sample -> bool)
    ensures Count(source, slot, p) == |source| <==> forall i :: 0 <= i < |source| ==> p(InSlot(source[i], slot))
  {
    if source != [] {
      var n := |source| - 1;
      CountIsAll(source[..n], slot, p);
      assert source == source[..n] + [source[n]];
    }
  }

  lemma CountNext(source: seq<Stereo>, n: nat, slot: nat, p: Sample -> bool)
    requires n < |source|
    ensures Count(source[..n + 1], slot, p) == Count(source[..n], slot, p) + (if p(InSlot(source[n], slot)) then 1 else 0)
  {
    assert source[..n + 1][..n] == source[..n];
  }

  method CollectSlotStats(source: seq<Stereo>, slot: nat) returns (stats: SlotStats, ghost minAt: nat, ghost maxAt: nat)
    ensures stats.saturated == Count(source, slot, Clipped)
    ensures stats.zero == Count(source, slot, Silent)
    ensures forall i :: 0 <= i < |source| ==> stats.min <= InSlot(source[i], slot) <= stats.max
    ensures if source == [] then stats.min == 0x7FFF && stats.max == -0x8000
            else minAt < |source| && maxAt < |source|
                 && InSlot(source[minAt], slot) == stats.min && InSlot(source[maxAt], slot) == stats.max
  {
    stats := SlotStats(0x7FFF, -0x8000, 0, 0);
    minAt, maxAt := 0, 0;
    for i := 0 to |source|
      invariant stats.saturated == Count(source[..i], slot, Clipped)
      invariant stats.zero == Count(source[..i], slot, Silent)
      invariant forall j :: 0 <= j < i ==> stats.min <= InSlot(source[j], slot) <= stats.max
      invariant if i == 0 then stats.min == 0x7FFF && stats.max == -0x8000
                else minAt < i && maxAt < i && InSlot(source[minAt], slot) == stats.min && InSlot(source[maxAt], slot) == stats.max
    {
      var sample := InSlot(source[i], slot);
      assert Int16(sample);
      CountNext(source, i, slot, Clipped);
      CountNext(source, i, slot, Silent);
      minAt, maxAt := if i == 0 || sample < stats.min then i else minAt, if i == 0 || sample > stats.max then i else maxAt;
      stats := SlotStats(Min(sample, stats.min), Max(sample, stats.max),
                         if Clipped(sample) then stats.saturated + 1 else stats.saturated,
                         if sample == 0 then stats.zero + 1 else stats.zero);
    }
    assert source[..|source|] == source;
  }

  function PickCaptureSlot(left: SlotStats, right: SlotStats, frames: nat): (slot: nat)
    ensures slot <= 1
  {
    if left.saturated == frames && right.saturated < frames then 1
    else if right.saturated == frames && left.saturated < frames then 0
    else if left.zero == frames && right.zero < frames then 1
    else if right.zero == frames && left.zero < frames then 0
    else 0
  }

  /** The slot a half decides for. The minimum and maximum play no part. */
  ghost function PickedSlot(source: seq<Stereo>): nat {
    PickCaptureSlot(SlotStats(0, 0, Count(source, 0, Clipped), Count(source, 0, Silent)),
                    SlotStats(0, 0, Count(source, 1, Clipped), Count(source, 1, Silent)), |source|)
  }

  /** A slot carries audio when it is neither stuck at the rails nor silent over the whole half. */
  ghost predicate Live(source: seq<Stereo>, slot: nat) {
    && (exists i :: 0 <= i < |source| && !Clipped(InSlot(source[i], slot)))
    && (exists i :: 0 <= i < |source| && InSlot(source[i], slot) != 0)
  }

  lemma LiveByCounts(source: seq<Stereo>, slot: nat)
    ensures Live(source, slot) <==> Count(source, slot, Clipped) < |source| && Count(source, slot, Silent) < |source|
  {
    CountIsAll(source, slot, Clipped);
    CountIsAll(source, slot, Silent);
  }

  /** Whenever one of the slots carries audio, the chosen one does. */
  lemma PickedSlotIsLive(source: seq<Stereo>, left: SlotStats, right: SlotStats)
    requires left.saturated == Count(source, 0, Clipped) && left.zero == Count(source, 0, Silent)
    requires right.saturated == Count(source, 1, Clipped) && right.zero == Count(source, 1, Silent)
    requires Live(source, 0) || Live(source, 1)
    ensures Live(source, PickCaptureSlot(left, right, |source|))
  {
    LiveByCounts(source, 0);
    LiveByCounts(source, 1);
  }

  /** Every sample of a slot over the half. */
  ghost predicate AllClipped(source: seq<Stereo>, slot: nat) {
    forall i :: 0 <= i < |source| ==> Clipped(InSlot(source[i], slot))
  }

  ghost predicate AllSilent(source: seq<Stereo>, slot: nat) {
    forall i :: 0 <= i < |source| ==> InSlot(source[i], slot) == 0
  }

  /** The right slot exactly if the left one alone is stuck at the rails, or, unless the right one alone is, alone silent. */
  lemma RightSlotExactly(source: seq<Stereo>)
    ensures PickedSlot(source) == 1 <==>
              (AllClipped(source, 0) && !AllClipped(source, 1))
              || (AllSilent(source, 0) && !AllSilent(source, 1) && !(AllClipped(source, 1) && !AllClipped(source, 0)))
  {
    CountIsAll(source, 0, Clipped);
    CountIsAll(source, 1, Clipped);
    CountIsAll(source, 0, Silent);
    CountIsAll(source, 1, Silent);
  }

  /** The left slot whenever it carries audio, the right one when it alone does. */
  lemma LeftSlotComesFirst(source: seq<Stereo>)
    ensures Live(source, 0) ==> PickedSlot(source) == 0
    ensures !Live(source, 0) && Live(source, 1) ==> PickedSlot(source) == 1
  {
    LiveByCounts(source, 0);
    LiveByCounts(source, 1);
  }

  /** Slot 0 is the left sample of a frame and slot 1 the right one; a sample at either rail is clipped. */
  lemma SlotsAndRails(source: seq<Stereo>, i: nat)
    requires i < |source|
    ensures InOneSlot(source, 0)[i] == source[i].left && InOneSlot(source, 1)[i] == source[i].right
    ensures Clipped(source[i].left) <==> source[i].left == -32768 || source[i].left == 32767
  {
  }

  // ---- The ring ----------------------------------------------------------------------------

  function InOneSlot(frames: seq<Stereo>, slot: nat): seq<Sample> {
    seq(|frames|, i requires 0 <= i < |frames| => InSlot(frames[i], slot))
  }

  lemma InOneSlotNext(source: seq<Stereo>, n: nat, slot: nat)
    requires n < |source|
    ensures InOneSlot(source[..n + 1], slot) == InOneSlot(source[..n], slot) + [InSlot(source[n], slot)]
  {
  }

  /** What has been handed out is determined by what is still held. */
  lemma SplitAt<T>(before: seq<T>, held: seq<T>, after: seq<T>, taken: nat)
    requires taken <= |held| && after + held[taken..] == before + held
    ensures after == before + held[..taken]
  {
    assert |after| == |before| + taken;
    assert after == (after + held[taken..])[..|after|];
  }

  method ZeroFill(pcm: array<Sample>, from: nat, to: nat)
    requires from <= to <= pcm.Length
    modifies pcm
    ensures forall k :: 0 <= k < pcm.Length ==> pcm[k] == if from <= k < to then 0 else old(pcm[k])
  {
    for k := from to to
      invariant forall j :: 0 <= j < pcm.Length ==> pcm[j] == if from <= j < k then 0 else old(pcm[j])
    {
      pcm[k] := 0;
    }
  }

  class Capture {
    const ring: Ring<Sample>
    var dropFrames: nat
    var running: bool
    var slot: nat
    var slotLocked: bool

    /** Since the last flush: the samples stored, the samples handed out, the frames not stored. */
    ghost var accepted: seq<Sample>
    ghost var delivered: seq<Sample>
    ghost var dropped: nat

    ghost predicate Valid()
      reads this, ring, ring.buffer
    {
      && ring.Valid() && ring.capacityFrames == CAPTURE_BUFFER_SAMPLES
      && slot <= 1 && (accepted != [] ==> slotLocked)
      && delivered + ring.Contents() == accepted
      && dropFrames == dropped % WORD
    }

    /** Every frame offered since the last flush is in exactly one of these three places. */
    ghost function Offered(): nat
      reads this, ring, ring.buffer
      requires Valid()
    {
      |delivered| + ring.levelFrames + dropped
    }

    constructor ()
      ensures Valid() && !running && Offered() == 0 && fresh(ring) && fresh(ring.buffer)
    {
      ring := new Ring<Sample>(CAPTURE_BUFFER_SAMPLES);
      dropFrames, slot, running, slotLocked := 0, 0, false, false;
      accepted, delivered, dropped := [], [], 0;
    }

    /** A flush starts the accounts afresh and lets the slot be chosen again. */
    method Flush()
      requires Valid()
      modifies this, ring
      ensures Valid() && Offered() == 0 && !slotLocked && dropFrames == 0 && running == old(running)
    {
      ring.Reset();
      dropFrames, slot, slotLocked := 0, 0, false;
      accepted, delivered, dropped := [], [], 0;
    }

    method CountDropped(frames: nat)
      requires Valid()
      modifies this`dropFrames, this`dropped
      ensures Valid() && dropped == old(dropped) + frames
    {
      dropFrames := (dropFrames + frames) % WORD;
      dropped := dropped + frames;
    }

    method StoreSample(frame: Stereo)
      requires Valid() && slotLocked && ring.levelFrames < CAPTURE_BUFFER_SAMPLES
      modifies this`accepted, ring`writeFrame, ring`levelFrames, ring`contents, ring.buffer
      ensures Valid() && accepted == old(accepted) + [InSlot(frame, slot)] && ring.levelFrames == old(ring.levelFrames) + 1
    {
      ghost var held := ring.Contents();
      ring.Push(InSlot(frame, slot));
      accepted := accepted + [InSlot(frame, slot)];
      assert delivered + (held + [InSlot(frame, slot)]) == (delivered + held) + [InSlot(frame, slot)];
    }

    method StoreFrames(source: seq<Stereo>)
      requires Valid() && slotLocked
      modifies this`accepted, this`dropFrames, this`dropped, ring`writeFrame, ring`levelFrames, ring`contents, ring.buffer
      ensures Valid()
      ensures var fitting := Min(|source|, CAPTURE_BUFFER_SAMPLES - old(ring.levelFrames));
              accepted == old(accepted) + InOneSlot(source[..fitting], slot) && dropped == old(dropped) + |source| - fitting
              && ring.levelFrames == old(ring.levelFrames) + fitting
    {
      for frameIndex := 0 to |source|
        invariant Valid() && slotLocked && ring.levelFrames == old(ring.levelFrames) + frameIndex
        invariant accepted == old(accepted) + InOneSlot(source[..frameIndex], slot) && dropped == old(dropped)
      {
        if CAPTURE_BUFFER_SAMPLES - ring.levelFrames < 1 {
          CountDropped(|source| - frameIndex);
          return;
        }
        InOneSlotNext(source, frameIndex, slot);
        StoreSample(source[frameIndex]);
      }
    }

    /** Choose and lock the slot, unless both are stuck at the rails. */
    method LockSlot(source: seq<Stereo>) returns (locked: bool)
      requires Valid() && !slotLocked && source != []
      modifies this`slot, this`slotLocked
      ensures Valid() && slotLocked == locked && slot == PickedSlot(source)
      ensures Live(source, 0) || Live(source, 1) ==> locked && Live(source, slot)
      ensures locked <==> exists i :: 0 <= i < |source| && (!Clipped(source[i].left) || !Clipped(source[i].right))
    {
      var left, _, _ := CollectSlotStats(source, 0);
      var right, _, _ := CollectSlotStats(source, 1);
      CountIsAll(source, 0, Clipped);
      CountIsAll(source, 1, Clipped);
      if Live(source, 0) || Live(source, 1) { PickedSlotIsLive(source, left, right); }
      slot := PickCaptureSlot(left, right, |source|);
      locked := !(left.saturated == |source| && right.saturated == |source|);
      slotLocked := locked;
    }

    /**
      es8311_audio_write_capture_mono: every offered frame is either stored in order, from the one slot locked
      since the flush, or counted as dropped. A half is dropped whole while both slots are stuck at the rails,
      and from the first frame that does not fit otherwise.
     */
    method WriteCaptureMono(source: seq<Stereo>)
      requires Valid() && source != []
      modifies this, ring`writeFrame, ring`levelFrames, ring`contents, ring.buffer
      ensures Valid() && running == old(running) && delivered == old(delivered)
      ensures Offered() == old(Offered()) + if running then |source| else 0
      ensures accepted == old(accepted) + (if running && slotLocked
                then InOneSlot(source[..Min(|source|, CAPTURE_BUFFER_SAMPLES - old(ring.levelFrames))], slot) else [])
      ensures old(slotLocked) ==> slotLocked && slot == old(slot)
      ensures running && !old(slotLocked) ==> slot == PickedSlot(source)
      ensures running && !old(slotLocked) && (Live(source, 0) || Live(source, 1)) ==> slotLocked && Live(source, slot)
    {
      if !running {
        return;
      }
      if !slotLocked {
        var locked := LockSlot(source);
        if !locked {
          CountDropped(|source|);
          return;
        }
      }
      StoreFrames(source);
    }

    method TakeSample() returns (sample: Sample)
      requires Valid() && ring.levelFrames > 0
      modifies this`delivered, ring`readFrame, ring`levelFrames, ring`contents, ring`overflowLogged
      ensures Valid() && sample == old(ring.Contents())[0] && ring.Contents() == old(ring.Contents())[1..]
      ensures delivered == old(delivered) + [sample]
    {
      ghost var held := ring.Contents();
      sample := ring.Pop();
      delivered := delivered + [sample];
      assert (old(delivered) + [held[0]]) + held[1..] == old(delivered) + held;
    }

    method ReadLoop(pcm: array<Sample>, maxFrames: nat) returns (readFrames: nat)
      requires Valid() && pcm != ring.buffer && maxFrames <= pcm.Length
      modifies this`delivered, ring`readFrame, ring`levelFrames, ring`contents, ring`overflowLogged, pcm
      ensures Valid() && readFrames == Min(maxFrames, old(ring.levelFrames))
      ensures ring.Contents() == old(ring.Contents())[readFrames..]
      ensures forall k :: 0 <= k < readFrames ==> pcm[k] == old(ring.Contents())[k]
      ensures forall k :: readFrames <= k < pcm.Length ==> pcm[k] == old(pcm[k])
    {
      readFrames := 0;
      ghost var held := ring.Contents();
      while readFrames < maxFrames && ring.levelFrames >= 1
        invariant Valid() && readFrames <= maxFrames && readFrames <= |held| && ring.Contents() == held[readFrames..]
        invariant forall k :: 0 <= k < readFrames ==> pcm[k] == held[k]
        invariant forall k :: readFrames <= k < pcm.Length ==> pcm[k] == old(pcm[k])
      {
        TakeInto(pcm, readFrames);
        readFrames := readFrames + 1;
      }
    }

    method TakeInto(pcm: array<Sample>, at: nat)
      requires Valid() && pcm != ring.buffer && at < pcm.Length && ring.levelFrames > 0
      modifies this`delivered, ring`readFrame, ring`levelFrames, ring`contents, ring`overflowLogged, pcm
      ensures Valid() && ring.Contents() == old(ring.Contents())[1..]
      ensures pcm[at] == old(ring.Contents())[0] && forall k :: 0 <= k < pcm.Length && k != at ==> pcm[k] == old(pcm[k])
    {
      var sample := TakeSample();
      pcm[at] := sample;
    }

    /** es8311_audio_read_capture: the oldest held samples, in order, as many as fit. */
    method ReadCapture(pcm: array?<Sample>, maxFrames: nat) returns (readFrames: nat)
      requires Valid() && (pcm != null ==> pcm != ring.buffer && maxFrames <= pcm.Length)
      modifies this`delivered, ring`readFrame, ring`levelFrames, ring`contents, ring`overflowLogged, pcm
      ensures Valid()
      ensures readFrames == if pcm == null then 0 else Min(maxFrames, old(ring.levelFrames))
      ensures ring.Contents() == old(ring.Contents())[readFrames..]
      ensures delivered == old(delivered) + old(ring.Contents())[..readFrames]
      ensures pcm != null ==> forall k :: 0 <= k < readFrames ==> pcm[k] == old(ring.Contents())[k]
      ensures pcm != null ==> forall k :: readFrames <= k < pcm.Length ==> pcm[k] == old(pcm[k])
    {
      if pcm == null || maxFrames == 0 {
        return 0;
      }
      readFrames := ReadLoop(pcm, maxFrames);
      SplitAt(old(delivered), old(ring.Contents()), delivered, readFrames);
    }

    /** The receive interrupt, which may come between any two locked sections of a reader. */
    method MayCapture()
      requires Valid()
      modifies this, ring`writeFrame, ring`levelFrames, ring`contents, ring.buffer
      ensures Valid() && delivered == old(delivered) && ring.levelFrames >= old(ring.levelFrames)
      ensures |accepted| - |old(accepted)| == ring.levelFrames - old(ring.levelFrames)
    {
      var source: seq<Stereo> := *;
      if source != [] {
        WriteCaptureMono(source);
      }
    }

    /**
      bt_hfp_hf_read_mic_pcm: skip the oldest samples beyond two packets, as counted on entry, then read one packet,
      zero-filled at the end if short. With captures coming at any point, what is returned are the next samples of
      the stream after the skipped ones, and beside newcomers at most one packet stays behind.
     */
    method ReadMicPcm(pcm: array<Sample>, samples: nat) returns (ghost stale: nat, ghost got: nat)
      requires Valid() && pcm != ring.buffer && 0 < samples <= pcm.Length
      modifies this, ring`readFrame, ring`writeFrame, ring`levelFrames, ring`contents, ring`overflowLogged, ring.buffer, pcm
      ensures Valid()
      ensures stale == Max(0, old(ring.levelFrames) - 2 * samples)
      ensures Min(samples, old(ring.levelFrames) - stale) <= got <= samples && (got < samples ==> ring.levelFrames == 0)
      ensures |delivered| == |old(delivered)| + stale + got && old(delivered) <= delivered
      ensures forall k :: 0 <= k < got ==> pcm[k] == delivered[|old(delivered)| + stale + k]
      ensures forall k :: got <= k < samples ==> pcm[k] == 0
      ensures ring.levelFrames <= samples + (|accepted| - |old(accepted)|)
      ensures forall k :: samples <= k < pcm.Length ==> pcm[k] == old(pcm[k])
    {
      stale := Max(0, ring.levelFrames - 2 * samples);
      DropStale(2 * samples);
      MayCapture();
      ghost var skipped, rest := delivered, ring.Contents();
      var read := ReadCapture(pcm, samples);
      got := read;
      ZeroFill(pcm, read, samples);
      assert delivered == skipped + rest[..got];
    }

    /** The stale-drop loop: at most 32 samples at a time, as many in all as were too many on entry. */
    method DropStale(keep: nat)
      requires Valid()
      modifies this, ring`readFrame, ring`writeFrame, ring`levelFrames, ring`contents, ring`overflowLogged, ring.buffer
      ensures Valid() && old(delivered) <= delivered
      ensures |delivered| == |old(delivered)| + Max(0, old(ring.levelFrames) - keep)
      ensures |accepted| - |old(accepted)| >= 0
    {
      var level := ring.levelFrames;
      var discard := new Sample[32];
      while level > keep
        invariant Valid() && level <= ring.levelFrames && (level == old(ring.levelFrames) || level >= keep)
        invariant old(delivered) <= delivered && |delivered| + level == |old(delivered)| + old(ring.levelFrames)
        invariant |accepted| >= |old(accepted)| && level <= old(ring.levelFrames)
      {
        MayCapture();
        var drop := level - keep;
        if drop > 32 {
          drop := 32;
        }
        var got := ReadCapture(discard, drop);
        if got == 0 {
          break;
        }
        level := level - got;
      }
    }
  }

  ghost predicate Expanded(pcm: seq<Sample>, mono: seq<Sample>, from: nat) {
    2 * |mono| <= |pcm| && forall i :: from <= i < |mono| ==> pcm[2 * i] == pcm[2 * i + 1] == mono[i]
  }

  lemma ExpandOne(pcm: seq<Sample>, mono: seq<Sample>, index: nat)
    requires index < |mono| && Expanded(pcm, mono, index + 1) && pcm[..index + 1] == mono[..index + 1]
    ensures var after := pcm[2 * index := mono[index]][2 * index + 1 := mono[index]];
            Expanded(after, mono, index) && after[..index] == mono[..index] && after[2 * |mono|..] == pcm[2 * |mono|..]
  {
  }

  /**
    bt_hfp_hf_render_stereo expands the mono samples it has read in place, from the end, so that no sample is
    overwritten before it has been copied to both channels.
   */
  method ExpandMonoInPlace(pcm: array<Sample>, readFrames: nat)
    requires 2 * readFrames <= pcm.Length
    modifies pcm
    ensures forall i :: 0 <= i < readFrames ==> pcm[2 * i] == pcm[2 * i + 1] == old(pcm[i])
    ensures forall k :: 2 * readFrames <= k < pcm.Length ==> pcm[k] == old(pcm[k])
  {
    ghost var mono := pcm[..readFrames];
    var index := readFrames;
    while index > 0
      invariant index <= readFrames && pcm[..index] == mono[..index] && Expanded(pcm[..], mono, index)
      invariant pcm[2 * readFrames..] == old(pcm[2 * readFrames..])
    {
      ghost var before := pcm[..];
      index := index - 1;
      var sample := pcm[index];
      pcm[index * 2] := sample;
      pcm[index * 2 + 1] := sample;
      assert pcm[..] == before[2 * index := sample][2 * index + 1 := sample];
      ExpandOne(before, mono, index);
    }
    assert forall k :: 2 * readFrames <= k < pcm.Length ==> pcm[k] == pcm[2 * readFrames..][k - 2 * readFrames];
  }
}
