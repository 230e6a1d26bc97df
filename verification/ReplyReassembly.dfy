/**
  The reply receiver of applications/uart_send_pcm.c (uart_pcm_rx_write): bytes arrive in blocks cut anywhere,
  leave as signed 16-bit little-endian samples attenuated to 1/8, and an odd last byte waits for its partner.
 */
module ReplyReassembly {
  import opened FixedPoint
  import opened Streams

  const RX_BUFFER_BYTES := 1024
  const PCM_BUFFER_SAMPLES := 512

  type Byte = x: int | 0 <= x < 256

  /** (int16_t)(low | high << 8). */
  function Sample16(low: Byte, high: Byte): Sample {
    var word := low + 256 * high;
    if word < 0x8000 then word else word - 0x1_0000
  }

  /** The complete byte pairs of a stream. */
  function Pairs(bytes: seq<Byte>): (samples: seq<Sample>)
    ensures |samples| == |bytes| / 2
  {
    seq(|bytes| / 2, i requires 0 <= i < |bytes| / 2 => Sample16(bytes[2 * i], bytes[2 * i + 1]))
  }

  function OddTail(bytes: seq<Byte>): seq<Byte> { bytes[2 * (|bytes| / 2)..] }

  lemma OddTailIs(bytes: seq<Byte>)
    ensures OddTail(bytes) == if |bytes| % 2 == 0 then [] else [bytes[|bytes| - 1]]
  {
  }

  function Attenuate(sample: Sample): Sample { GainContracts(sample, 4096); assert Int16(sample); Asr15(sample * 4096) }

  function AttenuateAll(samples: seq<Sample>): seq<Sample> {
    seq(|samples|, i requires 0 <= i < |samples| => Attenuate(samples[i]))
  }

  /** An eighth of the sample, rounded down. */
  lemma AttenuatedToAnEighth(sample: Sample)
    ensures 8 * Attenuate(sample) <= sample < 8 * Attenuate(sample) + 8
  {
  }

  /** One received block: the byte carried in, the block, the sample buffer's capacity. */
  function Decode(carried: seq<Byte>, data: seq<Byte>): (r: (seq<Byte>, seq<Sample>))
    requires |carried| <= 1
    ensures |r.0| <= 1
  {
    var bytes := carried + data;
    (OddTail(bytes), Pairs(bytes)[..Min(|bytes| / 2, PCM_BUFFER_SAMPLES)])
  }

  /** The buffer clip loses samples exactly when the carried byte and the block exceed 1025 bytes. */
  lemma ClipIsLossless(carried: seq<Byte>, data: seq<Byte>)
    requires |carried| <= 1
    ensures Decode(carried, data).1 == Pairs(carried + data) <==> |carried| + |data| <= 2 * PCM_BUFFER_SAMPLES + 1
  {
    var n := |carried + data| / 2;
    if n > PCM_BUFFER_SAMPLES {
      assert |Decode(carried, data).1| == PCM_BUFFER_SAMPLES;
    }
  }

  lemma PairsSplit(first: seq<Byte>, second: seq<Byte>)
    ensures Pairs(first + second) == Pairs(first) + Pairs(OddTail(first) + second)
    ensures OddTail(first + second) == OddTail(OddTail(first) + second)
  {
    var half := |first| / 2;
    assert first + second == first[..2 * half] + (OddTail(first) + second);
    assert |first + second| / 2 == half + |OddTail(first) + second| / 2;
  }

  /** The odd tail, the number of pairs and the first pair of a block behind the carried byte. */
  lemma BlockFacts(carried: seq<Byte>, data: seq<Byte>)
    requires |carried| <= 1 && data != []
    ensures var rest := |data| - |carried|;
            && OddTail(carried + data) == (if rest % 2 == 0 then [] else [data[|data| - 1]])
            && |carried + data| / 2 == |carried| + (|data| - rest % 2) / 2
    ensures carried != [] ==> Pairs(carried + data)[0] == Sample16(carried[0], data[0])
  {
    var rest := |data| - |carried|;
    OddTailIs(carried + data);
    assert |carried + data| == 2 * (|carried| + rest / 2) + rest % 2;
    assert |data| - rest % 2 == 2 * (rest / 2) + |carried|;
  }

  lemma Decoded(samples: seq<Sample>, carried: seq<Byte>, data: seq<Byte>)
    requires |carried| <= 1 && |samples| == Min(|carried + data| / 2, PCM_BUFFER_SAMPLES)
    requires forall j :: 0 <= j < |samples| ==> samples[j] == Pairs(carried + data)[j]
    ensures (OddTail(carried + data), samples) == Decode(carried, data)
  {
    assert samples == Pairs(carried + data)[..|samples|];
  }

  function DecodeBlocks(blocks: seq<seq<Byte>>): (r: (seq<Byte>, seq<Sample>))
    ensures |r.0| <= 1
  {
    if blocks == [] then ([], [])
    else
      var (carried, samples) := DecodeBlocks(blocks[..|blocks| - 1]);
      var (tail, more) := Decode(carried, blocks[|blocks| - 1]);
      (tail, samples + more)
  }

  /**
    However the UART chops the stream into reads of at most 1024 bytes, the samples are the little-endian
    pairs of the whole stream and the carried byte is exactly its odd tail.
   */
  lemma {:induction false} ChoppingDoesNotMatter(blocks: seq<seq<Byte>>)
    requires forall i :: 0 <= i < |blocks| ==> |blocks[i]| <= RX_BUFFER_BYTES
    ensures DecodeBlocks(blocks) == (OddTail(Flatten(blocks)), Pairs(Flatten(blocks)))
  {
    if blocks != [] {
      var n := |blocks| - 1;
      ChoppingDoesNotMatter(blocks[..n]);
      ClipIsLossless(OddTail(Flatten(blocks[..n])), blocks[n]);
      PairsSplit(Flatten(blocks[..n]), blocks[n]);
    }
  }

  /** Decoding undoes the sender's little-endian encoding. */
  lemma SampleRoundTrip(sample: Sample)
    ensures var word := if sample < 0 then sample + 0x1_0000 else sample;
            0 <= word % 256 < 256 && 0 <= word / 256 < 256 && Sample16(word % 256, word / 256) == sample
  {
    assert Int16(sample);
  }

  /** A sample as it is sent: 16 bits, low byte first. */
  function LowByte(sample: Sample): Byte { (if sample < 0 then sample + 0x1_0000 else sample) % 256 }

  function HighByte(sample: Sample): Byte {
    assert Int16(sample);
    (if sample < 0 then sample + 0x1_0000 else sample) / 256
  }

  function Encoded(samples: seq<Sample>): (bytes: seq<Byte>)
    ensures |bytes| == 2 * |samples|
  {
    if samples == [] then []
    else Encoded(samples[..|samples| - 1]) + [LowByte(samples[|samples| - 1]), HighByte(samples[|samples| - 1])]
  }

  lemma OnePair(sample: Sample)
    ensures Pairs([LowByte(sample), HighByte(sample)]) == [sample] && OddTail([LowByte(sample), HighByte(sample)]) == []
  {
    SampleRoundTrip(sample);
    var pair := [LowByte(sample), HighByte(sample)];
    assert Pairs(pair)[0] == Sample16(pair[0], pair[1]);
  }

  lemma {:induction false} PairsOfEncoded(samples: seq<Sample>)
    ensures Pairs(Encoded(samples)) == samples && OddTail(Encoded(samples)) == []
  {
    if samples != [] {
      var n := |samples| - 1;
      PairsOfEncoded(samples[..n]);
      AppendPair(Encoded(samples[..n]), samples[..n], samples[n]);
      assert samples == samples[..n] + [samples[n]];
    }
  }

  lemma AppendPair(bytes: seq<Byte>, samples: seq<Sample>, sample: Sample)
    requires Pairs(bytes) == samples && OddTail(bytes) == []
    ensures var more := bytes + [LowByte(sample), HighByte(sample)]; Pairs(more) == samples + [sample] && OddTail(more) == []
  {
    var pair := [LowByte(sample), HighByte(sample)];
    PairsSplit(bytes, pair);
    assert OddTail(bytes) + pair == pair;
    OnePair(sample);
  }

  /** Whatever samples are sent, and however the link cuts their bytes, the same samples are decoded. */
  lemma ReplyRoundTrip(samples: seq<Sample>, blocks: seq<seq<Byte>>)
    requires Flatten(blocks) == Encoded(samples)
    requires forall i :: 0 <= i < |blocks| ==> |blocks[i]| <= RX_BUFFER_BYTES
    ensures DecodeBlocks(blocks) == ([], samples)
  {
    ChoppingDoesNotMatter(blocks);
    PairsOfEncoded(samples);
  }

  class ReplyReceiver {
    const pcmBuffer: array<Sample>
    var pendingValid: bool
    var pendingByte: Byte
    var audioStarted: bool

    ghost predicate Valid()
      reads this
    {
      pcmBuffer.Length == PCM_BUFFER_SAMPLES
    }

    ghost function Carried(): (s: seq<Byte>)
      reads this
      ensures |s| <= 1
    {
      if pendingValid then [pendingByte] else []
    }

    constructor ()
      ensures Valid() && Carried() == [] && !audioStarted && fresh(pcmBuffer)
    {
      pcmBuffer := new Sample[PCM_BUFFER_SAMPLES];
      pendingValid, pendingByte, audioStarted := false, 0, false;
    }

    /** Complete the byte carried over from the last block, if there is one. */
    method TakeCarried(first: Byte) returns (offset: nat)
      requires Valid()
      modifies this`pendingValid, pcmBuffer
      ensures !pendingValid && offset == |old(Carried())|
      ensures offset == 1 ==> pcmBuffer[0] == Sample16(old(pendingByte), first)
    {
      offset := 0;
      if pendingValid {
        pcmBuffer[0] := Sample16(pendingByte, first);
        pendingValid := false;
        offset := 1;
      }
    }

    /** Keep an odd last byte for the next block. */
    method KeepTail(data: seq<Byte>, offset: nat) returns (bytes: nat)
      requires !pendingValid && offset <= |data|
      modifies this`pendingValid, this`pendingByte
      ensures bytes == |data| - (|data| - offset) % 2
      ensures Carried() == if (|data| - offset) % 2 == 0 then [] else [data[|data| - 1]]
    {
      bytes := |data|;
      if (bytes - offset) % 2 != 0 {
        pendingByte := data[bytes - 1];
        pendingValid := true;
        bytes := bytes - 1;
      }
    }

    /** The decoding half of uart_pcm_rx_write, into the sample buffer. */
    method DecodeInto(data: seq<Byte>) returns (frames: nat)
      requires Valid() && data != []
      modifies this`pendingValid, this`pendingByte, pcmBuffer
      ensures Valid() && frames <= PCM_BUFFER_SAMPLES
      ensures (Carried(), pcmBuffer[..frames]) == Decode(old(Carried()), data)
    {
      ghost var carried := Carried();
      frames := TakeCarried(data[0]);
      var bytes := KeepTail(data, frames);
      BlockFacts(carried, data);
      var sampleCount := bytes / 2;
      if sampleCount > PCM_BUFFER_SAMPLES - frames {
        sampleCount := PCM_BUFFER_SAMPLES - frames;
      }
      StorePairs(data, frames, frames, sampleCount, carried);
      frames := frames + sampleCount;
      Decoded(pcmBuffer[..frames], carried, data);
    }

    /** The pair loop: pair k of the stream behind the carried byte starts at data byte 2k - |carried|. */
    method StorePairs(data: seq<Byte>, offset: nat, frames: nat, sampleCount: nat, ghost carried: seq<Byte>)
      requires Valid() && offset == frames == |carried| <= 1 && frames + sampleCount <= PCM_BUFFER_SAMPLES
      requires 2 * (frames + sampleCount) <= |carried + data|
      requires frames == 1 ==> data != [] && pcmBuffer[0] == Pairs(carried + data)[0]
      modifies pcmBuffer
      ensures forall j :: 0 <= j < frames + sampleCount ==> pcmBuffer[j] == Pairs(carried + data)[j]
    {
      ghost var all := carried + data;
      for i := 0 to sampleCount
        invariant forall j :: 0 <= j < frames + i ==> pcmBuffer[j] == Pairs(all)[j]
      {
        var index := offset + i * 2;
        assert data[index] == all[2 * (frames + i)] && data[index + 1] == all[2 * (frames + i) + 1];
        pcmBuffer[frames + i] := Sample16(data[index], data[index + 1]);
      }
    }

    /** The gain loop. */
    method AttenuateBuffer(frames: nat)
      requires frames <= pcmBuffer.Length
      modifies pcmBuffer
      ensures pcmBuffer[..frames] == AttenuateAll(old(pcmBuffer[..frames]))
    {
      for i := 0 to frames
        invariant forall j :: 0 <= j < i ==> pcmBuffer[j] == Attenuate(old(pcmBuffer[j]))
        invariant forall j :: i <= j < frames ==> pcmBuffer[j] == old(pcmBuffer[j])
      {
        pcmBuffer[i] := Attenuate(pcmBuffer[i]);
      }
    }

    /**
      uart_pcm_rx_write: what reaches the mixer's voice source are the decoded samples attenuated to 1/8; they
      are lost when the source cannot be started, but the byte carried over never is.
     */
    method Receive(data: seq<Byte>, voiceStarts: bool) returns (delivered: seq<Sample>)
      requires Valid()
      modifies this, pcmBuffer
      ensures Valid()
      ensures data == [] ==> delivered == [] && Carried() == old(Carried()) && audioStarted == old(audioStarted)
      ensures data != [] ==>
                var (carried, samples) := Decode(old(Carried()), data);
                Carried() == carried
                && audioStarted == (old(audioStarted) || (samples != [] && voiceStarts))
                && delivered == if audioStarted then AttenuateAll(samples) else []
    {
      delivered := [];
      if data == [] {
        return;
      }
      ghost var before := Carried();
      var frames := DecodeInto(data);
      ghost var samples := pcmBuffer[..frames];
      assert Decode(before, data) == (Carried(), samples);
      if frames == 0 {
        return;
      }
      AttenuateBuffer(frames);
      if !audioStarted {
        if !voiceStarts {
          return;
        }
        audioStarted := true;
      }
      delivered := pcmBuffer[..frames];
    }
  }
}
