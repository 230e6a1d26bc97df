/**
  The packet check of fontlib/font_send.py: CRC-16 with the polynomial 0x1021, bit by bit, appended to every
  packet with its high byte first.
 */
module Crc16 {
  import opened Crc32
  import opened Streams

  function Bit(crc: bv16): bv16 { if crc & 0x8000 != 0 then (crc << 1) ^ 0x1021 else crc << 1 }

  function Entered(crc: bv16, b: Byte): bv16 { crc ^ ((b as bv16) << 8) }

  function ByteStep(crc: bv16, b: Byte): bv16 { Iterated(Bit, Entered(crc, b), BITS) }

  function Xmodem(data: seq<Byte>): bv16 { Fold(ByteStep, 0, data) }

  /** The two CRC bytes as they are sent. */
  function Trailer(crc: bv16): seq<Byte> { [(crc >> 8) as bv8, (crc & 0xFF) as bv8] }

  /** crc16_xmodem. */
  method Crc16Xmodem(data: seq<Byte>) returns (crc: bv16)
    ensures crc == Xmodem(data)
  {
    crc := 0;
    for i := 0 to |data|
      invariant crc == Xmodem(data[..i])
    {
      assert data[..i + 1][..i] == data[..i];
      crc := crc ^ ((data[i] as bv16) << 8);
      crc := ShiftEight(crc);
    }
    assert data[..|data|] == data;
  }

  /** Its inner loop. */
  method ShiftEight(entered: bv16) returns (crc: bv16)
    ensures crc == Iterated(Bit, entered, BITS)
  {
    crc := entered;
    for bit := 0 to BITS
      invariant crc == Iterated(Bit, entered, bit)
    {
      crc := ShiftOne(crc);
    }
  }

  method ShiftOne(crc: bv16) returns (shifted: bv16)
    ensures shifted == Bit(crc)
  {
    if crc & 0x8000 != 0 {
      shifted := (crc << 1) ^ 0x1021;
    } else {
      shifted := crc << 1;
    }
  }

  // ---- A packet followed by its CRC --------------------------------------------------------

  /** With the high byte clear, eight bit steps only shift. */
  lemma LowByteShifts(f: bv16 -> bv16, low: bv16)
    requires forall u :: u & 0x8000 == 0 ==> f(u) == u << 1
    requires low & 0xFF00 == 0
    ensures Iterated(f, low, 8) == low << 8
  {
    ShiftFacts(low);
    EightSteps(f, low, low << 1, low << 2, low << 3, low << 4, low << 5, low << 6, low << 7, low << 8);
  }

  lemma ShiftFacts(low: bv16)
    requires low & 0xFF00 == 0
    ensures low & 0x8000 == (low << 1) & 0x8000 == (low << 2) & 0x8000 == (low << 3) & 0x8000 == 0
    ensures (low << 4) & 0x8000 == (low << 5) & 0x8000 == (low << 6) & 0x8000 == (low << 7) & 0x8000 == 0
    ensures (low << 1) << 1 == low << 2 && (low << 2) << 1 == low << 3 && (low << 3) << 1 == low << 4 && (low << 4) << 1 == low << 5
    ensures (low << 5) << 1 == low << 6 && (low << 6) << 1 == low << 7 && (low << 7) << 1 == low << 8
  {
  }

  lemma TrailerCancels(crc: bv16)
    ensures Entered(crc, (crc >> 8) as bv8) == crc & 0xFF
    ensures Entered((crc & 0xFF) << 8, (crc & 0xFF) as bv8) == 0
    ensures (crc & 0xFF) & 0xFF00 == 0
  {
  }

  lemma HighThenLow(crc: bv16)
    ensures ByteStep(ByteStep(crc, (crc >> 8) as bv8), (crc & 0xFF) as bv8) == 0
  {
    TrailerCancels(crc);
    Shifted(crc & 0xFF);
    Shifted(0);
  }

  lemma Shifted(low: bv16)
    requires low & 0xFF00 == 0
    ensures Iterated(Bit, low, BITS) == low << 8
  {
    LowByteShifts(Bit, low);
  }

  /** The receiver's check: the CRC over a packet and its own trailer is zero. */
  lemma TrailerLeavesZero(data: seq<Byte>)
    ensures Xmodem(data + Trailer(Xmodem(data))) == 0
  {
    var crc := Xmodem(data);
    FoldTwo(ByteStep, 0, data, (crc >> 8) as bv8, (crc & 0xFF) as bv8);
    HighThenLow(crc);
  }

  // ---- Damaged packets ---------------------------------------------------------------------

  /** A step that moves up and then flips, or only moves up, loses nothing if the two outcomes cannot be confused. */
  lemma ConditionalFlipIsInjective<T(!new)>(step: T -> T, up: T -> T, flipped: T -> T, top: T -> bool, x: T, y: T)
    requires forall u :: step(u) == if top(u) then flipped(u) else up(u)
    requires forall u, v :: flipped(u) != up(v)
    requires forall u, v :: top(u) && top(v) && flipped(u) == flipped(v) ==> u == v
    requires forall u, v :: !top(u) && !top(v) && up(u) == up(v) ==> u == v
    requires step(x) == step(y)
    ensures x == y
  {
  }

  predicate Top(u: bv16) { u & 0x8000 != 0 }

  function Up(u: bv16): bv16 { u << 1 }

  function Flipped(u: bv16): bv16 { (u << 1) ^ 0x1021 }

  lemma FlippedIsNotUp(u: bv16, v: bv16)
    ensures Flipped(u) != Up(v)
  {
  }

  lemma UpLosesTheTop(u: bv16, v: bv16)
    requires Top(u) == Top(v) && (Up(u) == Up(v) || Flipped(u) == Flipped(v))
    ensures u == v
  {
  }

  lemma BitConditional(step: bv16 -> bv16, up: bv16 -> bv16, flipped: bv16 -> bv16, top: bv16 -> bool)
    requires step == Bit && up == Up && flipped == Flipped && top == Top
    ensures forall u :: step(u) == if top(u) then flipped(u) else up(u)
  {
  }

  lemma OutcomesDiffer(up: bv16 -> bv16, flipped: bv16 -> bv16)
    requires up == Up && flipped == Flipped
    ensures forall u, v :: flipped(u) != up(v)
  {
    forall u, v ensures flipped(u) != up(v) { FlippedIsNotUp(u, v); }
  }

  lemma NothingIsLost(up: bv16 -> bv16, flipped: bv16 -> bv16, top: bv16 -> bool)
    requires up == Up && flipped == Flipped && top == Top
    ensures forall u, v :: top(u) && top(v) && flipped(u) == flipped(v) ==> u == v
    ensures forall u, v :: !top(u) && !top(v) && up(u) == up(v) ==> u == v
  {
    forall u, v | top(u) == top(v) && (up(u) == up(v) || flipped(u) == flipped(v)) ensures u == v { UpLosesTheTop(u, v); }
  }

  lemma BitIsInjective(x: bv16, y: bv16)
    requires Bit(x) == Bit(y)
    ensures x == y
  {
    BitConditional(Bit, Up, Flipped, Top);
    OutcomesDiffer(Up, Flipped);
    NothingIsLost(Up, Flipped, Top);
    ConditionalFlipIsInjective(Bit, Up, Flipped, Top, x, y);
  }

  lemma EnteredIsInjective(s: bv16, t: bv16, b: Byte, c: Byte)
    requires Entered(s, b) == Entered(t, c)
    ensures b == c ==> s == t
    ensures s == t ==> b == c
  {
  }

  lemma ByteStepIsOneToOne(s: bv16, t: bv16, b: Byte, c: Byte)
    requires ByteStep(s, b) == ByteStep(t, c)
    ensures b == c ==> s == t
    ensures s == t ==> b == c
  {
    forall u, v | Bit(u) == Bit(v) ensures u == v { BitIsInjective(u, v); }
    IteratedInjective(Bit, Entered(s, b), Entered(t, c), BITS);
    EnteredIsInjective(s, t, b, c);
  }

  /** No single damaged byte goes unnoticed. */
  lemma DamagedByteIsDetected(before: seq<Byte>, good: Byte, bad: Byte, after: seq<Byte>)
    requires good != bad
    ensures Xmodem(before + [good] + after) != Xmodem(before + [bad] + after)
  {
    forall u, v, b | ByteStep(u, b) == ByteStep(v, b) ensures u == v { ByteStepIsOneToOne(u, v, b, b); }
    forall u, b, c | ByteStep(u, b) == ByteStep(u, c) ensures b == c { ByteStepIsOneToOne(u, u, b, c); }
    FoldDetects(ByteStep, 0, before, good, bad, after);
  }

  // ---- The start value ---------------------------------------------------------------------

  function Xor16(x: bv16, y: bv16): bv16 { x ^ y }

  lemma BitIsLinear(x: bv16, y: bv16)
    ensures Bit(Xor16(x, y)) == Xor16(Bit(x), Bit(y))
  {
    TopOfXor(x, y);
    if Top(x) {
      if Top(y) { UpIsLinear(x, y); FlipsCancel(x, y); } else { UpIsLinear(x, y); OneFlip(x, y); }
    } else {
      UpIsLinear(x, y);
      OneFlip(y, x);
    }
  }

  lemma TopOfXor(x: bv16, y: bv16)
    ensures Top(Xor16(x, y)) <==> Top(x) != Top(y)
  {
  }

  lemma UpIsLinear(x: bv16, y: bv16)
    ensures Up(Xor16(x, y)) == Xor16(Up(x), Up(y)) && Xor16(x, y) == Xor16(y, x)
  {
  }

  lemma FlipsCancel(x: bv16, y: bv16)
    ensures Xor16(Flipped(x), Flipped(y)) == Up(Xor16(x, y))
  {
  }

  lemma OneFlip(x: bv16, y: bv16)
    ensures Xor16(Flipped(x), Up(y)) == Flipped(Xor16(x, y)) && Xor16(Up(y), Flipped(x)) == Flipped(Xor16(x, y))
  {
  }

  function Xor8(x: Byte, y: Byte): Byte { x ^ y }

  lemma EnteredIsLinear(s: bv16, t: bv16, x: Byte, y: Byte)
    ensures Entered(Xor16(s, t), Xor8(x, y)) == Xor16(Entered(s, x), Entered(t, y))
  {
  }

  lemma BitDistributes(f: bv16 -> bv16, op: (bv16, bv16) -> bv16)
    requires f == Bit && op == Xor16
    ensures forall u, v :: f(op(u, v)) == op(f(u), f(v))
  {
    forall u, v ensures f(op(u, v)) == op(f(u), f(v)) { BitIsLinear(u, v); }
  }

  lemma ByteStepIsLinear(s: bv16, t: bv16, x: Byte, y: Byte)
    ensures ByteStep(Xor16(s, t), Xor8(x, y)) == Xor16(ByteStep(s, x), ByteStep(t, y))
  {
    EnteredIsLinear(s, t, x, y);
    BitDistributes(Bit, Xor16);
    IteratedDistributes(Bit, Xor16, Entered(s, x), Entered(t, y), BITS);
  }

  /** Starting from 0, the CRC of two packets combined bit by bit is their CRCs combined, and that of no bytes is 0. */
  lemma CrcIsLinear(first: seq<Byte>, second: seq<Byte>)
    requires |first| == |second|
    ensures Xmodem(Zipped(Xor8, first, second)) == Xmodem(first) ^ Xmodem(second)
    ensures Xmodem([]) == 0
  {
    forall u, v, b, c ensures ByteStep(Xor16(u, v), Xor8(b, c)) == Xor16(ByteStep(u, b), ByteStep(v, c)) {
      ByteStepIsLinear(u, v, b, c);
    }
    FoldDistributes(ByteStep, Xor16, Xor8, 0, 0, first, second);
    assert Xor16(0, 0) == 0;
  }

  /** The polynomial: one byte 1 leaves 0x1021. */
  lemma CrcOfOne()
    ensures Xmodem([1]) == 0x1021
  {
    assert [1 as Byte][..0] == [];
    assert Entered(0, 1) == 0x0100;
    assert Iterated(Bit, 0x0100, 7) == 0x8000 by { LowByteShiftsSeven(); }
  }

  lemma LowByteShiftsSeven()
    ensures Iterated(Bit, 0x0100, 7) == 0x8000
  {
    assert Iterated(Bit, 0x0100, 1) == 0x0200;
    assert Iterated(Bit, 0x0100, 2) == 0x0400;
    assert Iterated(Bit, 0x0100, 3) == 0x0800;
    assert Iterated(Bit, 0x0100, 4) == 0x1000;
    assert Iterated(Bit, 0x0100, 5) == 0x2000;
    assert Iterated(Bit, 0x0100, 6) == 0x4000;
  }
}
