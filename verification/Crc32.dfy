/**
  The CRC-32 of the font image: the branch-free bitwise form of applications/font_update.c, proved equal to the
  table-driven reference in section 8 of RFC 1952, which is the one-shot form the builder (zlib) implements.
 */
module Crc32 {
  import opened Streams

  type Byte = bv8

  const POLYNOMIAL: bv32 := 0xEDB8_8320
  const BITS: nat := 8

  function Xor(x: bv32, y: bv32): bv32 { x ^ y }

  function Mixed(state: bv32, b: Byte): bv32 { state ^ (b as bv32) }

  // ---- The board's form --------------------------------------------------------------------

  /** (state >> 1) ^ (POLYNOMIAL & -(state & 1)). */
  function CrcBit(state: bv32): bv32 { (state >> 1) ^ (0xEDB8_8320 & (0 - (state & 1))) }

  function CrcByte(state: bv32, b: Byte): bv32 { Iterated(CrcBit, Mixed(state, b), BITS) }

  function Update(state: bv32, data: seq<Byte>): bv32 { Fold(CrcByte, state, data) }

  function Crc(data: seq<Byte>): bv32 { !Update(0xFFFF_FFFF, data) }

  /** font_crc32_update. */
  method CrcUpdate(start: bv32, data: seq<Byte>) returns (state: bv32)
    ensures state == Update(start, data)
  {
    state := start;
    for i := 0 to |data|
      invariant state == Update(start, data[..i])
    {
      assert data[..i + 1][..i] == data[..i];
      state := state ^ (data[i] as bv32);
      ghost var mixed := state;
      for bit := 0 to BITS
        invariant state == Iterated(CrcBit, mixed, bit)
      {
        state := (state >> 1) ^ (0xEDB8_8320 & (0 - (state & 1)));
      }
    }
    assert data[..|data|] == data;
  }

  // ---- The reference -----------------------------------------------------------------------

  /** One step of make_crc_table: a conditional xor instead of a mask. */
  function TableStep(c: bv32): bv32 { if c & 1 != 0 then POLYNOMIAL ^ (c >> 1) else c >> 1 }

  function TableEntry(n: bv32): bv32 { Iterated(TableStep, n, BITS) }

  /** c = crc_table[(c ^ buf[n]) & 0xff] ^ (c >> 8). */
  function ReferenceByte(c: bv32, b: Byte): bv32 { Xor(TableEntry(Mixed(c, b) & 0xFF), c >> 8) }

  /** update_crc starts from the complement of its argument, 0 here, and complements the result. */
  function ReferenceCrc(data: seq<Byte>): bv32 { Fold(ReferenceByte, 0 ^ 0xFFFF_FFFF, data) ^ 0xFFFF_FFFF }

  // ---- One bit -----------------------------------------------------------------------------

  lemma MaskIsBranch(c: bv32)
    ensures CrcBit(c) == TableStep(c)
  {
    if c & 1 != 0 {
      LowBitIsOne(c);
      FullMask(c >> 1, c & 1);
    } else {
      NoMask(c >> 1, c & 1);
    }
  }

  lemma LowBitIsOne(c: bv32)
    requires c & 1 != 0
    ensures c & 1 == 1
  {
  }

  lemma FullMask(x: bv32, bit: bv32)
    requires bit == 1
    ensures x ^ (0xEDB8_8320 & (0 - bit)) == POLYNOMIAL ^ x
  {
  }

  lemma NoMask(x: bv32, bit: bv32)
    requires bit == 0
    ensures x ^ (0xEDB8_8320 & (0 - bit)) == x
  {
  }

  lemma OddOdd(x: bv32, y: bv32)
    requires x & 1 != 0 && y & 1 != 0
    ensures TableStep(x ^ y) == TableStep(x) ^ TableStep(y)
  {
    assert (x ^ y) & 1 == 0;
  }

  lemma OddEven(x: bv32, y: bv32)
    requires x & 1 != 0 && y & 1 == 0
    ensures TableStep(x ^ y) == TableStep(x) ^ TableStep(y)
  {
  }

  lemma EvenOdd(x: bv32, y: bv32)
    requires x & 1 == 0 && y & 1 != 0
    ensures TableStep(x ^ y) == TableStep(x) ^ TableStep(y)
  {
  }

  lemma EvenEven(x: bv32, y: bv32)
    requires x & 1 == 0 && y & 1 == 0
    ensures TableStep(x ^ y) == TableStep(x) ^ TableStep(y)
  {
  }

  /** A conditional xor with a constant, decided by one bit, is linear over xor. */
  lemma StepIsLinear(x: bv32, y: bv32)
    ensures TableStep(Xor(x, y)) == Xor(TableStep(x), TableStep(y))
  {
    if x & 1 != 0 {
      if y & 1 != 0 { OddOdd(x, y); } else { OddEven(x, y); }
    } else {
      if y & 1 != 0 { EvenOdd(x, y); } else { EvenEven(x, y); }
    }
  }

  lemma StepIsInjective(x: bv32, y: bv32)
    requires TableStep(x) == TableStep(y)
    ensures x == y
  {
  }

  // ---- One byte ----------------------------------------------------------------------------

  lemma ShiftFacts(h: bv32)
    requires h & 0xFF == 0
    ensures h & 1 == (h >> 1) & 1 == (h >> 2) & 1 == (h >> 3) & 1 == 0
    ensures (h >> 4) & 1 == (h >> 5) & 1 == (h >> 6) & 1 == (h >> 7) & 1 == 0
    ensures (h >> 1) >> 1 == h >> 2 && (h >> 2) >> 1 == h >> 3 && (h >> 3) >> 1 == h >> 4 && (h >> 4) >> 1 == h >> 5
    ensures (h >> 5) >> 1 == h >> 6 && (h >> 6) >> 1 == h >> 7 && (h >> 7) >> 1 == h >> 8
  {
  }

  lemma SplitLowByte(state: bv32, b: Byte)
    ensures var x := Mixed(state, b);
            x == Xor(x & 0xFF, x & 0xFFFF_FF00) && (x & 0xFFFF_FF00) & 0xFF == 0 && (x & 0xFFFF_FF00) >> 8 == state >> 8
  {
  }

  /** A step that distributes over an operation can be taken on the two parts of a word separately. */
  lemma PartByPart<T(!new)>(f: T -> T, g: T -> T, op: (T, T) -> T, x: T, low: T, high: T, shifted: T, n: nat)
    requires forall u :: f(u) == g(u)
    requires forall u, v :: g(op(u, v)) == op(g(u), g(v))
    requires x == op(low, high) && Iterated(g, high, n) == shifted
    ensures Iterated(f, x, n) == op(Iterated(g, low, n), shifted)
  {
    IteratedSame(f, g, x, n);
    IteratedDistributes(g, op, low, high, n);
  }

  lemma BitStepProperties(f: bv32 -> bv32, g: bv32 -> bv32, op: (bv32, bv32) -> bv32)
    requires f == CrcBit && g == TableStep && op == Xor
    ensures forall u :: f(u) == g(u)
    ensures forall u, v :: g(op(u, v)) == op(g(u), g(v))
  {
    forall u ensures f(u) == g(u) { MaskIsBranch(u); }
    forall u, v ensures g(op(u, v)) == op(g(u), g(v)) { StepIsLinear(u, v); }
  }

  lemma EvenSteps(a: bv32, b: bv32, c: bv32, d: bv32)
    requires a & 1 == b & 1 == c & 1 == d & 1 == 0
    ensures TableStep(a) == a >> 1 && TableStep(b) == b >> 1 && TableStep(c) == c >> 1 && TableStep(d) == d >> 1
  {
  }

  /** With the low byte clear, eight bit steps only shift. */
  lemma HighPartOfTable(h: bv32)
    requires h & 0xFF == 0
    ensures TableEntry(h) == h >> 8
  {
    ShiftFacts(h);
    EvenSteps(h, h >> 1, h >> 2, h >> 3);
    EvenSteps(h >> 4, h >> 5, h >> 6, h >> 7);
    EightSteps(TableStep, h, h >> 1, h >> 2, h >> 3, h >> 4, h >> 5, h >> 6, h >> 7, h >> 8);
  }

  lemma PartsOfMixed(state: bv32, b: Byte) returns (high: bv32)
    ensures Mixed(state, b) == Xor(Mixed(state, b) & 0xFF, high) && TableEntry(high) == state >> 8
  {
    SplitLowByte(state, b);
    high := Mixed(state, b) & 0xFFFF_FF00;
    HighPartOfTable(high);
  }

  lemma ByteStepMatchesReference(state: bv32, b: Byte)
    ensures CrcByte(state, b) == ReferenceByte(state, b)
  {
    var high := PartsOfMixed(state, b);
    ByteFromParts(Mixed(state, b), Mixed(state, b) & 0xFF, high, state >> 8);
  }

  lemma ByteFromParts(x: bv32, low: bv32, high: bv32, shifted: bv32)
    requires x == Xor(low, high) && TableEntry(high) == shifted
    ensures Iterated(CrcBit, x, BITS) == Xor(TableEntry(low), shifted)
  {
    StepsByPart(CrcBit, TableStep, Xor, x, low, high, shifted, BITS);
  }

  lemma StepsByPart(f: bv32 -> bv32, g: bv32 -> bv32, op: (bv32, bv32) -> bv32, x: bv32, low: bv32, high: bv32, shifted: bv32, n: nat)
    requires f == CrcBit && g == TableStep && op == Xor
    requires x == op(low, high) && Iterated(g, high, n) == shifted
    ensures Iterated(f, x, n) == op(Iterated(g, low, n), shifted)
  {
    BitStepProperties(f, g, op);
    PartByPart(f, g, op, x, low, high, shifted, n);
  }

  lemma XorCancels(s: bv32, t: bv32, b: Byte, c: Byte)
    requires Mixed(s, b) == Mixed(t, c)
    ensures b == c ==> s == t
    ensures s == t ==> b == c
  {
  }

  lemma ByteStepIsInjective(s: bv32, t: bv32, b: Byte, c: Byte)
    requires CrcByte(s, b) == CrcByte(t, c)
    ensures b == c ==> s == t
    ensures s == t ==> b == c
  {
    forall u, v | CrcBit(u) == CrcBit(v) ensures u == v {
      MaskIsBranch(u);
      MaskIsBranch(v);
      StepIsInjective(u, v);
    }
    IteratedInjective(CrcBit, Mixed(s, b), Mixed(t, c), BITS);
    XorCancels(s, t, b, c);
  }

  // ---- Whole images ------------------------------------------------------------------------

  lemma ComplementIsXor(x: bv32)
    ensures !x == x ^ 0xFFFF_FFFF
  {
  }

  /** The board and the builder agree on every input. */
  lemma CrcMatchesReference(data: seq<Byte>)
    ensures Crc(data) == ReferenceCrc(data)
  {
    forall s, b ensures CrcByte(s, b) == ReferenceByte(s, b) { ByteStepMatchesReference(s, b); }
    FoldSame(CrcByte, ReferenceByte, 0xFFFF_FFFF, data);
    ComplementIsXor(Update(0xFFFF_FFFF, data));
  }

  /** Reading the data in chunks of any size gives the CRC of the whole. */
  lemma UpdateConcat(state: bv32, first: seq<Byte>, second: seq<Byte>)
    ensures Update(state, first + second) == Update(Update(state, first), second)
  {
    FoldConcat(CrcByte, state, first, second);
  }

  lemma ComplementIsInjective(x: bv32, y: bv32)
    requires !x == !y
    ensures x == y
  {
  }

  /** No single corrupted byte, anywhere in the image, leaves the CRC unchanged. */
  lemma SingleByteErrorIsDetected(before: seq<Byte>, good: Byte, bad: Byte, after: seq<Byte>)
    requires good != bad
    ensures Crc(before + [good] + after) != Crc(before + [bad] + after)
  {
    forall u, v, b | CrcByte(u, b) == CrcByte(v, b) ensures u == v { ByteStepIsInjective(u, v, b, b); }
    forall u, b, c | CrcByte(u, b) == CrcByte(u, c) ensures b == c { ByteStepIsInjective(u, u, b, c); }
    FoldDetects(CrcByte, 0xFFFF_FFFF, before, good, bad, after);
    if Crc(before + [good] + after) == Crc(before + [bad] + after) {
      ComplementIsInjective(Update(0xFFFF_FFFF, before + [good] + after), Update(0xFFFF_FFFF, before + [bad] + after));
    }
  }

  // ---- A known value -----------------------------------------------------------------------

  lemma TableEntryOf9E()
    ensures TableEntry(0x9E) == 0x17B7_BE43
  {
    assert Iterated(TableStep, 0x9E, 1) == 0x0000_004F;
    assert Iterated(TableStep, 0x9E, 2) == 0xEDB8_8307;
    assert Iterated(TableStep, 0x9E, 3) == 0x9B64_C2A3;
    assert Iterated(TableStep, 0x9E, 4) == 0xA00A_E271;
    assert Iterated(TableStep, 0x9E, 5) == 0xBDBD_F218;
    assert Iterated(TableStep, 0x9E, 6) == 0x5EDE_F90C;
    assert Iterated(TableStep, 0x9E, 7) == 0x2F6F_7C86;
  }

  /** The CRC of the single letter "a", as published for CRC-32. */
  lemma CrcOfA()
    ensures Crc([0x61]) == 0xE8B7_BE43
  {
    CrcMatchesReference([0x61]);
    TableEntryOf9E();
    assert [0x61 as Byte][..0] == [];
  }
}
