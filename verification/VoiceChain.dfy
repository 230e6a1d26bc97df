/**
  The microphone voice chain of applications/uart_send_pcm.c: a first-order high-pass and low-pass, a gain
  with a hard limiter and a noise gate, all in 32-bit fixed point and all carrying state from sample to sample.
 */
module VoiceChain {
  import opened FixedPoint
  import opened Streams

  const LIMIT := 30000
  const GATE_OPEN := 900
  const GATE_CLOSE := 550
  const GATE_CLOSE_GAIN := 3277
  const FILTER_BOUND := 3_900_000
  const WORD := 0x1_0000_0000

  // ---- One sample --------------------------------------------------------------------------

  function HighPass(prevX: int, prevY: int, x: int): int { x - prevX + Asr15(32212 * prevY) }

  function LowPass(y: int, x: int): int { y + Asr15(19800 * (x - y)) }

  function Amplified(y: int): int { y * 288 / 256 }

  function Limited(v: int): int { if v > LIMIT then LIMIT else if v < -LIMIT then -LIMIT else v }

  /** The gate's level follower moves 1/32 of the way to the rectified sample. */
  function GateEnvelope(env: int, level: int): int {
    if level > env then env + (level - env) / 32 else env - (env - level) / 32
  }

  /** Between the two thresholds the gate keeps the gain it has. */
  function GateTarget(gain: int, env: int): int {
    if env > GATE_OPEN then Q15_ONE else if env < GATE_CLOSE then GATE_CLOSE_GAIN else gain
  }

  function GateGain(gain: int, env: int): int {
    var target := GateTarget(gain, env);
    if target > gain then gain + (target - gain) / 4
    else if target < gain then gain - (gain - target) / 32
    else gain
  }

  datatype ChainRecord = Chain(hpPrevX: int, hpPrevY: int, lpY: int, gateEnv: int, gateGain: int, peak: nat, limiterHits: nat)

  /** The inductive invariant that holds after any input whatever. */
  predicate Bounded(c: ChainRecord) {
    && Int16(c.hpPrevX) && Abs(c.hpPrevY) <= FILTER_BOUND && Abs(c.lpY) <= FILTER_BOUND
    && 0 <= c.gateEnv <= LIMIT && GATE_CLOSE_GAIN <= c.gateGain <= Q15_ONE
    && c.peak <= LIMIT && c.limiterHits < WORD
  }

  type State = c: ChainRecord | Bounded(c) witness Chain(0, 0, 0, 0, 3277, 0, 0)

  const RESET: State := Chain(0, 0, 0, 0, GATE_CLOSE_GAIN, 0, 0)

  function Process(c: State, x: Sample): (State, Sample) {
    FiltersStayBounded(c, x);
    var hp := HighPass(c.hpPrevX, c.hpPrevY, x);
    var lp := LowPass(c.lpY, hp);
    var limited := Limited(Amplified(lp));
    GateStaysBounded(c, limited);
    var env := GateEnvelope(c.gateEnv, Abs(limited));
    var gain := GateGain(c.gateGain, env);
    var y := Asr15(limited * gain);
    var hits := if limited != Amplified(lp) then (c.limiterHits + 1) % WORD else c.limiterHits;
    (Chain(x, hp, lp, env, gain, Max(c.peak, Abs(y)), hits), y)
  }

  function ProcessAll(c: State, input: seq<Sample>): (State, seq<Sample>) { Scan(Process, c, input) }

  // ---- Stability ---------------------------------------------------------------------------

  lemma HighPassBound(prevX: int, prevY: int, x: int)
    requires Int16(prevX) && Int16(x) && Abs(prevY) <= FILTER_BOUND
    ensures Abs(HighPass(prevX, prevY, x)) <= FILTER_BOUND
  {
  }

  /** The low-pass output lies between its previous output and its input. */
  lemma LowPassBetween(y: int, x: int)
    ensures y <= x ==> y <= LowPass(y, x) <= x
    ensures x <= y ==> x <= LowPass(y, x) <= y
  {
  }

  /** Whatever the input, the recursive filters keep within 3900000, and no stage leaves 32 bits. */
  lemma FiltersStayBounded(c: State, x: Sample)
    ensures var hp := HighPass(c.hpPrevX, c.hpPrevY, x);
            var lp := LowPass(c.lpY, hp);
            && Abs(hp) <= FILTER_BOUND && Abs(lp) <= FILTER_BOUND && Int32(x - c.hpPrevX) && Int32(hp - c.lpY)
            && Int32(Amplified(lp)) && Abs(Limited(Amplified(lp))) <= LIMIT
  {
    assert Int16(x);
    HighPassBound(c.hpPrevX, c.hpPrevY, x);
    LowPassBetween(c.lpY, HighPass(c.hpPrevX, c.hpPrevY, x));
  }

  lemma GateStaysBounded(c: State, limited: int)
    requires Abs(limited) <= LIMIT
    ensures var env := GateEnvelope(c.gateEnv, Abs(limited));
            var gain := GateGain(c.gateGain, env);
            && 0 <= env <= LIMIT && GATE_CLOSE_GAIN <= gain <= Q15_ONE
            && Abs(Asr15(limited * gain)) <= Abs(limited) && Int32(limited * gain)
  {
    var gain := GateGain(c.gateGain, GateEnvelope(c.gateEnv, Abs(limited)));
    GainContracts(limited, gain);
    ProductIsMonotone(limited, 0, gain);
    ProductIsMonotone(limited, gain, Q15_ONE);
  }

  /** Every output is within the limiter's range and never louder than the limited sample it gates. */
  lemma OutputIsLimited(c: State, x: Sample)
    ensures var limited := Limited(Amplified(LowPass(c.lpY, HighPass(c.hpPrevX, c.hpPrevY, x))));
            && Abs(Process(c, x).1) <= Abs(limited) <= LIMIT
            && (limited >= 0 ==> Process(c, x).1 >= 0) && (limited <= 0 ==> Process(c, x).1 <= 0)
  {
    FiltersStayBounded(c, x);
    var limited := Limited(Amplified(LowPass(c.lpY, HighPass(c.hpPrevX, c.hpPrevY, x))));
    GateStaysBounded(c, limited);
    GainContracts(limited, Process(c, x).0.gateGain);
  }

  /** Over a whole session the recorded peak is the loudest output, and no output exceeds the limit. */
  lemma {:induction false} PeakIsLoudestOutput(c: State, input: seq<Sample>)
    ensures var (after, output) := ProcessAll(c, input);
            && (forall i :: 0 <= i < |output| ==> Abs(output[i]) <= after.peak <= LIMIT)
            && c.peak <= after.peak
            && (after.peak == c.peak || exists i :: 0 <= i < |output| && Abs(output[i]) == after.peak)
  {
    if input != [] {
      var n := |input| - 1;
      PeakIsLoudestOutput(c, input[..n]);
      var (before, outputs) := ProcessAll(c, input[..n]);
      var (after, y) := Process(before, input[n]);
      var all := outputs + [y];
      assert ProcessAll(c, input) == (after, all);
      assert all[n] == y;
      assert forall i :: 0 <= i < n ==> all[i] == outputs[i];
    }
  }

  /** Splitting the input into blocks anywhere changes neither the samples nor the state. */
  lemma BlocksDoNotMatter(c: State, first: seq<Sample>, second: seq<Sample>)
    ensures ProcessAll(c, first + second).0 == ProcessAll(ProcessAll(c, first).0, second).0
    ensures ProcessAll(c, first + second).1 == ProcessAll(c, first).1 + ProcessAll(ProcessAll(c, first).0, second).1
  {
    ScanConcat(Process, c, first, second);
  }

  // ---- The gate over a session -------------------------------------------------------------

  /** Rounding keeps the gate 3/32768 short of fully open: after a reset it never gets there. */
  lemma {:induction false} GateNeverFullyOpens(input: seq<Sample>)
    ensures ProcessAll(RESET, input).0.gateGain <= Q15_ONE - 3
  {
    if input != [] {
      GateNeverFullyOpens(input[..|input| - 1]);
      var before := ProcessAll(RESET, input[..|input| - 1]).0;
      assert ProcessAll(RESET, input).0 == Process(before, input[|input| - 1]).0;
    }
  }

  /** The gains at which the gate rests: opening stops at 32765 or above, closing at 3308 or below. */
  lemma GateRestPoints(gain: int, env: int)
    requires GATE_CLOSE_GAIN <= gain <= Q15_ONE
    ensures GateGain(gain, env) == gain <==>
            (GATE_CLOSE <= env <= GATE_OPEN || (env > GATE_OPEN && gain >= 32765) || (env < GATE_CLOSE && gain <= 3308))
    ensures env > GATE_OPEN ==> gain <= GateGain(gain, env)
    ensures env < GATE_CLOSE ==> GateGain(gain, env) <= gain
  {
  }

  // ---- Removal of a constant offset --------------------------------------------------------

  /** The high-pass output under a constant input, n samples after it read h. */
  function HeldHighPass(h: int, n: nat): int {
    if n == 0 then h else HighPass(0, HeldHighPass(h, n - 1), 0)
  }

  /** The offsets the rounding leaves standing are exactly -58..0. */
  lemma HighPassRestPoints(h: int)
    ensures Asr15(32212 * h) == h <==> -58 <= h <= 0
    ensures h > 0 ==> 0 <= Asr15(32212 * h) < h
    ensures h < -58 ==> h < Asr15(32212 * h) <= -58
  {
  }

  /** A quantity that loses 556/32768 of itself a step, and is never positive again once it is not. */
  ghost predicate Decaying(g: nat -> int) {
    forall k: nat :: (g(k) > 0 ==> 32768 * g(k + 1) <= 32212 * g(k)) && (g(k) <= 0 ==> g(k + 1) <= 0)
  }

  lemma {:induction false} WithinBlock(g: nat -> int, bound: nat, k: nat, j: nat)
    requires Decaying(g) && g(k) <= bound
    ensures 4 * g(k + j) <= 3 * bound || 131072 * g(k + j) <= (131072 - 1668 * j) * bound
  {
    if j > 0 {
      WithinBlock(g, bound, k, j - 1);
      var before := g(k + j - 1);
      assert k + j - 1 + 1 == k + j;
      assert (131072 - 1668 * j) * bound == (131072 - 1668 * (j - 1)) * bound - 1668 * bound;
      assert before <= 0 || 131072 * g(k + j) <= 131072 * before - 2224 * before;
    }
  }

  /** Twenty steps take a quarter off any bound. */
  lemma BlockTakesQuarter(g: nat -> int, bound: nat, k: nat)
    requires Decaying(g) && g(k) <= bound
    ensures g(k + 20) <= bound * 3 / 4
  {
    WithinBlock(g, bound, k, 20);
  }

  lemma FourBlocks(g: nat -> int, bound: nat, k: nat)
    requires Decaying(g) && g(k) <= bound
    ensures g(k + 80) <= bound * 3 / 4 * 3 / 4 * 3 / 4 * 3 / 4
  {
    BlockTakesQuarter(g, bound, k);
    BlockTakesQuarter(g, bound * 3 / 4, k + 20);
    BlockTakesQuarter(g, bound * 3 / 4 * 3 / 4, k + 40);
    BlockTakesQuarter(g, bound * 3 / 4 * 3 / 4 * 3 / 4, k + 60);
  }

  lemma {:induction false} OneByOne(g: nat -> int, k: nat, j: nat)
    requires Decaying(g)
    ensures g(k + j) <= 0 || g(k + j) <= g(k) - j
  {
    if j > 0 {
      OneByOne(g, k, j - 1);
      assert k + j - 1 + 1 == k + j;
    }
  }

  /** From anywhere in the filter's range such a quantity is gone after 829 steps. */
  lemma GoneAfter(g: nat -> int, n: nat)
    requires Decaying(g) && g(0) <= 3_900_000 && n >= 829
    ensures g(n) <= 0
  {
    FourBlocks(g, 3900000, 0);
    FourBlocks(g, 1233984, 80);
    FourBlocks(g, 390440, 160);
    FourBlocks(g, 123537, 240);
    FourBlocks(g, 39087, 320);
    FourBlocks(g, 12366, 400);
    FourBlocks(g, 3912, 480);
    FourBlocks(g, 1237, 560);
    FourBlocks(g, 390, 640);
    BlockTakesQuarter(g, 123, 720);
    BlockTakesQuarter(g, 92, 740);
    OneByOne(g, 760, n - 760);
  }

  lemma HeldStep(h: int)
    ensures h > 0 ==> 32768 * Asr15(32212 * h) <= 32212 * h
    ensures h <= 0 ==> Asr15(32212 * h) <= 0
    ensures h < -59 ==> 32768 * (-Asr15(32212 * h) - 59) <= 32212 * (-h - 59)
    ensures h >= -59 ==> Asr15(32212 * h) >= -58
  {
  }

  /** Both the part above zero and the part below -59 decay, and -59 itself lasts for one sample. */
  lemma HeldHighPassSettles(h: int, n: nat)
    requires Abs(h) <= FILTER_BOUND && n >= 830
    ensures -58 <= HeldHighPass(h, n) <= 0
  {
    var above: nat -> int := (k: nat) => HeldHighPass(h, k);
    var below: nat -> int := (k: nat) => -HeldHighPass(h, k) - 59;
    HeldDecays(h, above, below);
    GoneAfter(above, n);
    GoneAfter(below, n - 1);
    HeldStep(HeldHighPass(h, n - 1));
  }

  lemma HeldDecays(h: int, above: nat -> int, below: nat -> int)
    requires forall k: nat :: above(k) == HeldHighPass(h, k) && below(k) == -HeldHighPass(h, k) - 59
    ensures Decaying(above) && Decaying(below)
  {
    forall k: nat ensures (above(k) > 0 ==> 32768 * above(k + 1) <= 32212 * above(k)) && (above(k) <= 0 ==> above(k + 1) <= 0) {
      HeldStep(HeldHighPass(h, k));
    }
    forall k: nat ensures (below(k) > 0 ==> 32768 * below(k + 1) <= 32212 * below(k)) && (below(k) <= 0 ==> below(k + 1) <= 0) {
      HeldStep(HeldHighPass(h, k));
    }
  }

  lemma {:induction false} ConstantInputIsHeld(c: State, x: Sample, n: nat)
    ensures ProcessAll(Process(c, x).0, seq(n, _ => x)).0.hpPrevX == x
    ensures ProcessAll(Process(c, x).0, seq(n, _ => x)).0.hpPrevY == HeldHighPass(Process(c, x).0.hpPrevY, n)
  {
    if n > 0 {
      ConstantInputIsHeld(c, x, n - 1);
      assert seq(n, _ => x)[..n - 1] == seq(n - 1, _ => x);
      var before := ProcessAll(Process(c, x).0, seq(n - 1, _ => x)).0;
      assert ProcessAll(Process(c, x).0, seq(n, _ => x)).0 == Process(before, x).0;
    }
  }

  /**
    A constant offset dies out: from any state, once a constant input has been held for 830 samples (19 ms), the
    high-pass output is between -58 and 0 and stays there.
   */
  lemma ConstantOffsetDiesOut(c: State, x: Sample, n: nat)
    requires n >= 830
    ensures -58 <= ProcessAll(Process(c, x).0, seq(n, _ => x)).0.hpPrevY <= 0
  {
    ConstantInputIsHeld(c, x, n);
    HeldHighPassSettles(Process(c, x).0.hpPrevY, n);
  }

  // ---- The imperative form -----------------------------------------------------------------

  class VoiceProcessor {
    var hpPrevX: int
    var hpPrevY: int
    var lpY: int
    var gateEnv: int
    var gateGain: int
    var peak: nat
    var limiterHits: nat

    ghost function Record(): ChainRecord
      reads this
    {
      Chain(hpPrevX, hpPrevY, lpY, gateEnv, gateGain, peak, limiterHits)
    }

    ghost predicate Valid()
      reads this
    {
      Bounded(Record())
    }

    constructor ()
      ensures Valid() && Record() == RESET
    {
      hpPrevX, hpPrevY, lpY, gateEnv, gateGain, peak, limiterHits := 0, 0, 0, 0, GATE_CLOSE_GAIN, 0, 0;
    }

    method Reset()
      modifies this
      ensures Valid() && Record() == RESET
    {
      hpPrevX, hpPrevY, lpY, gateEnv, gateGain, peak, limiterHits := 0, 0, 0, 0, GATE_CLOSE_GAIN, 0, 0;
    }

    method Filter(x: Sample) returns (limited: int)
      requires Valid()
      modifies this`hpPrevX, this`hpPrevY, this`lpY, this`limiterHits
      ensures hpPrevX == x && hpPrevY == HighPass(old(hpPrevX), old(hpPrevY), x) && lpY == LowPass(old(lpY), hpPrevY)
      ensures limited == Limited(Amplified(lpY))
      ensures limiterHits == if limited != Amplified(lpY) then (old(limiterHits) + 1) % WORD else old(limiterHits)
    {
      var hp := x - hpPrevX + Asr15(32212 * hpPrevY);
      hpPrevX := x;
      hpPrevY := hp;
      lpY := lpY + Asr15(19800 * (hp - lpY));
      limited := lpY * 288 / 256;
      if limited > LIMIT {
        limited := LIMIT;
        limiterHits := (limiterHits + 1) % WORD;
      } else if limited < -LIMIT {
        limited := -LIMIT;
        limiterHits := (limiterHits + 1) % WORD;
      }
    }

    method Gate(limited: int) returns (gated: int)
      modifies this`gateEnv, this`gateGain
      ensures gateEnv == GateEnvelope(old(gateEnv), Abs(limited)) && gateGain == GateGain(old(gateGain), gateEnv)
      ensures gated == Asr15(limited * gateGain)
    {
      var level := if limited < 0 then -limited else limited;
      if level > gateEnv {
        gateEnv := gateEnv + (level - gateEnv) / 32;
      } else {
        gateEnv := gateEnv - (gateEnv - level) / 32;
      }
      var target;
      if gateEnv > GATE_OPEN {
        target := Q15_ONE;
      } else if gateEnv < GATE_CLOSE {
        target := GATE_CLOSE_GAIN;
      } else {
        target := gateGain;
      }
      if target > gateGain {
        gateGain := gateGain + (target - gateGain) / 4;
      } else if target < gateGain {
        gateGain := gateGain - (gateGain - target) / 32;
      }
      gated := Asr15(limited * gateGain);
    }

    method ProcessOne(x: Sample) returns (y: Sample)
      requires Valid()
      modifies this
      ensures Valid() && (Record(), y) == Process(old(Record()), x)
    {
      FiltersStayBounded(Record(), x);
      ghost var c: State := Record();
      var limited := Filter(x);
      GateStaysBounded(c, limited);
      y := Gate(limited);
      var level := if y < 0 then -y else y;
      if level > peak {
        peak := level;
      }
    }

    method ProcessAt(pcm: array<Sample>, i: nat)
      requires Valid() && i < pcm.Length
      modifies this, pcm
      ensures Valid() && (Record(), pcm[i]) == Process(old(Record()), old(pcm[i]))
      ensures forall k :: 0 <= k < pcm.Length && k != i ==> pcm[k] == old(pcm[k])
    {
      var y := ProcessOne(pcm[i]);
      pcm[i] := y;
    }

    method ProcessLoop(pcm: array<Sample>, frames: nat, ghost input: seq<Sample>) returns (ghost output: seq<Sample>)
      requires Valid() && frames <= pcm.Length && input == pcm[..frames]
      modifies this, pcm
      ensures Valid() && (Record(), output) == ProcessAll(old(Record()), input)
      ensures forall k :: 0 <= k < frames ==> pcm[k] == output[k]
      ensures forall k :: frames <= k < pcm.Length ==> pcm[k] == old(pcm[k])
    {
      ghost var start: State := Record();
      output := [];
      for i := 0 to frames
        invariant Valid() && |output| == i && (Record(), output) == ProcessAll(start, input[..i])
        invariant forall k :: 0 <= k < i ==> pcm[k] == output[k]
        invariant forall k :: i <= k < pcm.Length ==> pcm[k] == old(pcm[k])
      {
        ProcessNext(start, input, i);
        ProcessAt(pcm, i);
        output := output + [pcm[i]];
      }
      assert input[..frames] == input;
    }

    /** uart_send_pcm_process_samples: the block is processed in place, sample by sample. */
    method ProcessSamples(pcm: array?<Sample>, frames: nat)
      requires Valid() && (pcm != null ==> frames <= pcm.Length)
      modifies this, pcm
      ensures Valid()
      ensures pcm == null ==> Record() == old(Record())
      ensures pcm != null ==> (Record(), pcm[..frames]) == ProcessAll(old(Record()), old(pcm[..frames]))
      ensures pcm != null ==> forall k :: frames <= k < pcm.Length ==> pcm[k] == old(pcm[k])
    {
      if pcm == null || frames == 0 {
        return;
      }
      ghost var output := ProcessLoop(pcm, frames, pcm[..frames]);
      assert pcm[..frames] == output;
    }
  }

  lemma ProcessNext(c: State, input: seq<Sample>, n: nat)
    requires n < |input|
    ensures var (before, output) := ProcessAll(c, input[..n]);
            ProcessAll(c, input[..n + 1]) == (Process(before, input[n]).0, output + [Process(before, input[n]).1])
  {
    assert input[..n + 1][..n] == input[..n];
  }
}
