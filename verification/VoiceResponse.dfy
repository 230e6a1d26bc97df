/**
  What gets through the voice chain of applications/uart_send_pcm.c: the response of each stage, the gate over runs of
  loud input, and a full-scale tone that is heard.
 */
module VoiceResponse {
  import opened FixedPoint
  import opened Streams
  import opened VoiceChain

  // ---- The stages --------------------------------------------------------------------------

  /** The high-pass lets every step of its input through and forgets 556/32768 of its last output. */
  lemma HighPassResponds(prevX: int, prevY: int, x: int)
    ensures var kept := HighPass(prevX, prevY, x) - (x - prevX);
            32768 * kept <= 32212 * prevY < 32768 * kept + 32768
  {
  }

  /** One sample leaves the low-pass at most 12968/32768 of its distance from the input, and one unit of rounding. */
  lemma LowPassApproaches(y: int, x: int)
    ensures 32768 * Abs(x - LowPass(y, x)) <= 12968 * Abs(x - y) + 32767
  {
  }

  /** The gain is nine eighths, rounded down, and the limiter a clamp. */
  lemma GainIsNineEighths(y: int)
    ensures 8 * Amplified(y) <= 9 * y < 8 * Amplified(y) + 8
    ensures Limited(y) == Max(-30000, Min(30000, y))
  {
  }

  /** The envelope goes a thirty-second of the way to the level, rounded towards where it is. */
  lemma EnvelopeFollows(env: int, level: int)
    ensures var moved := GateEnvelope(env, level) - env;
            if level > env then 32 * moved <= level - env < 32 * moved + 32
            else -32 * moved <= env - level < -32 * moved + 32
  {
  }

  /** The gain goes a quarter of the way up over 900, a thirty-second of the way down under 550, and stays in between. */
  lemma GainFollows(gain: int, env: int)
    requires GATE_CLOSE_GAIN <= gain <= Q15_ONE
    ensures var moved := GateGain(gain, env) - gain;
            if env > 900 then 4 * moved <= 32768 - gain < 4 * moved + 4
            else if env < 550 then -32 * moved <= gain - 3277 < -32 * moved + 32
            else moved == 0
  {
  }

  /** Exactly the samples that the amplifier takes beyond 30000 are cut, and counted modulo 2^32. */
  lemma LimiterCounts(c: State, x: Sample)
    ensures var amplified := Amplified(LowPass(c.lpY, HighPass(c.hpPrevX, c.hpPrevY, x)));
            Process(c, x).0.limiterHits == if Abs(amplified) > 30000 then (c.limiterHits + 1) % 0x1_0000_0000 else c.limiterHits
  {
  }

  // ---- Halving -----------------------------------------------------------------------------

  function Doubled(n: nat): nat { if n == 0 then 1 else 2 * Doubled(n - 1) }

  lemma DoubledValues()
    ensures Doubled(15) == 32768 && Doubled(23) == 8_388_608
  {
    assert Doubled(5) == 32;
    assert Doubled(10) == 1024;
    assert Doubled(15) == 32768;
    assert Doubled(20) == 1_048_576;
  }

  ghost predicate Halving(g: nat -> int) {
    forall k: nat :: (g(k) > 0 ==> 2 * g(k + 1) <= g(k)) && (g(k) <= 0 ==> g(k + 1) <= 0)
  }

  lemma {:induction false} HalvesAway(g: nat -> int, k: nat, n: nat, bound: nat)
    requires Halving(g) && g(k) <= bound < Doubled(n)
    ensures g(k + n) <= 0
    decreases n
  {
    if n > 0 {
      HalvesAway(g, k + 1, n - 1, bound / 2);
      assert k + 1 + (n - 1) == k + n;
    }
  }

  lemma {:induction false} StaysAway(g: nat -> int, k: nat, j: nat)
    requires Halving(g) && g(k) <= 0
    ensures g(k + j) <= 0
  {
    if j > 0 {
      StaysAway(g, k, j - 1);
      assert k + (j - 1) + 1 == k + j;
    }
  }

  // ---- The low-pass under a held input -----------------------------------------------------

  function HeldLowPass(y: int, x: int, n: nat): int {
    if n == 0 then y else LowPass(HeldLowPass(y, x, n - 1), x)
  }

  lemma DistanceHalves(y: int, x: int)
    ensures var (before, after) := (x - y, x - LowPass(y, x));
            && (before > 1 ==> 2 * (after - 1) <= before - 1) && (before <= 1 ==> after <= 1)
            && (before < 0 ==> 2 * -after <= -before) && (before >= 0 ==> after >= 0)
  {
  }

  /** From anywhere in its range the low-pass is at a held input, or one unit below it, within 23 samples. */
  lemma HeldLowPassSettles(y: int, x: int, n: nat)
    requires Abs(x) <= FILTER_BOUND && Abs(y) <= FILTER_BOUND && n >= 23
    ensures x - 1 <= HeldLowPass(y, x, n) <= x
  {
    var below: nat -> int := (k: nat) => x - HeldLowPass(y, x, k) - 1;
    var above: nat -> int := (k: nat) => HeldLowPass(y, x, k) - x;
    HeldDistancesHalve(y, x, below, above);
    GoneAfterHalvings(below, n);
    GoneAfterHalvings(above, n);
  }

  lemma HeldDistancesHalve(y: int, x: int, below: nat -> int, above: nat -> int)
    requires forall k: nat :: below(k) == x - HeldLowPass(y, x, k) - 1 && above(k) == HeldLowPass(y, x, k) - x
    ensures Halving(below) && Halving(above)
  {
    forall k: nat ensures (below(k) > 0 ==> 2 * below(k + 1) <= below(k)) && (below(k) <= 0 ==> below(k + 1) <= 0) {
      DistanceHalves(HeldLowPass(y, x, k), x);
    }
    forall k: nat ensures (above(k) > 0 ==> 2 * above(k + 1) <= above(k)) && (above(k) <= 0 ==> above(k + 1) <= 0) {
      DistanceHalves(HeldLowPass(y, x, k), x);
    }
  }

  lemma GoneAfterHalvings(g: nat -> int, n: nat)
    requires Halving(g) && g(0) <= 7_800_000 && n >= 23
    ensures g(n) <= 0
  {
    DoubledValues();
    HalvesAway(g, 0, 23, 7_800_000);
    StaysAway(g, 23, n - 23);
  }

  // ---- The gate under loud input -----------------------------------------------------------

  /** The state after the first n samples of a run. */
  function After(c: State, input: seq<Sample>, n: nat): State
    requires n <= |input|
  {
    ProcessAll(c, input[..n]).0
  }

  /** The limited sample that the gate gets for input i. */
  function GateInput(c: State, input: seq<Sample>, i: nat): int
    requires i < |input|
  {
    Limited(Amplified(After(c, input, i + 1).lpY))
  }

  /** Every sample of the run reaches the gate at 932 or more, just enough for the envelope to pass 900. */
  predicate Loud(c: State, input: seq<Sample>) {
    forall i :: 0 <= i < |input| ==> Abs(GateInput(c, input, i)) >= 932
  }

  lemma NextState(c: State, input: seq<Sample>, n: nat)
    requires n < |input|
    ensures After(c, input, n + 1) == Process(After(c, input, n), input[n]).0
    ensures ProcessAll(c, input).1[n] == Process(After(c, input, n), input[n]).1
  {
    ProcessNext(c, input, n);
    assert input == input[..n + 1] + input[n + 1..];
    BlocksDoNotMatter(c, input[..n + 1], input[n + 1..]);
  }

  lemma GateStep(c: State, input: seq<Sample>, n: nat)
    requires n < |input|
    ensures var (before, after) := (After(c, input, n), After(c, input, n + 1));
            && after.gateEnv == GateEnvelope(before.gateEnv, Abs(GateInput(c, input, n)))
            && after.gateGain == GateGain(before.gateGain, after.gateEnv)
            && ProcessAll(c, input).1[n] == Asr15(GateInput(c, input, n) * after.gateGain)
  {
    NextState(c, input, n);
  }

  lemma {:induction false} EnvelopeRises(c: State, input: seq<Sample>, n: nat)
    requires Loud(c, input) && n <= |input|
    ensures After(c, input, n).gateEnv >= Min(901, n)
  {
    if n > 0 {
      EnvelopeRises(c, input, n - 1);
      GateStep(c, input, n - 1);
      EnvelopeFollows(After(c, input, n - 1).gateEnv, Abs(GateInput(c, input, n - 1)));
    }
  }

  lemma OneGainStep(gain: int, env: int)
    requires GATE_CLOSE_GAIN <= gain <= Q15_ONE && env >= 901
    ensures GateGain(gain, env) == gain + (32768 - gain) / 4
  {
  }

  lemma ThreeQuarterings(gap: int)
    requires gap >= 0
    ensures var (one, two, three) := (gap - gap / 4, gap - gap / 4 - (gap - gap / 4) / 4,
                                      gap - gap / 4 - (gap - gap / 4) / 4 - (gap - gap / 4 - (gap - gap / 4) / 4) / 4);
            && (gap > 3 ==> 2 * (three - 3) <= gap - 3) && (gap <= 3 ==> three <= 3)
  {
  }

  lemma LoudGainStep(c: State, input: seq<Sample>, n: nat)
    requires Loud(c, input) && 900 <= n < |input|
    ensures var gain := After(c, input, n).gateGain; After(c, input, n + 1).gateGain == gain + (32768 - gain) / 4
  {
    EnvelopeRises(c, input, n + 1);
    GateStep(c, input, n);
    OneGainStep(After(c, input, n).gateGain, After(c, input, n + 1).gateEnv);
  }

  function Gap(c: State, input: seq<Sample>, n: nat): int
    requires n <= |input|
  {
    32768 - After(c, input, n).gateGain
  }

  lemma GapAfterThree(c: State, input: seq<Sample>, n: nat)
    requires Loud(c, input) && 901 <= n && n + 3 <= |input|
    ensures var (before, after) := (Gap(c, input, n), Gap(c, input, n + 3));
            (before > 3 ==> 2 * (after - 3) <= before - 3) && (before <= 3 ==> after <= 3)
  {
    LoudGainStep(c, input, n);
    LoudGainStep(c, input, n + 1);
    LoudGainStep(c, input, n + 2);
    GapsInARow(Gap(c, input, n), Gap(c, input, n + 1), Gap(c, input, n + 2), Gap(c, input, n + 3));
  }

  lemma GapsInARow(a: int, b: int, c: int, d: int)
    requires a >= 0 && b == a - a / 4 && c == b - b / 4 && d == c - c / 4
    ensures (a > 3 ==> 2 * (d - 3) <= a - 3) && (a <= 3 ==> d <= 3)
  {
    ThreeQuarterings(a);
  }

  /** From any state 901 loud samples raise the envelope over its threshold, and 45 more open the gate as far as it goes. */
  lemma GateOpens(c: State, input: seq<Sample>)
    requires Loud(c, input) && |input| == 946
    ensures After(c, input, 946).gateGain >= 32765
  {
    var excess: nat -> int := (j: nat) => if j <= 15 then Gap(c, input, 901 + 3 * j) - 3 else 0;
    GapHalves(c, input, excess);
    DoubledValues();
    HalvesAway(excess, 0, 15, 29_488);
  }

  lemma GapHalves(c: State, input: seq<Sample>, excess: nat -> int)
    requires Loud(c, input) && |input| == 946
    requires forall j: nat :: excess(j) == if j <= 15 then Gap(c, input, 901 + 3 * j) - 3 else 0
    ensures Halving(excess)
  {
    forall j: nat ensures (excess(j) > 0 ==> 2 * excess(j + 1) <= excess(j)) && (excess(j) <= 0 ==> excess(j + 1) <= 0) {
      if j < 15 {
        GapAfterThree(c, input, 901 + 3 * j);
        assert 901 + 3 * j + 3 == 901 + 3 * (j + 1);
      }
    }
  }

  /** And there it stays as long as the input stays loud. */
  lemma {:induction false} GateStaysOpen(c: State, input: seq<Sample>, n: nat)
    requires Loud(c, input) && 946 <= n <= |input|
    ensures After(c, input, n).gateGain >= 32765
  {
    if n == 946 {
      var start := input[..946];
      forall i | 0 <= i < 946 ensures Abs(GateInput(c, start, i)) >= 932 {
        assert start[..i + 1] == input[..i + 1];
        assert Abs(GateInput(c, input, i)) >= 932;
      }
      GateOpens(c, start);
      assert start[..946] == start;
    } else {
      GateStaysOpen(c, input, n - 1);
      EnvelopeRises(c, input, n);
      GateStep(c, input, n - 1);
      OneGainStep(After(c, input, n - 1).gateGain, After(c, input, n).gateEnv);
    }
  }

  /** An open gate takes at most 2.75 off a sample, and then its fraction. */
  lemma OpenGate(limited: int, gain: int)
    requires Abs(limited) <= LIMIT && 32765 <= gain <= 32768
    ensures -2 <= limited - Asr15(limited * gain) <= 3
  {
    var loss := 32768 - gain;
    assert limited * gain == 32768 * limited - limited * loss;
    assert -3 * LIMIT <= limited * loss <= 3 * LIMIT by {
      ProductIsMonotone(limited, 0, loss);
      ProductIsMonotone(limited, loss, 3);
    }
  }

  /**
    Loud input leaves the chain: in any run of loud samples each one from the 946th on comes out at nine eighths of the
    low-pass, within four units, unless the limiter cuts it.
   */
  lemma LoudInputPasses(c: State, input: seq<Sample>, n: nat)
    requires Loud(c, input) && 945 <= n < |input|
    ensures var lp := After(c, input, n + 1).lpY;
            var y: int := ProcessAll(c, input).1[n];
            Abs(9 * lp) <= 8 * LIMIT ==> -16 <= 9 * lp - 8 * y <= 31
  {
    GateStaysOpen(c, input, n + 1);
    GateStep(c, input, n);
    var lp := After(c, input, n + 1).lpY;
    GainIsNineEighths(lp);
    OpenGate(GateInput(c, input, n), After(c, input, n + 1).gateGain);
  }

  // ---- A tone ------------------------------------------------------------------------------

  /** After a reset the first sample of 16000 comes out at 1087: high-passed, low-passed, amplified, and still gated. */
  lemma FirstSample()
    ensures Process(RESET, 16000).1 == 1087
  {
  }

  /** 16000 and -16000 in turn, the fastest full-scale tone there is. */
  function ToneAt(i: nat): Sample { if i % 2 == 0 then 16000 else -16000 }

  function Tone(n: nat): seq<Sample> { seq<Sample>(n, (i: nat) => ToneAt(i)) }

  /** What the filters hold after an odd (up) or even number of its samples. */
  predicate Swings(c: State, up: bool) {
    if up then c.hpPrevX == 16000 && 15800 <= c.hpPrevY <= 16470 && 5700 <= c.lpY <= 9670
    else c.hpPrevX == -16000 && -16470 <= c.hpPrevY <= -15800 && -9670 <= c.lpY <= -5700
  }

  lemma SwingStarts()
    ensures Swings(Process(RESET, 16000).0, true)
  {
  }

  lemma SwingContinues(c: State, up: bool)
    requires Swings(c, up)
    ensures Swings(Process(c, if up then -16000 else 16000).0, !up)
  {
  }

  lemma ToneNext(n: nat, total: nat)
    requires n < total
    ensures After(RESET, Tone(total), n + 1) == Process(After(RESET, Tone(total), n), ToneAt(n)).0
    ensures After(RESET, Tone(total), 0) == RESET
  {
    NextState(RESET, Tone(total), n);
    assert Tone(total)[..0] == [];
  }

  lemma ToneSwingsFirst(total: nat)
    requires total > 0
    ensures Swings(After(RESET, Tone(total), 1), true)
  {
    ToneNext(0, total);
    SwingStarts();
  }

  lemma ToneSwingsOn(n: nat, total: nat, up: bool)
    requires n < total && (up <==> n % 2 == 1) && Swings(After(RESET, Tone(total), n), up)
    ensures Swings(After(RESET, Tone(total), n + 1), !up)
  {
    ToneNext(n, total);
    SwingContinues(After(RESET, Tone(total), n), up);
  }

  lemma {:induction false} ToneSwings(n: nat, total: nat, up: bool)
    requires 1 <= n <= total && (up <==> n % 2 == 1)
    ensures Swings(After(RESET, Tone(total), n), up)
  {
    if n == 1 {
      ToneSwingsFirst(total);
    } else {
      ToneSwings(n - 1, total, !up);
      ToneSwingsOn(n - 1, total, !up);
    }
  }

  /** From the 946th sample on (21 ms) the tone comes out at 6400 or more, with its own sign, for as long as it lasts. */
  lemma ToneIsHeard(n: nat, total: nat)
    requires 945 <= n < total
    ensures var y := ProcessAll(RESET, Tone(total)).1[n];
            if n % 2 == 0 then y >= 6400 else y <= -6400
  {
    var tone := Tone(total);
    forall i | 0 <= i < total ensures Abs(GateInput(RESET, tone, i)) >= 932 {
      ToneSwings(i + 1, total, (i + 1) % 2 == 1);
      GainIsNineEighths(After(RESET, tone, i + 1).lpY);
    }
    ToneSwings(n + 1, total, (n + 1) % 2 == 1);
    LoudInputPasses(RESET, tone, n);
  }
}
