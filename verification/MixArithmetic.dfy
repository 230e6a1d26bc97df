/**
  The per-frame arithmetic of the mixer (applications/audio_mixer.c): the ducking
  envelope, the Q15 volume table and the saturating sum.
 */
module MixArithmetic {
  import opened FixedPoint
  import opened Streams

  const SAMPLE_RATE := 44100
  const VOLUME_MAX := 127
  const DUCK_BACKGROUND_GAIN := 1638
  const ATTACK_FRAMES := 220
  const RELEASE_FRAMES := 11025
  const ATTACK_STEP := 149
  const RELEASE_STEP := 3

  /** 5 ms of attack and 250 ms of release at the mixer's rate, with steps rounded up. */
  lemma EnvelopeConstants()
    ensures ATTACK_FRAMES == SAMPLE_RATE * 5 / 1000 && RELEASE_FRAMES == SAMPLE_RATE * 250 / 1000
    ensures ATTACK_STEP == (Q15_ONE + ATTACK_FRAMES - 1) / ATTACK_FRAMES
    ensures RELEASE_STEP == (Q15_ONE + RELEASE_FRAMES - 1) / RELEASE_FRAMES
  {
  }

  function QuietGain(volume: nat): nat {
    match volume
    case 0 => 0 case 1 => 1 case 2 => 1 case 3 => 1 case 4 => 1 case 5 => 1 case 6 => 1 case 7 => 1
    case 8 => 1 case 9 => 1 case 10 => 1 case 11 => 1 case 12 => 2 case 13 => 2 case 14 => 2 case 15 => 2
    case 16 => 2 case 17 => 2 case 18 => 3 case 19 => 3 case 20 => 3 case 21 => 3 case 22 => 4 case 23 => 4
    case 24 => 4 case 25 => 5 case 26 => 5 case 27 => 6 case 28 => 6 case 29 => 7 case 30 => 7 case 31 => 8
    case 32 => 9 case 33 => 9 case 34 => 10 case 35 => 11 case 36 => 12 case 37 => 13 case 38 => 15 case 39 => 16
    case 40 => 17 case 41 => 18 case 42 => 21 case 43 => 22 case 44 => 25 case 45 => 26 case 46 => 29 case 47 => 31
    case 48 => 35 case 49 => 37 case 50 => 41 case 51 => 44 case 52 => 49 case 53 => 52 case 54 => 58 case 55 => 62
    case 56 => 69 case 57 => 73 case 58 => 82 case 59 => 87 case 60 => 98 case 61 => 104 case 62 => 116 case _ => 123
  }

  function MiddleGain(volume: nat): nat {
    match volume
    case 64 => 138 case 65 => 146 case 66 => 164 case 67 => 174 case 68 => 195 case 69 => 207 case 70 => 232 case 71 => 246
    case 72 => 276 case 73 => 292 case 74 => 328 case 75 => 347 case 76 => 389 case 77 => 413 case 78 => 463 case 79 => 490
    case 80 => 550 case 81 => 583 case 82 => 654 case 83 => 693 case 84 => 777 case 85 => 823 case 86 => 924 case 87 => 978
    case 88 => 1098 case 89 => 1163 case 90 => 1305 case 91 => 1382 case 92 => 1550 case 93 => 1642 case 94 => 1843 case _ => 1952
  }

  function LoudGain(volume: nat): nat {
    match volume
    case 96 => 2190 case 97 => 2320 case 98 => 2603 case 99 => 2757 case 100 => 3093 case 101 => 3277 case 102 => 3677 case 103 => 3894
    case 104 => 4370 case 105 => 4629 case 106 => 5193 case 107 => 5501 case 108 => 6172 case 109 => 6538 case 110 => 7336 case 111 => 7771
    case 112 => 8719 case 113 => 9235 case 114 => 10362 case 115 => 10976 case 116 => 12315 case 117 => 13045 case 118 => 14637 case 119 => 15504
    case 120 => 17396 case 121 => 18427 case 122 => 20675 case 123 => 21900 case 124 => 24573 case 125 => 26029 case 126 => 29205 case _ => 32768
  }

  /**
    Volume 1..127 keeps the codec's 0.5 dB curve; volume 0 is digital silence. Requests above 127 are
    clamped to 127.
   */
  function BackgroundGain(volume: nat): nat {
    if volume < 64 then QuietGain(volume) else if volume < 96 then MiddleGain(volume) else LoudGain(volume)
  }

  function Saturate(sample: int): int {
    if sample > 0x7FFF then 0x7FFF else if sample < -0x8000 then -0x8000 else sample
  }

  /** One frame of the envelope: attack while background and voice overlap, release otherwise. */
  function DuckNext(duck: int, overlap: bool): int {
    if overlap then
      if duck + ATTACK_STEP > Q15_ONE then Q15_ONE else duck + ATTACK_STEP
    else if duck > 0 then
      if duck - RELEASE_STEP < 0 then 0 else duck - RELEASE_STEP
    else duck
  }

  function DuckGain(duck: int): int {
    Q15_ONE - Asr15(duck * (Q15_ONE - DUCK_BACKGROUND_GAIN))
  }

  function EffectiveGain(gain: int, duck: int): int { Asr15(gain * DuckGain(duck)) }

  function BackgroundTerm(sample: int, gain: int, duck: int): int {
    Asr15(sample * EffectiveGain(gain, duck))
  }

  function MixSample(background: int, voice: int, gain: int, duck: int): int {
    Saturate(BackgroundTerm(background, gain, duck) + voice)
  }

  predicate DuckInRange(duck: int) { 0 <= duck <= Q15_ONE }

  /** The envelope after a run of frames, each marked with whether the two sources overlap. */
  function DuckRun(duck: int, overlaps: seq<bool>): int { Fold(DuckNext, duck, overlaps) }

  // ---- Volume table ------------------------------------------------------------------------

  lemma QuietGainSteps(v: nat)
    requires v < 63
    ensures QuietGain(v) <= QuietGain(v + 1)
    ensures 0 < QuietGain(v + 1) <= 123
  {
  }

  lemma MiddleGainSteps(v: nat)
    requires 64 <= v < 95
    ensures 138 <= MiddleGain(v) <= MiddleGain(v + 1) <= 1952
  {
  }

  lemma LoudGainSteps(v: nat)
    requires 96 <= v < VOLUME_MAX
    ensures 2190 <= LoudGain(v) <= LoudGain(v + 1)
    ensures LoudGain(v) < Q15_ONE
  {
  }

  lemma NextSettingIsNoQuieter(v: nat)
    requires v < VOLUME_MAX
    ensures BackgroundGain(v) <= BackgroundGain(v + 1) && 0 < BackgroundGain(v + 1) && BackgroundGain(v) < Q15_ONE
  {
    if v < 63 { QuietGainSteps(v); if 0 < v { QuietGainSteps(v - 1); } }
    if 63 < v < 95 { MiddleGainSteps(v); }
    if v == 95 { MiddleGainSteps(94); LoudGainSteps(96); }
    if 95 < v { LoudGainSteps(v); }
  }

  /** Louder settings never attenuate more; only setting 0 mutes and only setting 127 (or more) is unity. */
  lemma {:induction false} GainTableIsMonotone(v: nat, w: nat)
    requires v <= w
    ensures BackgroundGain(v) <= BackgroundGain(w) <= Q15_ONE
    ensures BackgroundGain(w) == 0 <==> w == 0
    ensures BackgroundGain(w) == Q15_ONE <==> w >= VOLUME_MAX
  {
    if v < w {
      GainTableIsMonotone(v, w - 1);
    }
    if w < VOLUME_MAX { NextSettingIsNoQuieter(w); }
    if 0 < w <= VOLUME_MAX { NextSettingIsNoQuieter(w - 1); }
  }

  // ---- The decibel curve -------------------------------------------------------------------

  /** The codec's register for a volume setting: 0 to 191, one for each half decibel. */
  function DacRegister(volume: nat): nat { volume * 191 / 127 }

  /** One or two half decibels as a factor in 1/100000: the fortieth or the twentieth root of ten. */
  function HalfDecibels(steps: nat): nat { if steps == 1 then 105925 else 112202 }

  /** Two gains as far apart as rounding each of them to its nearest integer allows. */
  predicate ApartBy(lower: nat, higher: nat, factor: nat) {
    2 * Abs(100000 * higher - factor * lower) <= 100000 + factor
  }

  lemma FaintCurve(v: nat)
    requires 1 <= v < 32
    ensures ApartBy(QuietGain(v), QuietGain(v + 1), HalfDecibels(DacRegister(v + 1) - DacRegister(v)))
  {
  }

  lemma QuietCurve(v: nat)
    requires 32 <= v < 63
    ensures ApartBy(QuietGain(v), QuietGain(v + 1), HalfDecibels(DacRegister(v + 1) - DacRegister(v)))
  {
  }

  lemma MiddleCurve(v: nat)
    requires 64 <= v < 95
    ensures ApartBy(MiddleGain(v), MiddleGain(v + 1), HalfDecibels(DacRegister(v + 1) - DacRegister(v)))
  {
  }

  lemma LoudCurve(v: nat)
    requires 96 <= v < VOLUME_MAX
    ensures ApartBy(LoudGain(v), LoudGain(v + 1), HalfDecibels(DacRegister(v + 1) - DacRegister(v)))
  {
  }

  /** The table is the codec's own curve: from full volume downwards each setting takes its register's half decibels off. */
  lemma TableFollowsTheCodec(v: nat)
    requires 1 <= v < VOLUME_MAX
    ensures var steps := DacRegister(v + 1) - DacRegister(v);
            1 <= steps <= 2 && ApartBy(BackgroundGain(v), BackgroundGain(v + 1), HalfDecibels(steps))
    ensures DacRegister(VOLUME_MAX) == 191 && BackgroundGain(VOLUME_MAX) == Q15_ONE
  {
    if v < 32 { FaintCurve(v); }
    if 31 < v < 63 { QuietCurve(v); }
    if 63 < v < 95 { MiddleCurve(v); }
    if 95 < v { LoudCurve(v); }
  }

  // ---- Duck envelope -----------------------------------------------------------------------

  function Repeat(b: bool, n: nat): seq<bool> { seq(n, _ => b) }

  /** The envelope never leaves [0, 1], whatever the overlap history. */
  lemma {:induction false} DuckStaysInRange(duck: int, overlaps: seq<bool>)
    requires DuckInRange(duck)
    ensures DuckInRange(DuckRun(duck, overlaps))
  {
    if overlaps != [] { DuckStaysInRange(duck, overlaps[..|overlaps| - 1]); }
  }

  /** The background gain stays between 0.05 and 1, and each end is reached only at the matching end of the envelope. */
  lemma DuckGainRange(duck: int)
    requires DuckInRange(duck)
    ensures DUCK_BACKGROUND_GAIN <= DuckGain(duck) <= Q15_ONE
    ensures DuckGain(duck) == DUCK_BACKGROUND_GAIN <==> duck == Q15_ONE
    ensures DuckGain(duck) == Q15_ONE <==> duck <= 1
  {
  }

  /** Click-free ducking: one frame moves the background gain by at most 142 of 32768. */
  lemma DuckGainMovesSlowly(duck: int, overlap: bool)
    requires DuckInRange(duck)
    ensures Abs(DuckGain(DuckNext(duck, overlap)) - DuckGain(duck)) <= 142
    ensures if overlap then DuckGain(DuckNext(duck, overlap)) <= DuckGain(duck) else DuckGain(DuckNext(duck, overlap)) >= DuckGain(duck)
  {
  }

  lemma {:induction false} DuckRunClosedForm(duck: int, overlap: bool, n: nat)
    requires DuckInRange(duck)
    ensures DuckRun(duck, Repeat(overlap, n)) ==
            if overlap then (if n == 0 then duck else Min(duck + n * ATTACK_STEP, Q15_ONE)) else Max(duck - n * RELEASE_STEP, 0)
  {
    if n > 0 {
      DuckRunClosedForm(duck, overlap, n - 1);
      assert Repeat(overlap, n)[..n - 1] == Repeat(overlap, n - 1);
    }
  }

  /**
    After any history, 5 ms of overlapping frames brings the background to exactly 0.05 and 250 ms without
    overlap brings it back to exactly unity. One frame fewer of attack from silence is not enough.
   */
  lemma DuckSettles(duck: int, history: seq<bool>)
    requires DuckInRange(duck)
    ensures DuckGain(DuckRun(duck, history + Repeat(true, ATTACK_FRAMES))) == DUCK_BACKGROUND_GAIN
    ensures DuckGain(DuckRun(duck, history + Repeat(false, RELEASE_FRAMES))) == Q15_ONE
    ensures DuckRun(duck, history + Repeat(false, RELEASE_FRAMES)) == 0
    ensures DuckGain(DuckRun(0, Repeat(true, ATTACK_FRAMES - 1))) > DUCK_BACKGROUND_GAIN
  {
    DuckStaysInRange(duck, history);
    var reached := DuckRun(duck, history);
    FoldConcat(DuckNext, duck, history, Repeat(true, ATTACK_FRAMES));
    DuckRunClosedForm(reached, true, ATTACK_FRAMES);
    FoldConcat(DuckNext, duck, history, Repeat(false, RELEASE_FRAMES));
    DuckRunClosedForm(reached, false, RELEASE_FRAMES);
    DuckRunClosedForm(0, true, ATTACK_FRAMES - 1);
  }

  // ---- Q15 mix -----------------------------------------------------------------------------

  lemma EffectiveGainRange(gain: int, duck: int)
    requires 0 <= gain <= Q15_ONE && DuckInRange(duck)
    ensures 0 <= EffectiveGain(gain, duck) <= gain
  {
    DuckGainRange(duck);
    ProductIsMonotone(gain, 0, DuckGain(duck));
    ProductIsMonotone(gain, DuckGain(duck), Q15_ONE);
  }

  /** Every intermediate of the render expression fits the 32-bit integer it is stored in. */
  lemma MixNeverOverflows(background: int, voice: int, gain: int, duck: int)
    requires Int16(background) && Int16(voice) && 0 <= gain <= Q15_ONE && DuckInRange(duck)
    ensures Int32(duck + ATTACK_STEP) && Int32(duck * (Q15_ONE - DUCK_BACKGROUND_GAIN))
    ensures Int32(gain * DuckGain(duck))
    ensures Int32(background * EffectiveGain(gain, duck))
    ensures Int32(BackgroundTerm(background, gain, duck) + voice)
    ensures Int16(MixSample(background, voice, gain, duck))
  {
    DuckGainRange(duck);
    EffectiveGainRange(gain, duck);
    ProductIsMonotone(gain, 0, DuckGain(duck));
    ProductIsMonotone(gain, DuckGain(duck), Q15_ONE);
    ProductIsMonotone(background, 0, EffectiveGain(gain, duck));
    ProductIsMonotone(background, EffectiveGain(gain, duck), Q15_ONE);
    GainContracts(background, EffectiveGain(gain, duck));
  }

  /**
    The background contribution keeps the sign of its input, never exceeds it, shrinks as the duck
    deepens and grows with the volume setting.
   */
  lemma BackgroundTermIsMonotone(background: int, volume: nat, louder: nat, duck: int, deeper: int)
    requires volume <= louder && DuckInRange(duck) && DuckInRange(deeper) && duck <= deeper
    ensures background >= 0 ==>
              0 <= BackgroundTerm(background, BackgroundGain(volume), deeper)
                <= BackgroundTerm(background, BackgroundGain(volume), duck)
                <= BackgroundTerm(background, BackgroundGain(louder), duck) <= background
    ensures background <= 0 ==>
              0 >= BackgroundTerm(background, BackgroundGain(volume), deeper)
                >= BackgroundTerm(background, BackgroundGain(volume), duck)
                >= BackgroundTerm(background, BackgroundGain(louder), duck) >= background
  {
    var quiet, loud := BackgroundGain(volume), BackgroundGain(louder);
    GainTableIsMonotone(volume, louder);
    DuckGainRange(duck);
    DuckGainRange(deeper);
    GainIsMonotone(quiet, DuckGain(deeper), DuckGain(duck));
    GainIsMonotone(DuckGain(duck), quiet, loud);
    EffectiveGainRange(quiet, deeper);
    EffectiveGainRange(loud, duck);
    GainIsMonotone(background, EffectiveGain(quiet, deeper), EffectiveGain(quiet, duck));
    GainIsMonotone(background, EffectiveGain(quiet, duck), EffectiveGain(loud, duck));
    GainContracts(background, EffectiveGain(quiet, deeper));
    GainContracts(background, EffectiveGain(loud, duck));
  }

  /**
    Volume 0 removes the background exactly, for either sign; full volume without ducking passes it
    exactly. In both cases the voice is untouched up to the final clamp to 16 bits.
   */
  lemma VolumeEndpoints(background: int, voice: int, duck: int)
    requires Int16(background) && Int16(voice) && DuckInRange(duck)
    ensures MixSample(background, voice, BackgroundGain(0), duck) == voice
    ensures MixSample(background, voice, BackgroundGain(VOLUME_MAX), 0) == Max(-0x8000, Min(0x7FFF, background + voice))
  {
    assert EffectiveGain(0, duck) == 0;
  }

  lemma SaturateIsClamp(x: int)
    ensures Saturate(x) == Max(-0x8000, Min(0x7FFF, x))
  {
  }

  /** Each of the three products is exact up to rounding down by less than one unit of its last place. */
  lemma GainsAreProducts(sample: int, gain: int, duck: int)
    ensures 0x4000_0000 - 31130 * duck <= 32768 * DuckGain(duck) < 0x4000_0000 - 31130 * duck + 32768
    ensures 32768 * EffectiveGain(gain, duck) <= gain * DuckGain(duck) < 32768 * EffectiveGain(gain, duck) + 32768
    ensures var term := BackgroundTerm(sample, gain, duck);
            32768 * term <= sample * EffectiveGain(gain, duck) < 32768 * term + 32768
  {
  }
}
