/**
  drivers/drv_pwm.c: nanoseconds to timer registers and back. `clock` is the timer clock in MHz, so a tick is
  1000 / clock ns; the words of the code are 32 bits wide and its intermediate products 64.
 */
module PwmTimer {

  function Word(x: nat): nat { x % 0x1_0000_0000 }

  predicate IsWord(x: nat) { x < 0x1_0000_0000 }

  /** The timer clock of a 32-bit frequency in Hz. */
  predicate IsClock(clock: nat) { 1 <= clock <= 4294 }

  function Ticks(ns: nat, clock: nat): nat { Word(ns * clock / 1000) }

  function Prescaler(ticks: nat): (psc: nat)
    ensures psc >= 1
  {
    ticks / 65535 + 1
  }

  function PeriodCounts(ticks: nat): nat {
    var counts := ticks / Prescaler(ticks);
    if counts < 3 then 3 else counts
  }

  function PulseCounts(pulse: nat, clock: nat, psc: nat, periodCounts: nat): nat
    requires psc >= 1
  {
    var counts := Word(pulse * clock / psc / 1000);
    if counts < 2 then 2 else if counts > periodCounts then periodCounts else counts
  }

  /** The conversion back: a 32-bit product, then a division. */
  function Nanoseconds(counts: nat, psc: nat, clock: nat): nat
    requires clock >= 1
  {
    WordQuotient(counts * psc * 1000, clock)
  }

  function WordQuotient(product: nat, clock: nat): nat
    requires clock >= 1
  {
    Word(product) / clock
  }

  class Timer {
    var autoReload: nat
    var prescaler: nat
    var compare: nat
    var counter: nat

    constructor ()
      ensures autoReload == prescaler == compare == counter == 0
    {
      autoReload, prescaler, compare, counter := 0, 0, 0, 0;
    }

    /** drv_pwm_set. */
    method Set(period: nat, pulse: nat, clock: nat)
      requires IsWord(period) && IsWord(pulse) && IsClock(clock)
      modifies this
      ensures var ticks := Ticks(period, clock);
              prescaler == Prescaler(ticks) - 1 && autoReload == PeriodCounts(ticks) - 1
              && compare == PulseCounts(pulse, clock, Prescaler(ticks), PeriodCounts(ticks)) - 1 && counter == 0
      ensures 1 <= compare <= autoReload <= 65533 && prescaler <= 65537
    {
      var counts := period * clock / 1000 % 0x1_0000_0000;
      var psc := counts / 65535 + 1;
      PeriodFits(counts);
      counts := counts / psc;
      prescaler := psc - 1;
      if counts < 3 {
        counts := 3;
      }
      autoReload := counts - 1;
      var width := pulse * clock / psc / 1000 % 0x1_0000_0000;
      if width < 2 {
        width := 2;
      } else if width > counts {
        width := counts;
      }
      compare := width - 1;
      counter := 0;
    }

    /** drv_pwm_get, with the clock division it reads from the timer already applied to the clock. */
    method Get(clock: nat) returns (period: nat, pulse: nat)
      requires IsClock(clock)
      ensures period == Nanoseconds(autoReload + 1, prescaler + 1, clock)
      ensures pulse == Nanoseconds(compare + 1, prescaler + 1, clock)
    {
      period := (autoReload + 1) * (prescaler + 1) * 1000 % 0x1_0000_0000 / clock;
      pulse := (compare + 1) * (prescaler + 1) * 1000 % 0x1_0000_0000 / clock;
    }
  }

  // ---- What set can produce ----------------------------------------------------------------

  lemma DivisionBounds(x: nat, d: nat)
    requires d > 0
    ensures x / d * d <= x < x / d * d + d
  {
  }

  lemma Sign(k: int, d: nat)
    ensures k >= 0 ==> k * d >= 0
    ensures k >= 1 ==> k * d >= d
  {
    if k >= 1 {
      assert k * d == d + (k - 1) * d;
    }
  }

  lemma QuotientBelow(x: nat, d: nat, bound: nat)
    requires d > 0 && x < bound * d
    ensures x / d < bound
  {
    DivisionBounds(x, d);
    assert x / d * d == bound * d + (x / d - bound) * d;
    Sign(x / d - bound, d);
  }

  /** The prescaler is just large enough for the period to fit the 16-bit counter. */
  lemma PeriodFits(ticks: nat)
    requires IsWord(ticks)
    ensures 3 <= PeriodCounts(ticks) <= 65534 && 1 <= Prescaler(ticks) <= 65538
    ensures ticks < 3 ==> PeriodCounts(ticks) == 3
  {
    QuotientBelow(ticks, Prescaler(ticks), 65535);
  }

  /** The duty cycle is never empty and never longer than the period. */
  lemma PulseFits(period: nat, pulse: nat, clock: nat)
    requires IsWord(period) && IsWord(pulse) && IsClock(clock)
    ensures var ticks := Ticks(period, clock);
            2 <= PulseCounts(pulse, clock, Prescaler(ticks), PeriodCounts(ticks)) <= PeriodCounts(ticks) <= 65534
  {
    PeriodFits(Ticks(period, clock));
  }

  /** And no larger: it is the least one under which the period stays below 65535 counts. */
  lemma PrescalerIsLeast(ticks: nat, psc: nat)
    requires psc >= 1
    ensures ticks < 65535 * psc <==> Prescaler(ticks) <= psc
  {
  }

  /** The prescaler fits its own 16-bit register exactly when the period is below 65535 * 65536 ticks. */
  lemma PrescalerFits(ticks: nat)
    requires IsWord(ticks)
    ensures Prescaler(ticks) - 1 <= 65535 <==> ticks < 65535 * 65536
  {
  }

  // ---- Reading back ------------------------------------------------------------------------

  /** How far counts that were rounded down from ns may fall short: less than one prescaled tick and one nanosecond. */
  predicate WithinOneTick(ns: nat, readBack: nat, psc: nat, clock: nat) {
    readBack <= ns && (ns - readBack - 1) * clock < 1000 * psc
  }

  /** Counts c with c * psc * 1000 in (ns * clock - 1000 * psc, ns * clock] read back within a tick iff the product fits. */
  lemma ReadBack(ns: nat, counts: nat, psc: nat, clock: nat)
    requires IsClock(clock) && 1 <= psc <= 65538 && IsWord(ns)
    requires counts * psc * 1000 <= ns * clock < counts * psc * 1000 + 1000 * psc
    ensures WithinOneTick(ns, Nanoseconds(counts, psc, clock), psc, clock) <==> counts * psc * 1000 < 0x1_0000_0000
  {
    ReadBackProduct(ns, counts * psc * 1000, psc, clock);
  }

  lemma ReadBackProduct(ns: nat, product: nat, psc: nat, clock: nat)
    requires IsClock(clock) && 1 <= psc <= 65538 && IsWord(ns)
    requires product <= ns * clock < product + 1000 * psc
    ensures WithinOneTick(ns, WordQuotient(product, clock), psc, clock) <==> product < 0x1_0000_0000
  {
    var low := Word(product);
    var got := WordQuotient(product, clock);
    DivisionBounds(low, clock);
    NotAbove(ns, got, low, clock);
    Shortfall(ns, got, clock);
    assert if product < 0x1_0000_0000 then low == product else low <= product - 0x1_0000_0000;
  }

  lemma NotAbove(ns: nat, got: nat, low: nat, clock: nat)
    requires got * clock <= low <= ns * clock && clock >= 1
    ensures got <= ns
  {
    assert got * clock == ns * clock + (got - ns) * clock;
    Sign(got - ns, clock);
  }

  lemma Shortfall(ns: nat, got: nat, clock: nat)
    ensures (ns - got - 1) * clock == ns * clock - got * clock - clock
  {
  }

  lemma PeriodRounding(period: nat, clock: nat)
    requires period * clock / 1000 < 0x1_0000_0000
    requires Ticks(period, clock) >= 3
    ensures var ticks := Ticks(period, clock);
            var made := PeriodCounts(ticks) * Prescaler(ticks) * 1000;
            made <= period * clock < made + 1000 * Prescaler(ticks)
  {
    var ticks := Ticks(period, clock);
    DivisionBounds(ticks, Prescaler(ticks));
    LargeEnough(ticks);
  }

  /** Three ticks or more never come out below the smallest period. */
  lemma LargeEnough(ticks: nat)
    requires ticks >= 3
    ensures PeriodCounts(ticks) == ticks / Prescaler(ticks)
  {
    if ticks >= 65535 {
      DivisionBounds(ticks, Prescaler(ticks));
      AtLeastThree(ticks, Prescaler(ticks));
    }
  }

  lemma AtLeastThree(x: nat, d: nat)
    requires d > 0 && x >= 3 * d
    ensures x / d >= 3
  {
    DivisionBounds(x, d);
    assert x / d * d + (3 - x / d) * d == 3 * d;
    Sign(3 - x / d, d);
  }

  /**
    The period read back after a set, when its tick count fits a word and is not clamped: never longer than the one
    asked for, and short by less than a prescaled tick and a nanosecond, exactly when the product of get fits a word.
   */
  lemma PeriodRoundTrip(period: nat, clock: nat)
    requires IsWord(period) && IsClock(clock)
    requires period * clock / 1000 < 0x1_0000_0000 && Ticks(period, clock) >= 3
    ensures var ticks := Ticks(period, clock);
            WithinOneTick(period, Nanoseconds(PeriodCounts(ticks), Prescaler(ticks), clock), Prescaler(ticks), clock)
            <==> PeriodCounts(ticks) * Prescaler(ticks) * 1000 < 0x1_0000_0000
  {
    var ticks := Ticks(period, clock);
    PeriodFits(ticks);
    PeriodRounding(period, clock);
    ReadBack(period, PeriodCounts(ticks), Prescaler(ticks), clock);
  }

  lemma DivideTwice(x: nat, d: nat)
    requires d > 0
    ensures x / d / 1000 * (1000 * d) <= x < x / d / 1000 * (1000 * d) + 1000 * d
  {
    var q := x / d;
    DivisionBounds(x, d);
    DivisionBounds(q, 1000);
    var w := q / 1000;
    assert w * (1000 * d) == w * 1000 * d;
    assert w * 1000 * d <= q * d by { Scale(w * 1000, q, d); }
    assert (q + 1) * d <= (w * 1000 + 1000) * d by { Scale(q + 1, w * 1000 + 1000, d); }
    assert (q + 1) * d == q * d + d && (w * 1000 + 1000) * d == w * 1000 * d + 1000 * d;
  }

  lemma Scale(a: nat, b: nat, d: nat)
    requires a <= b
    ensures a * d <= b * d
  {
    assert b * d == a * d + (b - a) * d;
  }

  /** What a get after a set returns. */
  function ReadPeriod(period: nat, clock: nat): nat
    requires IsClock(clock)
  {
    Nanoseconds(PeriodCounts(Ticks(period, clock)), Prescaler(Ticks(period, clock)), clock)
  }

  function ReadPulse(pulse: nat, clock: nat, psc: nat, periodCounts: nat): nat
    requires IsClock(clock) && psc >= 1
  {
    Nanoseconds(PulseCounts(pulse, clock, psc, periodCounts), psc, clock)
  }

  /** The pulse in counts before any clamp. */
  function PulseWanted(pulse: nat, clock: nat, psc: nat): nat
    requires psc >= 1
  {
    pulse * clock / psc / 1000
  }

  /** The same for the pulse, when it is neither clamped to the minimum nor to the period. */
  lemma PulseRoundTrip(pulse: nat, clock: nat, psc: nat, periodCounts: nat)
    requires IsWord(pulse) && IsClock(clock) && 1 <= psc <= 65538
    requires 2 <= PulseWanted(pulse, clock, psc) <= periodCounts <= 65534
    ensures var counts := PulseCounts(pulse, clock, psc, periodCounts);
            WithinOneTick(pulse, ReadPulse(pulse, clock, psc, periodCounts), psc, clock) <==> counts * psc * 1000 < 0x1_0000_0000
  {
    var counts := pulse * clock / psc / 1000;
    DivideTwice(pulse * clock, psc);
    assert counts * (1000 * psc) == counts * psc * 1000;
    ReadBack(pulse, counts, psc, clock);
  }

  /** Set and get on one timer. */
  method SetThenGet(timer: Timer, period: nat, pulse: nat, clock: nat) returns (gotPeriod: nat, gotPulse: nat)
    requires IsWord(period) && IsWord(pulse) && IsClock(clock)
    modifies timer
    ensures var ticks := Ticks(period, clock);
            period * clock / 1000 < 0x1_0000_0000 && ticks >= 3 ==>
              (WithinOneTick(period, gotPeriod, Prescaler(ticks), clock)
               <==> PeriodCounts(ticks) * Prescaler(ticks) * 1000 < 0x1_0000_0000)
    ensures var (ticks, counts) := (Ticks(period, clock), PulseWanted(pulse, clock, Prescaler(Ticks(period, clock))));
            2 <= counts <= PeriodCounts(ticks) ==>
              (WithinOneTick(pulse, gotPulse, Prescaler(ticks), clock) <==> counts * Prescaler(ticks) * 1000 < 0x1_0000_0000)
  {
    timer.Set(period, pulse, clock);
    gotPeriod, gotPulse := timer.Get(clock);
    var ticks := Ticks(period, clock);
    PeriodFits(ticks);
    assert gotPeriod == ReadPeriod(period, clock) && gotPulse == ReadPulse(pulse, clock, Prescaler(ticks), PeriodCounts(ticks));
    if period * clock / 1000 < 0x1_0000_0000 && ticks >= 3 {
      PeriodRoundTrip(period, clock);
    }
    if 2 <= PulseWanted(pulse, clock, Prescaler(ticks)) <= PeriodCounts(ticks) {
      PulseRoundTrip(pulse, clock, Prescaler(ticks), PeriodCounts(ticks));
    }
  }

  /** The input: 100 ms at 84 MHz make 129 * 65116 ticks, and the product of get no longer fits a word. */
  lemma HundredMillisecondsReadBackWrong()
    ensures var (period, clock) := (100_000_000, 84);
            var ticks := Ticks(period, clock);
            Prescaler(ticks) == 129 && PeriodCounts(ticks) == 65116
            && !WithinOneTick(period, Nanoseconds(PeriodCounts(ticks), Prescaler(ticks), clock), Prescaler(ticks), clock)
  {
    PeriodRoundTrip(100_000_000, 84);
  }
}
