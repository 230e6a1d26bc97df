/**
  The rotary encoder of applications/control_app.c: quarter-steps are decoded from two pin levels, two of them
  in one direction make a command, and at most four commands wait.
 */
module Encoder {
  import opened Streams

  const STEPS_PER_COMMAND := 2
  const MAX_PENDING := 4

  /** A pin pair, clk in bit 1 and dt in bit 0. */
  type Pins = x: int | 0 <= x < 4

  /** transition_table[last << 2 | current]. */
  function DecodeTransition(last: Pins, current: Pins): int {
    match 4 * last + current
    case 0 => 0 case 1 => -1 case 2 => 1 case 3 => 0
    case 4 => 1 case 5 => 0 case 6 => 0 case 7 => -1
    case 8 => -1 case 9 => 0 case 10 => 0 case 11 => 1
    case 12 => 0 case 13 => 1 case 14 => -1 case _ => 0
  }

  /** The pin pairs a shaft shows as it turns in the positive direction. */
  function PinsAt(position: int): Pins {
    match position % 4 case 0 => 0 case 1 => 2 case 2 => 3 case _ => 1
  }

  /** The table reads the quadrature code: one quarter-step is +1 or -1, and standing still or skipping one is no step. */
  lemma TableDecodesQuadrature(p: nat, q: nat)
    requires p < 4 && q < 4
    ensures PinsAt(0) == 0 && PinsAt(1) == 2 && PinsAt(2) == 3 && PinsAt(3) == 1
    ensures DecodeTransition(PinsAt(p), PinsAt(q)) == -DecodeTransition(PinsAt(q), PinsAt(p))
    ensures DecodeTransition(PinsAt(p), PinsAt(q)) == if q == p + 1 || q + 3 == p then 1 else if p == q + 1 || p + 3 == q then -1 else 0
  {
    assert p == 0 || p == 1 || p == 2 || p == 3;
    assert q == 0 || q == 1 || q == 2 || q == 3;
  }

  lemma NeighboursDecode(p: int)
    ensures DecodeTransition(PinsAt(p), PinsAt(p + 1)) == 1 && DecodeTransition(PinsAt(p + 1), PinsAt(p)) == -1
    ensures PinsAt(p) != PinsAt(p + 1)
  {
    assert (p + 1) % 4 == if p % 4 == 3 then 0 else p % 4 + 1;
  }

  datatype Knob = Knob(accumulator: int, pending: int, last: Pins)

  /** control_encoder_sample. */
  function Sample(k: Knob, current: Pins): Knob {
    if current == k.last then k
    else
      var delta := DecodeTransition(k.last, current);
      if delta == 0 then k.(accumulator := 0, last := current)
      else
        var sum := if (k.accumulator > 0 && delta < 0) || (k.accumulator < 0 && delta > 0) then delta else k.accumulator + delta;
        if sum >= STEPS_PER_COMMAND then Knob(0, if k.pending < MAX_PENDING then k.pending + 1 else k.pending, current)
        else if sum <= -STEPS_PER_COMMAND then Knob(0, if k.pending > -MAX_PENDING then k.pending - 1 else k.pending, current)
        else Knob(sum, k.pending, current)
  }

  function Samples(k: Knob, pins: seq<Pins>): Knob { Fold<Knob, Pins>(Sample, k, pins) }

  predicate InRange(k: Knob) { -1 <= k.accumulator <= 1 && -MAX_PENDING <= k.pending <= MAX_PENDING }

  /** On every run, glitches included: fewer steps than a command are held and at most four commands wait. */
  lemma {:induction false} SamplesStayInRange(k: Knob, pins: seq<Pins>)
    requires InRange(k)
    ensures InRange(Samples(k, pins))
  {
    if pins != [] { SamplesStayInRange(k, pins[..|pins| - 1]); }
  }

  function Turn(start: int, quarters: nat): seq<Pins> { seq<Pins>(quarters, (i: nat) => PinsAt(start + i + 1)) }

  lemma QuarterStep(k: Knob, p: int)
    requires k.last == PinsAt(p) && 0 <= k.accumulator <= 1 && 0 <= k.pending <= MAX_PENDING
    ensures Sample(k, PinsAt(p + 1)) ==
            if k.accumulator == 0 then Knob(1, k.pending, PinsAt(p + 1))
            else Knob(0, if k.pending < MAX_PENDING then k.pending + 1 else MAX_PENDING, PinsAt(p + 1))
  {
    NeighboursDecode(p);
  }

  function SteadyKnob(start: int, quarters: nat): Knob {
    Knob(quarters % 2, if quarters / 2 <= MAX_PENDING then quarters / 2 else MAX_PENDING, PinsAt(start + quarters))
  }

  lemma SteadyStep(start: int, quarters: nat)
    ensures Sample(SteadyKnob(start, quarters), PinsAt(start + quarters + 1)) == SteadyKnob(start, quarters + 1)
  {
    QuarterStep(SteadyKnob(start, quarters), start + quarters);
  }

  /** Turning on steadily: a command every two quarter-steps until four of them wait. */
  lemma SteadyTurnCounts(start: int, quarters: nat)
    ensures Samples(Knob(0, 0, PinsAt(start)), Turn(start, quarters)) == SteadyKnob(start, quarters)
  {
    var states: nat -> Knob := (i: nat) => SteadyKnob(start, i);
    var pins := Turn(start, quarters);
    forall i: nat | i < |pins| ensures Sample(states(i), pins[i]) == states(i + 1) { SteadyStep(start, i); }
    FoldFollows<Knob, Pins>(Sample, states, pins);
  }

  function TurnBack(start: int, quarters: nat): seq<Pins> { seq<Pins>(quarters, (i: nat) => PinsAt(start - i - 1)) }

  lemma QuarterStepBack(k: Knob, p: int)
    requires k.last == PinsAt(p) && -1 <= k.accumulator <= 0 && -MAX_PENDING <= k.pending <= 0
    ensures Sample(k, PinsAt(p - 1)) ==
            if k.accumulator == 0 then Knob(-1, k.pending, PinsAt(p - 1))
            else Knob(0, if k.pending > -MAX_PENDING then k.pending - 1 else -MAX_PENDING, PinsAt(p - 1))
  {
    NeighboursDecode(p - 1);
  }

  function SteadyKnobBack(start: int, quarters: nat): Knob {
    Knob(-(quarters % 2), if quarters / 2 <= MAX_PENDING then -(quarters / 2) else -MAX_PENDING, PinsAt(start - quarters))
  }

  lemma SteadyStepBack(start: int, quarters: nat)
    ensures Sample(SteadyKnobBack(start, quarters), PinsAt(start - quarters - 1)) == SteadyKnobBack(start, quarters + 1)
  {
    QuarterStepBack(SteadyKnobBack(start, quarters), start - quarters);
  }

  /** Turning back steadily counts the same commands downwards. */
  lemma SteadyTurnBackCounts(start: int, quarters: nat)
    ensures Samples(Knob(0, 0, PinsAt(start)), TurnBack(start, quarters)) == SteadyKnobBack(start, quarters)
  {
    var states: nat -> Knob := (i: nat) => SteadyKnobBack(start, i);
    var pins := TurnBack(start, quarters);
    forall i: nat | i < |pins| ensures Sample(states(i), pins[i]) == states(i + 1) { SteadyStepBack(start, i); }
    FoldFollows<Knob, Pins>(Sample, states, pins);
  }

  /** Turning one step against what has been gathered starts over in the new direction; a skipped step forgets it. */
  lemma ReversalsAndGlitches(k: Knob, p: int)
    requires InRange(k) && k.last == PinsAt(p)
    ensures k.accumulator == 1 ==> Sample(k, PinsAt(p - 1)) == Knob(-1, k.pending, PinsAt(p - 1))
    ensures k.accumulator == -1 ==> Sample(k, PinsAt(p + 1)) == Knob(1, k.pending, PinsAt(p + 1))
    ensures Sample(k, PinsAt(p + 2)) == Knob(0, k.pending, PinsAt(p + 2))
  {
    NeighboursDecode(p);
    NeighboursDecode(p - 1);
    SkippedStep(p);
  }

  lemma SkippedStep(p: int)
    ensures PinsAt(p) != PinsAt(p + 2) && DecodeTransition(PinsAt(p), PinsAt(p + 2)) == 0
  {
    assert (p + 2) % 4 == if p % 4 < 2 then p % 4 + 2 else p % 4 - 2;
  }

  /** A contact bouncing between two neighbouring positions. */
  function Bounce(start: int, times: nat): seq<Pins> {
    seq<Pins>(times, (i: nat) => PinsAt(if i % 2 == 0 then start + 1 else start))
  }

  /** However long a contact bounces from rest, no command is produced. */
  lemma {:induction false} BouncingIsSilent(start: int, pending: int, times: nat)
    ensures var k := Samples(Knob(0, pending, PinsAt(start)), Bounce(start, times));
            k.pending == pending
            && k.last == PinsAt(if times % 2 == 1 then start + 1 else start)
            && k.accumulator == (if times == 0 then 0 else if times % 2 == 1 then 1 else -1)
  {
    if times > 0 {
      BouncingIsSilent(start, pending, times - 1);
      assert Bounce(start, times)[..times - 1] == Bounce(start, times - 1);
      NeighboursDecode(start);
    }
  }

  class EncoderState {
    var accumulator: int
    var pendingCommands: int
    var lastState: Pins

    ghost function State(): Knob
      reads this
    {
      Knob(accumulator, pendingCommands, lastState)
    }

    constructor (pins: Pins)
      ensures State() == Knob(0, 0, pins)
    {
      accumulator, pendingCommands, lastState := 0, 0, pins;
    }

    method SamplePins(current: Pins)
      modifies this
      ensures State() == Sample(old(State()), current)
    {
      if current == lastState {
        return;
      }
      var delta := DecodeTransition(lastState, current);
      lastState := current;
      if delta == 0 {
        accumulator := 0;
        return;
      }
      if (accumulator > 0 && delta < 0) || (accumulator < 0 && delta > 0) {
        accumulator := delta;
      } else {
        accumulator := accumulator + delta;
      }
      if accumulator >= STEPS_PER_COMMAND {
        if pendingCommands < MAX_PENDING {
          pendingCommands := pendingCommands + 1;
        }
        accumulator := 0;
      } else if accumulator <= -STEPS_PER_COMMAND {
        if pendingCommands > -MAX_PENDING {
          pendingCommands := pendingCommands - 1;
        }
        accumulator := 0;
      }
    }
  }
}
