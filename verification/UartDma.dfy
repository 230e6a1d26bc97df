/**
  Byte accounting of a circular receive DMA: dma_recv_isr of drivers/drv_usart_v2.c, which keeps the last counter
  value, and the simpler index arithmetic of drivers/drv_usart.c. The DMA counter is the number of transfers left
  in the current lap, so it runs from the buffer size down to 1 and reloads.
 */
module UartDma {

  datatype Flag = Idle | HalfTransfer | TransferComplete

  function Counter(n: nat, received: nat): (c: nat)
    requires n > 0
    ensures 1 <= c <= n
  {
    n - received % n
  }

  function RecvLen(flag: Flag, n: nat, remaining: nat, counter: nat): (length: nat)
    requires 1 <= remaining <= n && 1 <= counter <= n
    ensures length <= n
  {
    match flag
    case Idle => if counter <= remaining then remaining - counter else n + remaining - counter
    case HalfTransfer => if counter < remaining then remaining - counter else 0
    case TransferComplete => if counter >= remaining then n + remaining - counter else 0
  }

  // ---- One interrupt -----------------------------------------------------------------------

  lemma Multiple(k: int, n: nat)
    ensures k >= 1 ==> k * n >= n
    ensures k <= -1 ==> k * n + n <= 0
  {
    if k >= 1 {
      assert k * n == n + (k - 1) * n;
    } else if k <= -1 {
      assert k * n + n == (k + 1) * n;
    }
  }

  lemma Quotient(x: nat, q: nat, r: nat, n: nat)
    requires r < n && x == q * n + r
    ensures x / n == q && x % n == r
  {
    var k := x / n - q;
    assert k * n == x / n * n - q * n;
    Multiple(k, n);
  }

  /** Where u more bytes leave the write position, whatever number of laps they take. */
  lemma Advance(n: nat, p: nat, u: nat)
    requires n > 0
    ensures var position := p % n + u % n;
            if position < n then (p + u) % n == position && (p + u) / n == p / n + u / n
            else (p + u) % n == position - n && (p + u) / n == p / n + u / n + 1
  {
    AdvanceParts(n, p, u, p / n, p % n, u / n, u % n);
  }

  lemma AdvanceParts(n: nat, p: nat, u: nat, q: nat, r: nat, k: nat, v: nat)
    requires r < n && v < n && p == q * n + r && u == k * n + v
    ensures if r + v < n then (p + u) % n == r + v && (p + u) / n == q + k
            else (p + u) % n == r + v - n && (p + u) / n == q + k + 1
  {
    assert (q + k) * n == q * n + k * n;
    if r + v < n {
      Quotient(p + u, q + k, r + v, n);
    } else {
      assert (q + k + 1) * n == q * n + k * n + n;
      Quotient(p + u, q + k + 1, r + v - n, n);
    }
  }

  /** What each interrupt reports, for any number of bytes and laps since the last report. */
  lemma WhatIsReported(flag: Flag, n: nat, p: nat, u: nat)
    requires n > 0
    ensures RecvLen(flag, n, Counter(n, p), Counter(n, p + u)) ==
            match flag
            case Idle => u % n
            case HalfTransfer => if p % n + u % n < n then u % n else 0
            case TransferComplete => if u % n == 0 then n else if p % n + u % n >= n then u % n else 0
  {
    Advance(n, p, u);
  }

  /** An interrupt reports bytes that never came exactly when the lap interrupt finds nothing unreported. */
  lemma OverreportsExactly(flag: Flag, n: nat, p: nat, u: nat)
    requires n > 0
    ensures RecvLen(flag, n, Counter(n, p), Counter(n, p + u)) > u <==> flag == TransferComplete && u == 0
  {
    WhatIsReported(flag, n, p, u);
    WholeLaps(n, u);
  }

  lemma WholeLaps(n: nat, u: nat)
    requires n > 0
    ensures u % n <= u && (u % n == u <==> u < n)
    ensures u % n == 0 && u > 0 ==> u >= n
  {
    if u < n {
      Quotient(u, 0, u, n);
    }
  }

  /** The input: a lap interrupt right after a report. A whole buffer is reported, and nothing has come. */
  lemma SettledLapReportsABuffer(n: nat, p: nat)
    requires n > 0
    ensures RecvLen(TransferComplete, n, Counter(n, p), Counter(n, p)) == n > 0
  {
  }

  /** An idle line settles the account exactly when less than one lap is outstanding. */
  lemma IdleSettlesExactly(n: nat, p: nat, u: nat)
    requires n > 0
    ensures RecvLen(Idle, n, Counter(n, p), Counter(n, p + u)) == u <==> u < n
  {
    WhatIsReported(Idle, n, p, u);
    WholeLaps(n, u);
  }

  /** An interrupt on time reports everything outstanding or defers all of it to a later one. */
  lemma OnTimeIsAllOrNothing(flag: Flag, n: nat, p: nat, u: nat)
    requires n > 0 && OnTime(flag, n, u)
    ensures var length := RecvLen(flag, n, Counter(n, p), Counter(n, p + u));
            length == u || (length == 0 && flag != Idle)
  {
    WhatIsReported(flag, n, p, u);
    WholeLaps(n, u);
    if u == n {
      Quotient(u, 1, 0, n);
    }
  }

  predicate OnTime(flag: Flag, n: nat, u: nat) {
    if flag == TransferComplete then 1 <= u <= n else u < n
  }

  // ---- Whole runs --------------------------------------------------------------------------

  datatype Account = Account(received: nat, reported: nat, remaining: nat)

  datatype Event = Bytes(count: nat) | Interrupt(flag: Flag)

  predicate Tracked(n: nat, a: Account) { n > 0 && a.remaining == Counter(n, a.reported) }

  function Step(n: nat, a: Account, e: Event): Account
    requires n > 0 && 1 <= a.remaining <= n
  {
    match e
    case Bytes(count) => a.(received := a.received + count)
    case Interrupt(flag) =>
      var counter := Counter(n, a.received);
      var length := RecvLen(flag, n, a.remaining, counter);
      if length == 0 then a else a.(remaining := counter, reported := a.reported + length)
  }

  /** Two totals are at the same position when they differ by a multiple of the size from the same quotient on. */
  lemma SamePosition(n: nat, p: nat, r: nat, length: int)
    requires n > 0 && (length == r % n - p % n || length == n + (r % n - p % n))
    requires p + length >= 0
    ensures (p + length) % n == r % n
  {
    var q := p / n;
    if length == r % n - p % n {
      Quotient(p + length, q, r % n, n);
    } else {
      assert (q + 1) * n == q * n + n;
      Quotient(p + length, q + 1, r % n, n);
    }
  }

  lemma ReportKeepsTrack(flag: Flag, n: nat, a: Account)
    requires Tracked(n, a)
    ensures Tracked(n, Step(n, a, Interrupt(flag)))
  {
    var length := RecvLen(flag, n, a.remaining, Counter(n, a.received));
    if length != 0 {
      SamePosition(n, a.reported, a.received, length);
    }
  }

  function Run(n: nat, a: Account, events: seq<Event>): (b: Account)
    requires Tracked(n, a)
    ensures Tracked(n, b)
  {
    if events == [] then a
    else
      var before := Run(n, a, events[..|events| - 1]);
      var e := events[|events| - 1];
      assert e.Interrupt? ==> Tracked(n, Step(n, before, e)) by {
        if e.Interrupt? { ReportKeepsTrack(e.flag, n, before); }
      }
      Step(n, before, e)
  }

  /** The state in which event i of a run happens. */
  function Before(n: nat, a: Account, events: seq<Event>, i: nat): Account
    requires Tracked(n, a) && i <= |events|
  {
    Run(n, a, events[..i])
  }

  predicate NeverOverreports(n: nat, a: Account, events: seq<Event>)
    requires Tracked(n, a)
  {
    forall i :: 0 <= i <= |events| ==> Before(n, a, events, i).reported <= Before(n, a, events, i).received
  }

  /** No lap interrupt finds an already settled account. */
  predicate LapInterruptsFindBytes(n: nat, a: Account, events: seq<Event>)
    requires Tracked(n, a)
  {
    forall i :: 0 <= i < |events| && events[i] == Interrupt(TransferComplete) ==>
      Before(n, a, events, i).reported != Before(n, a, events, i).received
  }

  lemma BeforeStep(n: nat, a: Account, events: seq<Event>, i: nat)
    requires Tracked(n, a) && i < |events|
    ensures Before(n, a, events, i + 1) == Step(n, Before(n, a, events, i), events[i])
  {
    assert events[..i + 1][..i] == events[..i];
  }

  lemma StepOverreports(n: nat, a: Account, e: Event)
    requires Tracked(n, a) && a.reported <= a.received
    ensures var b := Step(n, a, e);
            b.reported <= b.received <==> !(e == Interrupt(TransferComplete) && a.reported == a.received)
  {
    if e.Interrupt? {
      OverreportsExactly(e.flag, n, a.reported, a.received - a.reported);
      assert a.reported + (a.received - a.reported) == a.received;
    }
  }

  /** Over any run and any number of wraps: no byte is reported that was not received iff no lap interrupt comes idle. */
  lemma RunsOverreportExactly(n: nat, a: Account, events: seq<Event>)
    requires Tracked(n, a) && a.reported <= a.received
    ensures NeverOverreports(n, a, events) <==> LapInterruptsFindBytes(n, a, events)
  {
    if LapInterruptsFindBytes(n, a, events) {
      forall i | 0 <= i <= |events|
        ensures Before(n, a, events, i).reported <= Before(n, a, events, i).received
      {
        OverreportFree(n, a, events, i);
      }
    }
    if NeverOverreports(n, a, events) {
      forall i | 0 <= i < |events| && events[i] == Interrupt(TransferComplete)
        ensures Before(n, a, events, i).reported != Before(n, a, events, i).received
      {
        BeforeStep(n, a, events, i);
        StepOverreports(n, Before(n, a, events, i), events[i]);
        assert Before(n, a, events, i + 1).reported <= Before(n, a, events, i + 1).received;
      }
    }
  }

  lemma {:induction false} OverreportFree(n: nat, a: Account, events: seq<Event>, i: nat)
    requires Tracked(n, a) && a.reported <= a.received && LapInterruptsFindBytes(n, a, events) && i <= |events|
    ensures Before(n, a, events, i).reported <= Before(n, a, events, i).received
  {
    if i == 0 {
      assert events[..0] == [];
    } else {
      OverreportFree(n, a, events, i - 1);
      BeforeStep(n, a, events, i - 1);
      StepOverreports(n, Before(n, a, events, i - 1), events[i - 1]);
    }
  }

  /** In such a run every idle line that comes within a lap of the last report leaves nothing outstanding. */
  lemma IdleLeavesNothing(n: nat, a: Account, events: seq<Event>, i: nat)
    requires Tracked(n, a) && a.reported <= a.received && LapInterruptsFindBytes(n, a, events)
    requires i < |events| && events[i] == Interrupt(Idle)
    ensures var before, after := Before(n, a, events, i), Before(n, a, events, i + 1);
            after.received == before.received
            && (after.reported == after.received <==> before.received - before.reported < n)
  {
    var before := Before(n, a, events, i);
    OverreportFree(n, a, events, i);
    BeforeStep(n, a, events, i);
    IdleSettlesExactly(n, before.reported, before.received - before.reported);
    assert before.reported + (before.received - before.reported) == before.received;
  }

  class DmaReceiver {
    const size: nat
    var remainingCnt: nat
    ghost var received: nat
    ghost var reported: nat

    ghost function State(): Account
      reads this
    {
      Account(received, reported, remainingCnt)
    }

    constructor (size: nat)
      requires size > 0
      ensures this.size == size && State() == Account(0, 0, size) && Tracked(size, State())
    {
      this.size, remainingCnt := size, size;
      received, reported := 0, 0;
    }

    ghost method Receive(count: nat)
      requires Tracked(size, State())
      modifies this`received
      ensures State() == Step(size, old(State()), Bytes(count)) && Tracked(size, State())
    {
      received := received + count;
    }

    /** dma_recv_isr; the counter is what the hardware register reads at that moment. */
    method RecvIsr(flag: Flag, counter: nat) returns (recvLen: nat)
      requires Tracked(size, State()) && counter == Counter(size, received)
      modifies this`remainingCnt, this`reported
      ensures State() == Step(size, old(State()), Interrupt(flag)) && Tracked(size, State())
      ensures reported == old(reported) + recvLen
    {
      recvLen := 0;
      match flag {
        case Idle =>
          if counter <= remainingCnt {
            recvLen := remainingCnt - counter;
          } else {
            recvLen := size + remainingCnt - counter;
          }
        case HalfTransfer =>
          if counter < remainingCnt {
            recvLen := remainingCnt - counter;
          }
        case TransferComplete =>
          if counter >= remainingCnt {
            recvLen := size + remainingCnt - counter;
          }
      }
      ReportKeepsTrack(flag, size, State());
      if recvLen != 0 {
        remainingCnt := counter;
        reported := reported + recvLen;
      }
    }
  }

  // ---- The simpler accounting --------------------------------------------------------------

  function Wrapped32(x: int): nat { x % 0x1_0000_0000 }

  function SimpleIdleLen(n: nat, lastIndex: nat, counter: nat): nat { Wrapped32(n - counter - lastIndex) }

  function SimpleDmaLen(n: nat, lastIndex: nat, counter: nat): nat {
    if n - counter == 0 then Wrapped32(n - lastIndex) else Wrapped32(n - counter - lastIndex)
  }

  predicate SameLap(n: nat, p: nat, u: nat)
    requires n > 0
  {
    (p + u) / n == p / n
  }

  /** The position found by a lap interrupt: in the lap of the last report, or at its very end with something new. */
  predicate InLapOrAtItsEnd(n: nat, p: nat, u: nat)
    requires n > 0
  {
    if (p + u) % n == 0 then 0 < u <= n else SameLap(n, p, u)
  }

  /** Within a lap the difference of indices is the number of bytes; past it, it is less or has wrapped. */
  lemma IndexDifference(n: nat, p: nat, u: nat)
    requires n > 0
    ensures SameLap(n, p, u) ==> (p + u) % n - p % n == u
    ensures !SameLap(n, p, u) ==> (p + u) % n - p % n < u
  {
    Advance(n, p, u);
    LapsAndRest(u, n);
    Multiple(u / n, n);
  }

  lemma LapsAndRest(u: nat, n: nat)
    requires n > 0
    ensures u == u / n * n + u % n && 0 <= u % n < n && u / n >= 0
  {
  }

  /**
    The idle branch counts right exactly when the position is still in the lap of the last report, for any number
    of bytes that a 32-bit difference of two indices could not pass for.
   */
  lemma SimpleIdleIsExact(n: nat, p: nat, u: nat)
    requires 0 < n <= 0xFFFF
    ensures SameLap(n, p, u) ==> SimpleIdleLen(n, p % n, Counter(n, p + u)) == u
    ensures SimpleIdleLen(n, p % n, Counter(n, p + u)) == u && u <= 0xFFFF_0000 ==> SameLap(n, p, u)
  {
    IndexDifference(n, p, u);
  }

  /** The inputs: ten bytes over the end of a 64-byte buffer make the difference wrap, and a whole lap makes it vanish. */
  lemma SimpleIdleMiscounts()
    ensures SimpleIdleLen(64, 60 % 64, Counter(64, 60 + 10)) == 0x1_0000_0000 - 54
    ensures SimpleIdleLen(64, 60 % 64, Counter(64, 60 + 64)) == 0
  {
  }

  /** The input: an idle report at the end of a lap followed by the lap's own interrupt counts the buffer once more. */
  lemma SimpleDmaMiscounts()
    ensures SimpleDmaLen(64, 64 % 64, Counter(64, 64)) == 64
  {
  }

  /** dma_isr also handles the very end of the lap, but then it must not have been reported before. */
  lemma SimpleDmaIsExact(n: nat, p: nat, u: nat)
    requires 0 < n <= 0xFFFF
    ensures InLapOrAtItsEnd(n, p, u) ==> SimpleDmaLen(n, p % n, Counter(n, p + u)) == u
    ensures SimpleDmaLen(n, p % n, Counter(n, p + u)) == u && u <= 0xFFFF_0000 ==> InLapOrAtItsEnd(n, p, u)
  {
    if (p + u) % n == 0 {
      AtLapEnd(n, p, u);
    } else {
      SimpleIdleIsExact(n, p, u);
    }
  }

  lemma AtLapEnd(n: nat, p: nat, u: nat)
    requires n > 0 && (p + u) % n == 0
    ensures 0 < u <= n <==> u == n - p % n
  {
    Advance(n, p, u);
    WholeLaps(n, u);
    if u == n {
      Quotient(u, 1, 0, n);
    }
  }

  // ---- Whole runs of the simpler driver ----------------------------------------------------

  /** `at` is the total at the last interrupt; the index the driver keeps is its position in the buffer. */
  datatype SimpleAccount = SimpleAccount(received: nat, reported: nat, at: nat)

  datatype SimpleEvent = Arrive(count: nat) | IdleInterrupt | LapInterrupt

  function SimpleStep(n: nat, a: SimpleAccount, e: SimpleEvent): SimpleAccount
    requires n > 0
  {
    match e
    case Arrive(count) => a.(received := a.received + count)
    case IdleInterrupt =>
      SimpleAccount(a.received, a.reported + SimpleIdleLen(n, a.at % n, Counter(n, a.received)), a.received)
    case LapInterrupt =>
      SimpleAccount(a.received, a.reported + SimpleDmaLen(n, a.at % n, Counter(n, a.received)), a.received)
  }

  function SimpleRun(n: nat, a: SimpleAccount, events: seq<SimpleEvent>): (b: SimpleAccount)
    requires n > 0 && a.at <= a.received
    ensures b.at <= b.received
  {
    if events == [] then a else SimpleStep(n, SimpleRun(n, a, events[..|events| - 1]), events[|events| - 1])
  }

  /** The state in which event i of a run happens. */
  function SimpleBefore(n: nat, a: SimpleAccount, events: seq<SimpleEvent>, i: nat): (b: SimpleAccount)
    requires n > 0 && a.at <= a.received && i <= |events|
    ensures b.at <= b.received
  {
    SimpleRun(n, a, events[..i])
  }

  /** Every interrupt comes in the lap of the one before it, or as the lap interrupt at its end. */
  predicate InTime(n: nat, a: SimpleAccount, e: SimpleEvent)
    requires n > 0 && a.at <= a.received
  {
    match e
    case Arrive(_) => true
    case IdleInterrupt => SameLap(n, a.at, a.received - a.at)
    case LapInterrupt => InLapOrAtItsEnd(n, a.at, a.received - a.at)
  }

  lemma SimpleStepIsExact(n: nat, a: SimpleAccount, e: SimpleEvent)
    requires 0 < n <= 0xFFFF && a.at <= a.received <= a.at + 0xFFFF_0000 && a.reported == a.at
    ensures var b := SimpleStep(n, a, e); b.reported == b.at <==> InTime(n, a, e)
  {
    var u := a.received - a.at;
    assert a.at + u == a.received;
    SimpleIdleIsExact(n, a.at, u);
    SimpleDmaIsExact(n, a.at, u);
  }

  /**
    Over any run: what has been reported is at every moment what had arrived at the last interrupt, so never too much
    and after every interrupt everything, if and only if every interrupt comes in time.
   */
  lemma SimpleRunsAreExact(n: nat, a: SimpleAccount, events: seq<SimpleEvent>)
    requires 0 < n <= 0xFFFF && a.at <= a.received && a.reported == a.at
    requires forall i :: 0 <= i <= |events| ==>
               SimpleBefore(n, a, events, i).received <= SimpleBefore(n, a, events, i).at + 0xFFFF_0000
    ensures (forall i :: 0 <= i <= |events| ==> SimpleBefore(n, a, events, i).reported == SimpleBefore(n, a, events, i).at)
            <==> forall i :: 0 <= i < |events| ==> InTime(n, SimpleBefore(n, a, events, i), events[i])
  {
    if forall i :: 0 <= i < |events| ==> InTime(n, SimpleBefore(n, a, events, i), events[i]) {
      forall i | 0 <= i <= |events| ensures SimpleBefore(n, a, events, i).reported == SimpleBefore(n, a, events, i).at {
        ExactUpTo(n, a, events, i);
      }
    }
    if forall i :: 0 <= i <= |events| ==> SimpleBefore(n, a, events, i).reported == SimpleBefore(n, a, events, i).at {
      forall i | 0 <= i < |events| ensures InTime(n, SimpleBefore(n, a, events, i), events[i]) {
        SimpleNext(n, a, events, i);
        assert SimpleBefore(n, a, events, i + 1).reported == SimpleBefore(n, a, events, i + 1).at;
        SimpleStepIsExact(n, SimpleBefore(n, a, events, i), events[i]);
      }
    }
  }

  lemma SimpleNext(n: nat, a: SimpleAccount, events: seq<SimpleEvent>, i: nat)
    requires n > 0 && a.at <= a.received && i < |events|
    ensures SimpleBefore(n, a, events, i + 1) == SimpleStep(n, SimpleBefore(n, a, events, i), events[i])
  {
    assert events[..i + 1][..i] == events[..i];
  }

  lemma {:induction false} ExactUpTo(n: nat, a: SimpleAccount, events: seq<SimpleEvent>, i: nat)
    requires 0 < n <= 0xFFFF && a.at <= a.received && a.reported == a.at && i <= |events|
    requires forall k :: 0 <= k <= |events| ==>
               SimpleBefore(n, a, events, k).received <= SimpleBefore(n, a, events, k).at + 0xFFFF_0000
    requires forall k :: 0 <= k < |events| ==> InTime(n, SimpleBefore(n, a, events, k), events[k])
    ensures SimpleBefore(n, a, events, i).reported == SimpleBefore(n, a, events, i).at
  {
    if i == 0 {
      assert events[..0] == [];
    } else {
      ExactUpTo(n, a, events, i - 1);
      SimpleNext(n, a, events, i - 1);
      SimpleStepIsExact(n, SimpleBefore(n, a, events, i - 1), events[i - 1]);
    }
  }

  class SimpleReceiver {
    const size: nat
    var lastIndex: nat
    ghost var received: nat
    ghost var reported: nat
    ghost var at: nat

    ghost function State(): SimpleAccount
      reads this
    {
      SimpleAccount(received, reported, at)
    }

    ghost predicate Valid()
      reads this
    {
      0 < size <= 0xFFFF && at <= received && lastIndex == at % size
    }

    constructor (size: nat)
      requires 0 < size <= 0xFFFF
      ensures this.size == size && Valid() && State() == SimpleAccount(0, 0, 0)
    {
      this.size, lastIndex := size, 0;
      received, reported, at := 0, 0, 0;
    }

    ghost method Receive(count: nat)
      requires Valid()
      modifies this`received
      ensures Valid() && State() == SimpleStep(size, old(State()), Arrive(count))
    {
      received := received + count;
    }

    /** The idle branch of uart_isr. */
    method IdleIsr(counter: nat) returns (recvLen: nat)
      requires Valid() && counter == Counter(size, received)
      modifies this`lastIndex, this`reported, this`at
      ensures Valid() && State() == SimpleStep(size, old(State()), IdleInterrupt)
      ensures reported == old(reported) + recvLen
    {
      var total := size - counter;
      recvLen := (total - lastIndex) % 0x1_0000_0000;
      lastIndex := total;
      reported, at := reported + recvLen, received;
    }

    /** dma_isr, for the half and the full lap alike. */
    method DmaIsr(counter: nat) returns (recvLen: nat)
      requires Valid() && counter == Counter(size, received)
      modifies this`lastIndex, this`reported, this`at
      ensures Valid() && State() == SimpleStep(size, old(State()), LapInterrupt)
      ensures reported == old(reported) + recvLen
    {
      var total := size - counter;
      if total == 0 {
        recvLen := (size - lastIndex) % 0x1_0000_0000;
      } else {
        recvLen := (total - lastIndex) % 0x1_0000_0000;
      }
      lastIndex := total;
      reported, at := reported + recvLen, received;
    }
  }

  // ---- Both drivers ------------------------------------------------------------------------

  /** Within one lap the two drivers report the same. */
  lemma DriversAgreeWithinALap(n: nat, p: nat, u: nat)
    requires 0 < n <= 0xFFFF && u < n && SameLap(n, p, u)
    ensures var counter := Counter(n, p + u);
            SimpleIdleLen(n, p % n, counter) == RecvLen(Idle, n, Counter(n, p), counter) == RecvLen(HalfTransfer, n, Counter(n, p), counter)
  {
    SimpleIdleIsExact(n, p, u);
    WhatIsReported(Idle, n, p, u);
    WhatIsReported(HalfTransfer, n, p, u);
    WholeLaps(n, u);
    Advance(n, p, u);
    Quotient(u, 0, u, n);
  }

  /** At the end of a lap with something outstanding they also agree. */
  lemma DriversAgreeAtTheLapEnd(n: nat, p: nat, u: nat)
    requires 0 < n <= 0xFFFF && 0 < u <= n && (p + u) % n == 0
    ensures var counter := Counter(n, p + u);
            SimpleDmaLen(n, p % n, counter) == RecvLen(TransferComplete, n, Counter(n, p), counter) == u
  {
    SimpleDmaIsExact(n, p, u);
    WhatIsReported(TransferComplete, n, p, u);
    Advance(n, p, u);
    WholeLaps(n, u);
    if u == n {
      Quotient(u, 1, 0, n);
    }
  }
}
