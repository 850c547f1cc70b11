/** How fast events may arrive, and how accurate the divider is. */
module Throughput {
  import opened Words
  import opened Serial
  import opened Wire

  // ---- Overflow ----

  /** Clocks between two bytes leaving a non-empty FIFO: ten bits and one idle clock. */
  function Period(c: nat): nat { 10 * c + 1 }

  /** Events offered in clocks u up to (not including) n. */
  ghost function Events(ev: Stream, u: nat, n: nat): nat
    requires u <= n
  {
    if n == u then 0 else Events(ev, u, n - 1) + (if ev(n - 1).Some? then 1 else 0)
  }

  /** Clocks until the serializer is idle again. */
  function Remaining(p: Phy, c: nat): int { 10 * c - Position(p, c) }

  lemma RemainingClock(p: Phy, c: nat, valid: bool, data: Byte)
    requires p.Valid(c)
    ensures var q := PhyClock(p, c, valid, data);
            && q.Valid(c) && 0 <= Remaining(q, c) <= 10 * c && 0 <= Remaining(p, c) <= 10 * c
            && (Ready(p) <==> Remaining(p, c) == 0)
            && Remaining(q, c) == (if Ready(p) then (if valid then 10 * c else 0) else Remaining(p, c) - 1)
  {
    PositionInFrame(p, c);
    PositionInFrame(PhyClock(p, c, valid, data), c);
    if !Ready(p) {
      PositionAdvances(p, c, valid, data);
    }
  }

  /** One clock of the path, in terms of queue length, overflow and the serializer's remaining time. */
  lemma PathStep(p: Path, c: nat, ev: Stream, n: nat)
    requires p.Valid(c)
    ensures var q, r := PathRun(p, c, ev, n), PathRun(p, c, ev, n + 1);
            var departs := q.fifo.count > 0 && Remaining(q.phy, c) == 0;
            var accepts := ev(n).Some? && (q.fifo.count < |p.fifo.storage| || departs);
            && departs == Dequeues(q.fifo, Ready(q.phy))
            && r.fifo.count == q.fifo.count + (if accepts then 1 else 0) - (if departs then 1 else 0)
            && r.fifo.overflow == (q.fifo.overflow || (ev(n).Some? && !accepts))
            && Remaining(r.phy, c) == (if Remaining(q.phy, c) > 0 then Remaining(q.phy, c) - 1
                                       else if q.fifo.count > 0 then 10 * c else 0)
            && 0 <= Remaining(q.phy, c) <= 10 * c && 0 <= Remaining(r.phy, c) <= 10 * c
            && q.fifo.count <= |p.fifo.storage| && c >= 1
  {
    hide Remaining, PhyClock;
    var q := PathRun(p, c, ev, n);
    RemainingClock(q.phy, c, q.fifo.count != 0, q.fifo.storage[q.fifo.readPointer]);
  }

  /** The queue is what arrived since clock u minus d departures, and
      departures have kept pace since u. */
  ghost predicate Backlog(p: Path, c: nat, ev: Stream, n: nat, u: nat, d: nat)
    requires p.Valid(c)
  {
    var q := PathRun(p, c, ev, n);
    && u <= n
    && Events(ev, u, n) == q.fifo.count + d
    && n + Remaining(q.phy, c) + 1 <= u + Times(d + 1, c)
  }

  lemma BacklogStep(p: Path, c: nat, ev: Stream, n: nat, u0: nat, d0: nat) returns (u: nat, d: nat)
    requires p.Valid(c) && Backlog(p, c, ev, n, u0, d0) && !PathRun(p, c, ev, n + 1).fifo.overflow
    ensures Backlog(p, c, ev, n + 1, u, d)
  {
    hide Fifo.Valid, Phy.Valid, Path.Valid, Dequeues, Times, Slots, Period, PathRun, Remaining, Events;
    PathStep(p, c, ev, n);
    var q := PathRun(p, c, ev, n);
    TimesStep(0, c);
    if PathRun(p, c, ev, n + 1).fifo.count == 0 {
      u, d := n + 1, 0;
      EventsStep(ev, n + 1, n + 1);
    } else if q.fifo.count == 0 {
      u, d := n, 0;
      EventsStep(ev, n, n);
    } else {
      u, d := u0, if Remaining(q.phy, c) == 0 then d0 + 1 else d0;
      EventsStep(ev, u, n);
      TimesStep(d, c);
    }
  }

  lemma BacklogStart(p: Path, c: nat, ev: Stream) returns (u: nat, d: nat)
    requires p.Valid(c) && IsResetPath(p, |p.fifo.storage|)
    ensures Backlog(p, c, ev, 0, u, d)
  {
    u, d := 0, 0;
  }

  lemma {:induction false} BacklogWindow(p: Path, c: nat, ev: Stream, n: nat) returns (u: nat, d: nat)
    requires p.Valid(c) && IsResetPath(p, |p.fifo.storage|)
    requires !PathRun(p, c, ev, n).fifo.overflow
    ensures Backlog(p, c, ev, n, u, d)
  {
    hide Backlog, PathRun, IsResetPath, Path.Valid, Fifo.Valid, Phy.Valid, Remaining, Dequeues;
    if n == 0 {
      u, d := BacklogStart(p, c, ev);
    } else {
      PathStep(p, c, ev, n - 1);
      u, d := BacklogWindow(p, c, ev, n - 1);
      u, d := BacklogStep(p, c, ev, n - 1, u, d);
    }
  }

  lemma EventsStep(ev: Stream, u: nat, n: nat)
    requires u <= n
    ensures Events(ev, u, u) == 0
    ensures Events(ev, u, n + 1) == Events(ev, u, n) + (if ev(n).Some? then 1 else 0)
  {
  }

  function Times(d: nat, c: nat): nat { d * Period(c) }

  function Quotient(x: nat, y: nat): nat
    requires y > 0
  {
    x / y
  }

  /** Whole service periods in w clocks. */
  function Slots(w: nat, c: nat): nat { Quotient(w, Period(c)) }

  lemma TimesStep(d: nat, c: nat)
    ensures Times(d + 1, c) == Times(d, c) + 10 * c + 1 && Times(0, c) == 0
  {
  }

  /** No-overflow bound: if no window of w clocks carries more than
      DEPTH + floor(w / (10 * CLKS_PER_BIT + 1)) events, overflow never sets. */
  lemma {:induction false} NoOverflow(p: Path, c: nat, ev: Stream, n: nat)
    requires p.Valid(c) && IsResetPath(p, |p.fifo.storage|)
    requires forall u: nat, t: nat :: u <= t ==> Events(ev, u, t) <= |p.fifo.storage| + Slots(t - u, c)
    ensures !PathRun(p, c, ev, n).fifo.overflow
  {
    hide Remaining, Fifo.Valid, Phy.Valid, Path.Valid, Dequeues, Times, Slots, Period;
    if n == 0 {
      assert PathRun(p, c, ev, 0) == p;
    } else {
      NoOverflow(p, c, ev, n - 1);
      hide PathRun, IsResetPath;
      if PathRun(p, c, ev, n).fifo.overflow {
        PathStep(p, c, ev, n - 1);
        var u, d := BacklogWindow(p, c, ev, n - 1);
        assert Events(ev, u, n) == |p.fifo.storage| + d + 1;
        TimesQuotient(n - u, d + 1, c);
        assert false;
      }
    }
  }

  lemma QuotientBelow(x: nat, y: nat, q: nat)
    requires y > 0 && x < q * y
    ensures x / y < q
  {
    if x / y >= q {
      assert (x / y) * y >= q * y by { MulMonotone(q, x / y, y); }
    }
  }

  lemma TimesQuotient(x: nat, q: nat, c: nat)
    ensures Times(q, c) <= x <==> q <= Slots(x, c)
  {
    if q * Period(c) <= x {
      QuotientAtLeast(x, Period(c), q);
    } else {
      QuotientBelow(x, Period(c), q);
    }
  }

  lemma MulMonotone(a: nat, b: nat, y: nat)
    requires a <= b
    ensures a * y <= b * y
  {
  }

  /** Departures from the FIFO in clocks u up to n. */
  ghost function Departures(p: Path, c: nat, ev: Stream, u: nat, n: nat): nat
    requires p.Valid(c) && u <= n
  {
    if n == u then 0 else
      var q := PathRun(p, c, ev, n - 1);
      Departures(p, c, ev, u, n - 1) + (if Dequeues(q.fifo, Ready(q.phy)) then 1 else 0)
  }

  lemma {:induction false} WindowBalance(p: Path, c: nat, ev: Stream, u: nat, n: nat)
    requires p.Valid(c) && u <= n && !PathRun(p, c, ev, n).fifo.overflow
    ensures PathRun(p, c, ev, u).fifo.count + Events(ev, u, n)
            == PathRun(p, c, ev, n).fifo.count + Departures(p, c, ev, u, n)
    ensures Times(Departures(p, c, ev, u, n), c) <= n - u + Remaining(PathRun(p, c, ev, n).phy, c)
    decreases n
  {
    hide PathRun, Remaining, Times, Dequeues, Fifo.Valid, Phy.Valid, Path.Valid;
    PathStep(p, c, ev, n);
    TimesStep(0, c);
    if n > u {
      PathStep(p, c, ev, n - 1);
      WindowBalance(p, c, ev, u, n - 1);
      TimesStep(Departures(p, c, ev, u, n - 1), c);
    }
  }

  /** The bound cannot be relaxed by more than one event: a window of w clocks
      carrying more than DEPTH + ceil(w / (10 * CLKS_PER_BIT + 1)) events overflows. */
  lemma TooFastOverflows(p: Path, c: nat, ev: Stream, u: nat, n: nat)
    requires p.Valid(c) && u <= n
    requires Events(ev, u, n) > |p.fifo.storage| + Slots(n - u + 10 * c, c)
    ensures PathRun(p, c, ev, n).fifo.overflow
  {
    hide PathRun, Remaining, Departures, Times, Slots, Period, Fifo.Valid, Phy.Valid, Path.Valid, Dequeues;
    if !PathRun(p, c, ev, n).fifo.overflow {
      WindowBalance(p, c, ev, u, n);
      PathStep(p, c, ev, n);
      PathStep(p, c, ev, u);
      TimesQuotient(n - u + 10 * c, Departures(p, c, ev, u, n), c);
    }
  }

  lemma QuotientAtLeast(x: nat, y: nat, q: nat)
    requires y > 0 && q * y <= x
    ensures q <= x / y
  {
    assert x < (x / y + 1) * y;
    if x / y < q {
      MulMonotone(x / y + 1, q, y);
    }
  }

  // ---- Spaced streams ----

  /** Two events are at least eight clocks apart. */
  ghost predicate Spaced(ev: Stream) {
    forall i: nat, j: nat :: i < j && ev(i).Some? && ev(j).Some? ==> i + 8 <= j
  }

  /** The last event of a window lies eight clocks later for each event before it. */
  lemma {:induction false} LastEvent(ev: Stream, u: nat, n: nat) returns (last: nat)
    requires u <= n && Spaced(ev) && Events(ev, u, n) >= 1
    ensures u + 8 * (Events(ev, u, n) - 1) <= last < n && ev(last).Some?
    ensures Events(ev, u, last + 1) == Events(ev, u, n)
    decreases n
  {
    if ev(n - 1).Some? {
      last := n - 1;
      if Events(ev, u, n - 1) >= 1 {
        var previous := LastEvent(ev, u, n - 1);
      }
    } else {
      last := LastEvent(ev, u, n - 1);
    }
  }

  lemma TimesDifference(a: nat, b: nat, c: nat)
    requires b <= a && c >= 1
    ensures Times(a - b, c) == Times(a, c) - Times(b, c) && Times(b, c) >= 8 * b
  {
    var y := Period(c);
    assert (a - b) * y == a * y - b * y;
    assert b * y >= b * 8 by { MulMonotone(8, y, b); }
  }

  /** A whole transmission of `total` bytes, eight clocks apart at the closest, never overflows if the
      buffer holds what the serializer cannot take away while it arrives. */
  ghost predicate Absorbed(total: nat, depth: nat, c: nat) {
    total <= depth || total <= depth + Slots(8 * total - 7, c)
  }

  lemma SpacedWindow(ev: Stream, u: nat, n: nat, total: nat, depth: nat, c: nat)
    requires u <= n && c >= 1 && Spaced(ev) && Events(ev, u, n) <= total && Absorbed(total, depth, c)
    ensures Events(ev, u, n) <= depth + Slots(n - u, c)
  {
    hide Times, Slots, Events, Spaced;
    var e := Events(ev, u, n);
    if e > depth {
      var last := LastEvent(ev, u, n);
      var served := Slots(8 * total - 7, c);
      TimesQuotient(8 * total - 7, served, c);
      TimesDifference(served, total - e, c);
      TimesQuotient(n - u, served - (total - e), c);
    }
  }

  lemma {:induction false} OfferedInWindow(ev: Stream, u: nat, n: nat)
    requires u <= n
    ensures |Offered(ev, u)| + Events(ev, u, n) == |Offered(ev, n)|
    decreases n
  {
    if u < n {
      OfferedInWindow(ev, u, n - 1);
    }
  }

  lemma SpacedNoOverflow(p: Path, c: nat, ev: Stream, total: nat, n: nat)
    requires p.Valid(c) && IsResetPath(p, |p.fifo.storage|) && Spaced(ev)
    requires (forall t: nat :: |Offered(ev, t)| <= total) && Absorbed(total, |p.fifo.storage|, c)
    ensures !PathRun(p, c, ev, n).fifo.overflow
  {
    hide PathRun, Slots, Events, Offered, Spaced, Absorbed, IsResetPath;
    forall u: nat, t: nat | u <= t
      ensures Events(ev, u, t) <= |p.fifo.storage| + Slots(t - u, c)
    {
      OfferedInWindow(ev, u, t);
      SpacedWindow(ev, u, t, total, |p.fifo.storage|, c);
    }
    NoOverflow(p, c, ev, n);
  }

  // ---- Draining ----

  ghost predicate Quiet(ev: Stream, u: nat, n: nat) { forall i: nat :: u <= i < n ==> ev(i).None? }

  /** Clocks until the path is empty and idle, if nothing more is offered. */
  ghost function Outstanding(q: Path, c: nat): int { Times(q.fifo.count, c) + Remaining(q.phy, c) }

  /** Without events the outstanding work falls by exactly one a clock. */
  lemma {:induction false} WorkFalls(p: Path, c: nat, ev: Stream, u: nat, k: nat)
    requires p.Valid(c) && Quiet(ev, u, u + k)
    ensures var w, q := Outstanding(PathRun(p, c, ev, u), c), PathRun(p, c, ev, u + k);
            && Outstanding(q, c) == (if w <= k then 0 else w - k)
            && q.fifo.overflow == PathRun(p, c, ev, u).fifo.overflow
    ensures 0 <= Outstanding(PathRun(p, c, ev, u), c) <= Times(|p.fifo.storage|, c) + 10 * c
  {
    hide PathRun, Remaining, Times, Dequeues, Fifo.Valid, Phy.Valid, Path.Valid;
    PathStep(p, c, ev, u);
    TimesMonotone(PathRun(p, c, ev, u).fifo.count, |p.fifo.storage|, c);
    if k > 0 {
      WorkFalls(p, c, ev, u, k - 1);
      PathStep(p, c, ev, u + k - 1);
      var count := PathRun(p, c, ev, u + k - 1).fifo.count;
      TimesMonotone(0, count, c);
      TimesMonotone(1, count, c);
      TimesStep(0, c);
      if count > 0 {
        TimesStep(count - 1, c);
      }
    }
  }

  lemma TimesMonotone(d: nat, e: nat, c: nat)
    ensures d <= e ==> Times(d, c) <= Times(e, c)
  {
    if d <= e {
      MulMonotone(d, e, Period(c));
    }
  }

  /** DEPTH * (10 * CLKS_PER_BIT + 1) + 10 * CLKS_PER_BIT clocks without events
      empty the FIFO and bring the serializer to rest, from any reachable state. */
  lemma Drains(p: Path, c: nat, ev: Stream, u: nat, n: nat)
    requires p.Valid(c) && Quiet(ev, u, n) && n >= u + Times(|p.fifo.storage|, c) + 10 * c
    ensures var q := PathRun(p, c, ev, n);
            q.fifo.count == 0 && Ready(q.phy) && q.fifo.overflow == PathRun(p, c, ev, u).fifo.overflow
  {
    hide PathRun, Times, Fifo.Valid, Dequeues;
    WorkFalls(p, c, ev, u, n - u);
    var q := PathRun(p, c, ev, n);
    PathStep(p, c, ev, n);
    RemainingClock(q.phy, c, false, 0);
    TimesMonotone(1, q.fifo.count, c);
    TimesMonotone(0, q.fifo.count, c);
    TimesStep(0, c);
  }

  // ---- Baud divider ----

  function RoundedDivider(clockHz: nat, baudRate: nat): nat
    requires baudRate > 0
  {
    (clockHz + baudRate / 2) / baudRate
  }

  function ClocksPerBit(clockHz: nat, baudRate: nat): nat
    requires baudRate > 0
  {
    if RoundedDivider(clockHz, baudRate) < 1 then 1 else RoundedDivider(clockHz, baudRate)
  }

  /** The divider is the nearest integer: twice the error is at most one baud. */
  lemma BaudError(clockHz: nat, baudRate: nat)
    requires baudRate > 0 && RoundedDivider(clockHz, baudRate) >= 1
    ensures var c := ClocksPerBit(clockHz, baudRate);
            0 - baudRate <= 2 * (c * baudRate - clockHz) <= baudRate
  {
    var x := clockHz + baudRate / 2;
    assert x == x / baudRate * baudRate + x % baudRate;
  }

  /** Below half a clock per bit the divider stays at one, and it is never smaller. */
  lemma DividerFloor(clockHz: nat, baudRate: nat)
    requires baudRate > 0
    ensures ClocksPerBit(clockHz, baudRate) >= 1
    ensures 2 * clockHz < baudRate ==> ClocksPerBit(clockHz, baudRate) == 1
    ensures RoundedDivider(clockHz, baudRate) >= 1 <==> clockHz + baudRate / 2 >= baudRate
  {
    var x := clockHz + baudRate / 2;
    if x >= baudRate {
      QuotientAtLeast(x, baudRate, 1);
    } else {
      QuotientBelow(x, baudRate, 1);
    }
  }

  /** Bit j of a frame: start, eight data bits, stop. */
  predicate FrameBit(b: Byte, j: nat) {
    if j == 0 then false else if j <= 8 then BitOf(b, j - 1) else true
  }

  lemma LevelInBit(b: Byte, c: nat, j: nat, t: nat)
    requires c >= 1 && j <= 9 && j * c <= t < (j + 1) * c
    ensures Tx(Frame(b, c, t)) == FrameBit(b, j)
  {
    hide Frame, BitOf;
    assert t < 10 * c by { MulMonotone(j + 1, 10, c); }
    FramePosition(b, c, t);
    var p := Frame(b, c, t);
    PositionInFrame(p, c);
    if p.state == UartStart {
      if j >= 1 { MulMonotone(1, j, c); }
    } else if p.state == UartData {
      assert c * (1 + p.bit) == (1 + p.bit) * c;
      assert (2 + p.bit) * c == (1 + p.bit) * c + c;
      if 1 + p.bit < j { MulMonotone(2 + p.bit, j, c); }
      if j < 1 + p.bit { MulMonotone(j + 1, 1 + p.bit, c); }
    } else {
      if j < 9 { MulMonotone(j + 1, 9, c); }
    }
  }

  /** The clock, counted from the falling edge, in which the middle of nominal bit j falls. */
  function NominalSample(clockHz: nat, baudRate: nat, j: nat): nat
    requires baudRate > 0
  {
    Quotient((2 * j + 1) * clockHz, 2 * baudRate)
  }

  /** A receiver at the exact nominal baud rate, sampling the middle of each of
      its bits from the falling edge, reads all ten bits of any frame when the
      divider is at least ten. */
  lemma NominalReceiver(clockHz: nat, baudRate: nat, b: Byte, j: nat)
    requires baudRate > 0 && j <= 9 && ClocksPerBit(clockHz, baudRate) >= 10
    ensures var c := ClocksPerBit(clockHz, baudRate);
            Tx(Frame(b, c, NominalSample(clockHz, baudRate, j))) == FrameBit(b, j)
  {
    var c := ClocksPerBit(clockHz, baudRate);
    BaudError(clockHz, baudRate);
    hide ClocksPerBit, RoundedDivider, Frame, Tx, FrameBit;
    SampleInBit(clockHz, baudRate, c, j);
    LevelInBit(b, c, j, NominalSample(clockHz, baudRate, j));
  }

  /** The middle of nominal bit j falls inside the transmitted bit j. */
  lemma SampleInBit(clockHz: nat, baudRate: nat, c: nat, j: nat)
    requires baudRate > 0 && j <= 9 && c >= 10 && 0 - baudRate <= 2 * (c * baudRate - clockHz) <= baudRate
    ensures j * c <= NominalSample(clockHz, baudRate, j) < (j + 1) * c
  {
    MulMonotone(10, c, baudRate);
    SampleBounds(clockHz, baudRate, c * baudRate, j);
    Reassociate(j, c, baudRate);
    Reassociate(j + 1, c, baudRate);
    QuotientAtLeast((2 * j + 1) * clockHz, 2 * baudRate, j * c);
    QuotientBelow((2 * j + 1) * clockHz, 2 * baudRate, (j + 1) * c);
  }

  lemma Reassociate(j: nat, c: nat, b: nat)
    ensures (j * c) * (2 * b) == 2 * j * (c * b)
  {
    assert (j * c) * (2 * b) == 2 * ((j * c) * b);
    assert (j * c) * b == j * (c * b);
  }

  lemma SampleBounds(f: nat, b: nat, k: nat, j: nat)
    requires 0 - b <= 2 * (k - f) <= b && k >= 10 * b && j <= 9 && b > 0
    ensures 2 * j * k <= (2 * j + 1) * f < 2 * (j + 1) * k
  {
    if j == 0 {} else if j == 1 {} else if j == 2 {} else if j == 3 {} else if j == 4 {}
    else if j == 5 {} else if j == 6 {} else if j == 7 {} else if j == 8 {} else {}
  }
}
