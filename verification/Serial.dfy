/** The serial path: UART events into a ring-buffer FIFO of any depth, an 8N1
    serializer at any divider, and the testbench's mid-bit receiver on the wire. */
module Serial {
  import opened Words

  // ---- uart_tx_fifo.sv ----

  datatype Fifo = Fifo(storage: seq<Byte>, writePointer: nat, readPointer: nat, count: nat, overflow: bool)
  {
    ghost predicate Valid() {
      && |storage| >= 1 && writePointer < |storage| && readPointer < |storage| && count <= |storage|
      && writePointer == Ring(readPointer, count, |storage|)
    }

    /** Oldest first. */
    ghost function Contents(): seq<Byte>
      requires Valid()
    {
      seq(count, i requires 0 <= i < count => storage[Ring(readPointer, i, |storage|)])
    }
  }

  /** `p + i` modulo the depth, for `p` a pointer and `i` at most the depth. */
  function Ring(p: nat, i: nat, depth: nat): nat
    requires p < depth && i <= depth
  {
    if p + i < depth then p + i else p + i - depth
  }

  function AdvancePointer(p: nat, depth: nat): nat { if p == depth - 1 then 0 else p + 1 }

  predicate Dequeues(f: Fifo, ready: bool) { f.count != 0 && ready }

  predicate Enqueues(f: Fifo, event: Option<Byte>, ready: bool) {
    event.Some? && (f.count < |f.storage| || Dequeues(f, ready))
  }

  function FifoClock(f: Fifo, event: Option<Byte>, ready: bool): Fifo
    requires f.Valid()
  {
    var depth := |f.storage|;
    var enqueue, dequeue := Enqueues(f, event, ready), Dequeues(f, ready);
    Fifo(if enqueue then f.storage[f.writePointer := event.value] else f.storage,
         if enqueue then AdvancePointer(f.writePointer, depth) else f.writePointer,
         if dequeue then AdvancePointer(f.readPointer, depth) else f.readPointer,
         if enqueue && !dequeue then f.count + 1 else if dequeue && !enqueue then f.count - 1 else f.count,
         f.overflow || (event.Some? && !enqueue))
  }

  /** Ring positions: stepping the base is stepping the offset, and distinct
      offsets below the depth are distinct slots. */
  lemma RingSteps(p: nat, i: nat, depth: nat)
    requires p < depth && i < depth
    ensures Ring(p, i, depth) < depth
    ensures Ring(AdvancePointer(p, depth), i, depth) == Ring(p, i + 1, depth)
    ensures AdvancePointer(Ring(p, i, depth), depth) == Ring(p, i + 1, depth)
    ensures forall j :: 0 <= j < depth && j != i ==> Ring(p, j, depth) != Ring(p, i, depth)
  {
  }

  /** The pointers and the count after an edge. */
  lemma FifoPointers(f: Fifo, event: Option<Byte>, ready: bool)
    requires f.Valid()
    ensures FifoClock(f, event, ready).Valid()
  {
    hide Ring;
    var depth := |f.storage|;
    RingZero(f.readPointer, depth);
    if f.count > 0 {
      RingSteps(f.readPointer, f.count - 1, depth);
    }
    if f.count < depth {
      RingSteps(f.readPointer, f.count, depth);
    }
    var next := AdvancePointer(f.readPointer, depth);
    RingZero(next, depth);
    if f.count == depth {
      RingSteps(next, depth - 1, depth);
    }
  }

  lemma RingZero(p: nat, depth: nat)
    requires p < depth
    ensures Ring(p, 0, depth) == p == Ring(p, depth, depth)
  {
  }

  /** A slot that stays in the queue moves by the departure only and is not overwritten. */
  lemma KeptSlot(f: Fifo, event: Option<Byte>, ready: bool, i: nat)
    requires f.Valid() && i + (if Dequeues(f, ready) then 1 else 0) < f.count
    ensures var g := FifoClock(f, event, ready);
            && g.Valid() && i < g.count
            && g.Contents()[i] == f.Contents()[if Dequeues(f, ready) then i + 1 else i]
  {
    hide Ring;
    FifoPointers(f, event, ready);
    var depth := |f.storage|;
    var j := if Dequeues(f, ready) then i + 1 else i;
    RingSteps(f.readPointer, i, depth);
    RingSteps(f.readPointer, j, depth);
    if f.count == depth {
      RingZero(f.readPointer, depth);
      RingSteps(f.readPointer, 0, depth);
    } else {
      RingSteps(f.readPointer, f.count, depth);
    }
  }

  /** An accepted event takes the last slot. */
  lemma NewSlot(f: Fifo, event: Option<Byte>, ready: bool)
    requires f.Valid() && Enqueues(f, event, ready)
    ensures var g := FifoClock(f, event, ready);
            g.Valid() && g.count > 0 && g.Contents()[g.count - 1] == event.value
  {
    hide Ring;
    FifoPointers(f, event, ready);
    var depth := |f.storage|;
    var g := FifoClock(f, event, ready);
    RingSteps(g.readPointer, g.count - 1, depth);
    if Dequeues(f, ready) {
      RingSteps(f.readPointer, f.count - 1, depth);
    }
  }

  /** Ring-buffer refinement: the clocked buffer is a queue, including the
      simultaneous enqueue and dequeue of a full buffer. */
  lemma FifoIsQueue(f: Fifo, event: Option<Byte>, ready: bool)
    requires f.Valid()
    ensures var g := FifoClock(f, event, ready);
            && g.Valid() && |g.storage| == |f.storage|
            && g.Contents() == (if Dequeues(f, ready) then f.Contents()[1..] else f.Contents())
                               + (if Enqueues(f, event, ready) then [event.value] else [])
            && (Dequeues(f, ready) ==> f.Contents()[0] == f.storage[f.readPointer])
            && |f.Contents()| == f.count
            && g.overflow == (f.overflow || (event.Some? && !Enqueues(f, event, ready)))
  {
    FifoPointers(f, event, ready);
    var g := FifoClock(f, event, ready);
    var kept := if Dequeues(f, ready) then f.Contents()[1..] else f.Contents();
    var want := kept + (if Enqueues(f, event, ready) then [event.value] else []);
    RingZero(f.readPointer, |f.storage|);
    hide Ring, Fifo.Valid;
    assert |f.Contents()| == f.count && |g.Contents()| == g.count == |want|;
    hide Fifo.Contents;
    forall i | 0 <= i < |want|
      ensures g.Contents()[i] == want[i]
    {
      if i < |kept| {
        KeptSlot(f, event, ready, i);
      } else {
        NewSlot(f, event, ready);
      }
    }
  }

  /** The pointers differ by the count modulo the depth. */
  lemma PointersDifferByCount(f: Fifo)
    requires f.Valid()
    ensures (f.writePointer - f.readPointer - f.count) % |f.storage| == 0
  {
    var d := |f.storage|;
    if f.readPointer + f.count < d {
    } else {
      assert f.writePointer - f.readPointer - f.count == -1 * d;
      assert (-1 * d) % d == 0;
    }
  }

  // ---- uart_tx_phy.sv ----

  datatype PhyState = UartIdle | UartStart | UartData | UartStop

  datatype Phy = Phy(state: PhyState, baud: nat, bit: nat, data: Byte)
  {
    ghost predicate Valid(c: nat) {
      c >= 1 && bit < 8 && baud < c && (state != UartData ==> bit == 0) && (state == UartIdle ==> baud == 0)
    }
  }

  predicate Tx(p: Phy) {
    if p.state == UartStart then false else if p.state == UartData then BitOf(p.data, p.bit) else true
  }

  predicate Ready(p: Phy) { p.state == UartIdle }

  function PhyClock(p: Phy, c: nat, valid: bool, data: Byte): Phy {
    if p.state == UartIdle then
      var q := p.(baud := 0, bit := 0);
      if valid then q.(data := data, state := UartStart) else q
    else if p.baud == c - 1 then
      var q := p.(baud := 0);
      match p.state
      case UartStart => q.(state := UartData)
      case UartData => if p.bit == 7 then q.(bit := 0, state := UartStop) else q.(bit := p.bit + 1)
      case _ => q.(state := UartIdle)
    else p.(baud := p.baud + 1)
  }

  // ---- FIFO and PHY together, under any event stream ----

  type Stream = nat -> Option<Byte>

  datatype Path = Path(fifo: Fifo, phy: Phy)
  {
    ghost predicate Valid(c: nat) { fifo.Valid() && phy.Valid(c) }
  }

  function PathClock(p: Path, c: nat, event: Option<Byte>): Path
    requires p.fifo.Valid()
  {
    Path(FifoClock(p.fifo, event, Ready(p.phy)),
         PhyClock(p.phy, c, p.fifo.count != 0, p.fifo.storage[p.fifo.readPointer]))
  }

  /** After reset: the storage contents are arbitrary. */
  ghost predicate IsResetPath(p: Path, depth: nat) {
    depth >= 1 && |p.fifo.storage| == depth && p == Path(Fifo(p.fifo.storage, 0, 0, 0, false), Phy(UartIdle, 0, 0, 0))
  }

  lemma PathKeepsValid(p: Path, c: nat, event: Option<Byte>)
    requires p.Valid(c)
    ensures PathClock(p, c, event).Valid(c) && |PathClock(p, c, event).fifo.storage| == |p.fifo.storage|
  {
    FifoIsQueue(p.fifo, event, Ready(p.phy));
  }

  ghost function PathRun(p: Path, c: nat, ev: Stream, n: nat): (r: Path)
    requires p.Valid(c)
    ensures r.Valid(c) && |r.fifo.storage| == |p.fifo.storage|
  {
    if n == 0 then p else
      PathKeepsValid(PathRun(p, c, ev, n - 1), c, ev(n - 1));
      PathClock(PathRun(p, c, ev, n - 1), c, ev(n - 1))
  }

  /** Events offered, events accepted and bytes handed to the PHY in the first n clocks. */
  ghost function Offered(ev: Stream, n: nat): seq<Byte> {
    if n == 0 then [] else Offered(ev, n - 1) + (if ev(n - 1).Some? then [ev(n - 1).value] else [])
  }

  ghost function Accepted(p: Path, c: nat, ev: Stream, n: nat): seq<Byte>
    requires p.Valid(c)
  {
    if n == 0 then [] else
      var q := PathRun(p, c, ev, n - 1);
      Accepted(p, c, ev, n - 1) + (if Enqueues(q.fifo, ev(n - 1), Ready(q.phy)) then [ev(n - 1).value] else [])
  }

  ghost function Delivered(p: Path, c: nat, ev: Stream, n: nat): seq<Byte>
    requires p.Valid(c)
  {
    if n == 0 then [] else
      var q := PathRun(p, c, ev, n - 1);
      Delivered(p, c, ev, n - 1) + (if Dequeues(q.fifo, Ready(q.phy)) then [q.fifo.storage[q.fifo.readPointer]] else [])
  }

  /** History conservation: delivered bytes followed by the queue are the accepted
      events in order, and overflow is set exactly when an event was dropped. */
  lemma {:induction false} Conservation(p: Path, c: nat, ev: Stream, n: nat)
    requires p.Valid(c) && IsResetPath(p, |p.fifo.storage|)
    ensures var q := PathRun(p, c, ev, n);
            && Delivered(p, c, ev, n) + q.fifo.Contents() == Accepted(p, c, ev, n)
            && |Accepted(p, c, ev, n)| <= |Offered(ev, n)|
            && (q.fifo.overflow <==> |Accepted(p, c, ev, n)| < |Offered(ev, n)|)
            && (!q.fifo.overflow ==> Accepted(p, c, ev, n) == Offered(ev, n))
  {
    hide FifoClock, PhyClock, Fifo.Contents, Fifo.Valid, Phy.Valid, Ready;
    if n == 0 {
      assert p.fifo.Contents() == [] by { EmptyContents(p.fifo); }
    } else {
      Conservation(p, c, ev, n - 1);
      var q := PathRun(p, c, ev, n - 1);
      FifoIsQueue(q.fifo, ev(n - 1), Ready(q.phy));
      var queue := q.fifo.Contents();
      hide PathRun;
      if Dequeues(q.fifo, Ready(q.phy)) {
        assert queue == [queue[0]] + queue[1..];
      }
    }
  }

  lemma EmptyContents(f: Fifo)
    requires f.Valid() && f.count == 0
    ensures f.Contents() == []
  {
  }
}
