/** The serial blocks as clocked objects, and the testbench receiver as the loop it is. */
module SerialObjects {
  import opened Words
  import opened Serial
  import opened Wire

  class UartTxFifo {
    const storage: array<Byte>
    var writePointer: nat
    var readPointer: nat
    var count: nat
    var overflow: bool

    ghost function State(): Fifo
      reads this, storage
    {
      Fifo(storage[..], writePointer, readPointer, count, overflow)
    }

    ghost predicate Valid()
      reads this, storage
    {
      State().Valid()
    }

    constructor (depth: nat)
      requires depth >= 1
      ensures Valid() && fresh(storage) && storage.Length == depth
      ensures State() == Fifo(State().storage, 0, 0, 0, false)
    {
      storage := new Byte[depth];
      writePointer, readPointer, count, overflow := 0, 0, 0, false;
    }

    /** The out_valid and out_data wires. */
    method Head() returns (valid: bool, data: Byte)
      requires Valid()
      ensures valid == (State().count != 0) && data == State().storage[State().readPointer]
      ensures valid ==> data == State().Contents()[0]
    {
      RingZero(readPointer, storage.Length);
      valid, data := count != 0, storage[readPointer];
    }

    /** One rising edge: enqueue and dequeue decided from the state before it. The
        queue drops its head if the consumer is ready and appends the event if it
        was accepted; overflow sticks once an event is lost. */
    method PosEdge(event: Option<Byte>, ready: bool)
      requires Valid()
      modifies this, storage
      ensures Valid() && State() == FifoClock(old(State()), event, ready)
      ensures State().Contents() ==
                (if Dequeues(old(State()), ready) then old(State()).Contents()[1..] else old(State()).Contents())
                + (if Enqueues(old(State()), event, ready) then [event.value] else [])
    {
      FifoIsQueue(State(), event, ready);
      var dequeue := count != 0 && ready;
      var enqueue := event.Some? && (count < storage.Length || dequeue);
      if event.Some? && !enqueue {
        overflow := true;
      }
      if enqueue && !dequeue {
        count := count + 1;
      } else if dequeue && !enqueue {
        count := count - 1;
      }
      if dequeue {
        readPointer := AdvancePointer(readPointer, storage.Length);
      }
      if enqueue {
        storage[writePointer] := event.value;
        writePointer := AdvancePointer(writePointer, storage.Length);
      }
    }
  }

  class UartTxPhy {
    const clocksPerBit: nat
    var state: PhyState
    var baud: nat
    var bit: nat
    var data: Byte

    ghost function State(): Phy
      reads this
    {
      Phy(state, baud, bit, data)
    }

    constructor (clocksPerBit: nat)
      ensures this.clocksPerBit == clocksPerBit && State() == Phy(UartIdle, 0, 0, 0)
    {
      this.clocksPerBit := clocksPerBit;
      state, baud, bit, data := UartIdle, 0, 0, 0;
    }

    /** The tx and tx_ready wires. */
    method Wires() returns (level: bool, ready: bool)
      ensures level == Tx(State()) && ready == Ready(State())
    {
      level := if state == UartStart then false else if state == UartData then BitOf(data, bit) else true;
      ready := state == UartIdle;
    }

    method PosEdge(valid: bool, tx: Byte)
      modifies this
      ensures State() == PhyClock(old(State()), clocksPerBit, valid, tx)
    {
      if state == UartIdle {
        baud, bit := 0, 0;
        if valid {
          data, state := tx, UartStart;
        }
      } else if baud == clocksPerBit - 1 {
        baud := 0;
        if state == UartStart {
          state := UartData;
        } else if state == UartData && bit == 7 {
          bit, state := 0, UartStop;
        } else if state == UartData {
          bit := bit + 1;
        } else {
          state := UartIdle;
        }
      } else {
        baud := baud + 1;
      }
    }
  }

  // ---- receive_byte over a recorded wire ----

  /** The edge-by-edge receiver over the first n recorded periods. */
  function Heard(c: nat, wire: seq<bool>, n: nat): Receiver
    requires n <= |wire|
  {
    if n == 0 then LISTENING else ReceiverEdge(Heard(c, wire, n - 1), c, wire[n - 1])
  }

  /** Waiting out the counted edges samples the level in the last of those periods. */
  lemma {:induction false} CountsDown(c: nat, wire: seq<bool>, t: nat, left: nat, bits: seq<bool>, received: seq<Byte>,
                                      k: nat)
    requires 1 <= k <= left && t + k <= |wire|
    requires t < |wire| && ReceiverEdge(Heard(c, wire, t), c, wire[t]) == CountEdge(c, left, bits, wire[t], received)
    ensures Heard(c, wire, t + k) ==
            if k < left then Receiver(Counting(left - k, bits), received)
            else CountEdge(c, 1, bits, wire[t + k - 1], received)
  {
    if k > 1 {
      CountsDown(c, wire, t, left, bits, received, k - 1);
    }
  }

  datatype Reception = Received(value: Byte, next: nat) | FramingError(next: nat) | Starved

  /** Wait for a falling edge, then a bit and a half, then eight samples a bit
      apart, then the stop-bit check. `from` is the first period not yet heard. */
  method ReceiveByte(wire: seq<bool>, c: nat, from: nat, level: bool) returns (r: Reception)
    requires c >= 1 && from <= |wire| && Heard(c, wire, from).phase == Waiting(level)
    ensures r.Received? ==>
              && from < r.next <= |wire|
              && Heard(c, wire, r.next) == Receiver(Waiting(true), Heard(c, wire, from).received + [r.value])
    ensures r.FramingError? ==>
            r.next <= |wire| && Heard(c, wire, r.next) == Receiver(Failed, Heard(c, wire, from).received)
    ensures r.Starved? ==>
              Heard(c, wire, |wire|).phase != Failed && Heard(c, wire, |wire|).received == Heard(c, wire, from).received
  {
    ghost var received := Heard(c, wire, from).received;
    var t, before := from, level;
    while t < |wire| && !(before && !wire[t])
      invariant from <= t <= |wire| && Heard(c, wire, t) == Receiver(Waiting(before), received)
    {
      before := wire[t];
      t := t + 1;
    }
    if t == |wire| {
      return Starved;
    }
    var edges, bits := c + c / 2, [];
    while |bits| < 8
      invariant from <= t <= |wire| && edges >= 1 && |bits| <= 8
      invariant t < |wire| ==>
                ReceiverEdge(Heard(c, wire, t), c, wire[t]) == CountEdge(c, edges, bits, wire[t], received)
      invariant t == |wire| ==> Heard(c, wire, t) == Receiver(Counting(edges, bits), received)
      decreases 8 - |bits|
    {
      if t + edges > |wire| {
        if t < |wire| {
          CountsDown(c, wire, t, edges, bits, received, |wire| - t);
        }
        return Starved;
      }
      CountsDown(c, wire, t, edges, bits, received, edges);
      t := t + edges;
      bits := bits + [wire[t - 1]];
      edges := c;
    }
    if t + edges > |wire| {
      if t < |wire| {
        CountsDown(c, wire, t, edges, bits, received, |wire| - t);
      }
      return Starved;
    }
    CountsDown(c, wire, t, edges, bits, received, edges);
    t := t + edges;
    if !wire[t - 1] {
      return FramingError(t);
    }
    r := Received(FromBits(bits) % 0x100, t);
  }

  /** The testbench's outer loop: every complete byte on the wire. */
  method ReceiveAll(wire: seq<bool>, c: nat) returns (bytes: seq<Byte>, framed: bool)
    requires c >= 1
    ensures framed ==> bytes == Heard(c, wire, |wire|).received && Heard(c, wire, |wire|).phase != Failed
    ensures !framed ==> Heard(c, wire, |wire|).phase == Failed
  {
    bytes := [];
    var at := 0;
    while true
      invariant at <= |wire| && Heard(c, wire, at) == Receiver(Waiting(true), bytes)
      decreases |wire| - at
    {
      var r := ReceiveByte(wire, c, at, true);
      match r
      case Received(value, next) => bytes, at := bytes + [value], next;
      case Starved => return bytes, true;
      case FramingError(next) =>
        FailedStays(c, wire, next, |wire|);
        return bytes, false;
    }
  }

  lemma {:induction false} FailedStays(c: nat, wire: seq<bool>, i: nat, n: nat)
    requires i <= n <= |wire| && Heard(c, wire, i).phase == Failed
    ensures Heard(c, wire, n).phase == Failed
  {
    if i < n {
      FailedStays(c, wire, i, n - 1);
    }
  }

  /** The recorded wire of a run of the serial path. */
  ghost function Recording(p: Path, c: nat, ev: Stream, n: nat): (w: seq<bool>)
    requires p.Valid(c)
    ensures |w| == n
  {
    if n == 0 then [] else Recording(p, c, ev, n - 1) + [Tx(PathRun(p, c, ev, n - 1).phy)]
  }

  lemma {:induction false} RecordingIsHeard(p: Path, c: nat, ev: Stream, n: nat)
    requires p.Valid(c)
    ensures Heard(c, Recording(p, c, ev, n), n) == Listen(p, c, ev, n)
  {
    hide PathRun, ReceiverEdge, Path.Valid;
    if n > 0 {
      RecordingIsHeard(p, c, ev, n - 1);
      HeardPrefix(c, Recording(p, c, ev, n - 1), Recording(p, c, ev, n), n - 1);
    }
  }

  lemma {:induction false} HeardPrefix(c: nat, a: seq<bool>, b: seq<bool>, n: nat)
    requires n <= |a| && a <= b
    ensures Heard(c, a, n) == Heard(c, b, n)
  {
    hide ReceiverEdge;
    if n > 0 {
      HeardPrefix(c, a, b, n - 1);
    }
  }
}
