/** Decoding the wire: the testbench's mid-bit receiver recovers the bytes the
    serializer was given, for every divider of at least two clocks per bit. */
module Wire {
  import opened Words
  import opened Serial

  // ---- receive_byte, one rising edge at a time ----

  /** Waiting remembers the previous level; Counting holds the rising edges left
      until the next sample and the data bits sampled so far. */
  datatype Phase = Waiting(level: bool) | Counting(left: nat, bits: seq<bool>) | Failed

  datatype Receiver = Receiver(phase: Phase, received: seq<Byte>)

  /** One of the edges being counted; at the last one the level is sampled, and
      after eight data bits that sample is the stop-bit check. */
  function CountEdge(c: nat, left: nat, bits: seq<bool>, level: bool, received: seq<Byte>): Receiver {
    if left > 1 then Receiver(Counting(left - 1, bits), received)
    else if |bits| < 8 then Receiver(Counting(c, bits + [level]), received)
    else if level then Receiver(Waiting(level), received + [FromBits(bits) % 0x100])
    else Receiver(Failed, received)
  }

  /** `level` is the wire during the period this edge ends. A falling edge at
      the start of the period makes this the first edge counted. */
  function ReceiverEdge(r: Receiver, c: nat, level: bool): Receiver {
    match r.phase
    case Waiting(before) =>
      if before && !level then CountEdge(c, c + c / 2, [], level, r.received) else Receiver(Waiting(level), r.received)
    case Counting(left, bits) => CountEdge(c, left, bits, level, r.received)
    case Failed => r
  }

  const LISTENING := Receiver(Waiting(true), [])

  // ---- Bits of a byte ----

  function DataBits(b: nat, k: nat): seq<bool> {
    if k == 0 then [] else DataBits(b, k - 1) + [BitOf(b, k - 1)]
  }

  lemma {:induction false} DataBitsFront(b: nat, k: nat)
    ensures DataBits(b, k + 1) == [b % 2 == 1] + DataBits(b / 2, k)
    ensures |DataBits(b, k)| == k
  {
    if k == 0 {
      assert DataBits(b, 1) == DataBits(b, 0) + [BitOf(b, 0)];
    } else {
      DataBitsFront(b, k - 1);
      assert DataBits(b, k + 1) == DataBits(b, k) + [BitOf(b, k)];
      assert DataBits(b / 2, k) == DataBits(b / 2, k - 1) + [BitOf(b / 2, k - 1)];
    }
  }

  lemma {:induction false} BitsRoundTrip(b: nat, k: nat)
    requires b < Pow2(k)
    ensures FromBits(DataBits(b, k)) == b
  {
    if k > 0 {
      DataBitsFront(b, k - 1);
      BitsRoundTrip(b / 2, k - 1);
      assert DataBits(b, k)[1..] == DataBits(b / 2, k - 1);
    }
  }

  lemma ByteRoundTrip(b: Byte)
    ensures FromBits(DataBits(b, 8)) == b && |DataBits(b, 8)| == 8
  {
    assert Pow2(8) == 256 by {
      assert Pow2(4) == 16;
    }
    BitsRoundTrip(b, 8);
    DataBitsFront(b, 8);
  }

  // ---- The receiver follows the serializer ----

  /** The receiver's position is a function of the serializer's. */
  ghost predicate Follows(r: Receiver, p: Phy, c: nat)
    requires p.Valid(c)
  {
    var h := c / 2;
    match p.state
    case UartIdle => r.phase == Waiting(true)
    case UartStart => r.phase == if p.baud == 0 then Waiting(true) else Counting(c + h - p.baud, [])
    case UartData =>
      r.phase == if p.baud < h then Counting(h - p.baud, DataBits(p.data, p.bit))
                 else Counting(c + h - p.baud, DataBits(p.data, p.bit + 1))
    case UartStop =>
      r.phase == if p.baud < h then Counting(h - p.baud, DataBits(p.data, 8)) else Waiting(true)
  }

  /** The byte handed to the serializer and not yet decoded at the other end. */
  function OnTheWire(p: Phy, c: nat): seq<Byte> {
    if p.state == UartIdle || (p.state == UartStop && p.baud >= c / 2) then [] else [p.data]
  }

  lemma ReceiverFollows(r: Receiver, p: Phy, c: nat, valid: bool, data: Byte)
    requires p.Valid(c) && c >= 2 && Follows(r, p, c)
    ensures var q, t := PhyClock(p, c, valid, data), ReceiverEdge(r, c, Tx(p));
            && q.Valid(c) && Follows(t, q, c)
            && t.received + OnTheWire(q, c)
               == r.received + OnTheWire(p, c) + (if valid && Ready(p) then [data] else [])
  {
    hide BitOf, FromBits, DataBits;
    assert DataBits(p.data, 0) == []
           && forall k: nat :: DataBits(p.data, k + 1) == DataBits(p.data, k) + [BitOf(p.data, k)]
      by { BitsGrow(p.data); }
    BitCounts(p.data);
    ByteRoundTrip(p.data);
  }

  lemma BitsGrow(b: nat)
    ensures DataBits(b, 0) == [] && forall k: nat :: DataBits(b, k + 1) == DataBits(b, k) + [BitOf(b, k)]
  {
  }

  lemma BitCounts(b: nat)
    ensures forall k: nat :: |DataBits(b, k)| == k
  {
    forall k: nat
      ensures |DataBits(b, k)| == k
    {
      DataBitsFront(b, k);
    }
  }

  // ---- Runs ----

  ghost function Listen(p: Path, c: nat, ev: Stream, n: nat): Receiver
    requires p.Valid(c)
  {
    if n == 0 then LISTENING else ReceiverEdge(Listen(p, c, ev, n - 1), c, Tx(PathRun(p, c, ev, n - 1).phy))
  }

  /** At every clock the decoded bytes, the byte on the wire and the queue are
      together exactly the accepted events, in order. */
  lemma {:induction false} WireDecodes(p: Path, c: nat, ev: Stream, n: nat)
    requires p.Valid(c) && IsResetPath(p, |p.fifo.storage|) && c >= 2
    ensures var q, r := PathRun(p, c, ev, n), Listen(p, c, ev, n);
            && Follows(r, q.phy, c)
            && r.received + OnTheWire(q.phy, c) == Delivered(p, c, ev, n)
            && r.received + OnTheWire(q.phy, c) + q.fifo.Contents() == Accepted(p, c, ev, n)
  {
    hide FifoClock, PhyClock, Follows, OnTheWire, Fifo.Contents, ReceiverEdge;
    Conservation(p, c, ev, n);
    if n == 0 {
      StartsFollowing(p.phy, c);
    } else {
      WireDecodes(p, c, ev, n - 1);
      var q := PathRun(p, c, ev, n - 1);
      ReceiverFollows(Listen(p, c, ev, n - 1), q.phy, c, q.fifo.count != 0, q.fifo.storage[q.fifo.readPointer]);
    }
  }

  lemma StartsFollowing(p: Phy, c: nat)
    requires p.state == UartIdle && p.Valid(c)
    ensures Follows(LISTENING, p, c) && OnTheWire(p, c) == []
  {
  }

  /** The decoded bytes are a prefix of what was offered as long as nothing
      overflowed, and all of it once the queue is empty and the serializer idle. */
  lemma DecodedIsPrefix(p: Path, c: nat, ev: Stream, n: nat)
    requires p.Valid(c) && IsResetPath(p, |p.fifo.storage|) && c >= 2
    ensures var q, r := PathRun(p, c, ev, n), Listen(p, c, ev, n);
            && r.phase != Failed
            && (!q.fifo.overflow ==> r.received <= Offered(ev, n))
            && (!q.fifo.overflow && q.fifo.count == 0 && Ready(q.phy) ==> r.received == Offered(ev, n))
  {
    hide FifoClock, PhyClock, Fifo.Contents, ReceiverEdge, PathRun;
    WireDecodes(p, c, ev, n);
    Conservation(p, c, ev, n);
    var q := PathRun(p, c, ev, n);
    if q.fifo.count == 0 {
      EmptyContents(q.fifo);
    }
  }

  // ---- One frame, at every divider ----

  /** The serializer k clocks into a frame carrying b, with nothing queued behind it. */
  function Frame(b: Byte, c: nat, k: nat): Phy {
    if k == 0 then Phy(UartStart, 0, 0, b) else PhyClock(Frame(b, c, k - 1), c, false, 0)
  }

  /** The receiver over the first k periods of that frame, after an idle line. */
  function Hear(b: Byte, c: nat, k: nat): Receiver {
    if k == 0 then LISTENING else ReceiverEdge(Hear(b, c, k - 1), c, Tx(Frame(b, c, k - 1)))
  }

  /** Clocks since the frame began. */
  function Position(p: Phy, c: nat): nat {
    match p.state
    case UartStart => p.baud
    case UartData => c * (1 + p.bit) + p.baud
    case UartStop => 9 * c + p.baud
    case UartIdle => 10 * c
  }

  lemma PositionAdvances(p: Phy, c: nat, valid: bool, data: Byte)
    requires p.Valid(c) && p.state != UartIdle
    ensures var q := PhyClock(p, c, valid, data);
            q.Valid(c) && Position(q, c) == Position(p, c) + 1 && q.data == p.data
  {
    if p.state == UartData && p.bit < 7 {
      assert c * (2 + p.bit) == c * (1 + p.bit) + c;
    }
  }

  lemma PositionInFrame(p: Phy, c: nat)
    requires p.Valid(c)
    ensures p.state == UartStart || p.state == UartData ==> Position(p, c) < 9 * c
    ensures p.state == UartStop ==> 9 * c <= Position(p, c) < 10 * c
  {
    if p.state == UartData {
      assert c * (1 + p.bit) <= c * 8;
    }
  }

  lemma {:induction false} FramePosition(b: Byte, c: nat, k: nat)
    requires c >= 1 && k <= 10 * c
    ensures var p := Frame(b, c, k);
            p.Valid(c) && Position(p, c) == k && p.data == b && (k < 10 * c ==> p.state != UartIdle)
  {
    if k > 0 {
      FramePosition(b, c, k - 1);
      PositionAdvances(Frame(b, c, k - 1), c, false, 0);
    }
  }

  lemma {:induction false} HearFollows(b: Byte, c: nat, k: nat)
    requires c >= 2 && k <= 10 * c
    ensures Frame(b, c, k).Valid(c)
    ensures Follows(Hear(b, c, k), Frame(b, c, k), c)
    ensures Hear(b, c, k).received + OnTheWire(Frame(b, c, k), c) == [b]
  {
    hide PhyClock, ReceiverEdge, Follows, OnTheWire, Position;
    if k == 0 {
      FrameStart(b, c);
    } else {
      HearFollows(b, c, k - 1);
      FramePosition(b, c, k - 1);
      ReceiverFollows(Hear(b, c, k - 1), Frame(b, c, k - 1), c, false, 0);
    }
  }

  lemma FrameStart(b: Byte, c: nat)
    requires c >= 1
    ensures Follows(LISTENING, Phy(UartStart, 0, 0, b), c) && OnTheWire(Phy(UartStart, 0, 0, b), c) == [b]
  {
  }

  /** The receiver reads a frame, whatever byte it carries, exactly when the
      divider is at least two. At one clock per bit every sample falls one period
      early: start and the first seven data bits are taken for the data. */
  lemma FrameReadIffTwoClocks(b: Byte, c: nat)
    requires c >= 1
    ensures Hear(b, c, 10 * c) == Receiver(Waiting(true), [b]) <==> c >= 2
  {
    if c >= 2 {
      hide PhyClock, ReceiverEdge, Hear, Frame;
      HearFollows(b, c, 10 * c);
      FramePosition(b, c, 10 * c);
      PositionInFrame(Frame(b, c, 10 * c), c);
    } else {
      OneClockPerBit(b);
    }
  }

  lemma {:induction false} OneClockFrame(b: Byte, k: nat)
    requires k <= 7
    ensures Frame(b, 1, k) == if k == 0 then Phy(UartStart, 0, 0, b) else Phy(UartData, 0, k - 1, b)
    ensures Hear(b, 1, k + 1) == Receiver(Counting(1, [false] + DataBits(b, k)), [])
  {
    BitCounts(b);
    if k == 0 {
      assert Hear(b, 1, 1) == ReceiverEdge(Hear(b, 1, 0), 1, Tx(Frame(b, 1, 0)));
      assert [] + [false] == [false] + DataBits(b, 0);
    } else {
      OneClockFrame(b, k - 1);
      assert Tx(Frame(b, 1, k)) == BitOf(b, k - 1);
      assert [false] + DataBits(b, k - 1) + [BitOf(b, k - 1)] == [false] + DataBits(b, k);
    }
  }

  /** At one clock per bit the receiver reports 2b modulo 256, or a framing error. */
  lemma OneClockPerBit(b: Byte)
    ensures var r := Hear(b, 1, 10);
            if BitOf(b, 7) then r.received == [2 * b % 0x100] && 2 * b % 0x100 != b else r.phase == Failed
  {
    hide FromBits, DataBits, BitOf;
    OneClockFrame(b, 7);
    BitCounts(b);
    TopBit(b);
    ShiftedBits(DataBits(b, 7));
    if BitOf(b, 7) {
      DoubledByte(b, FromBits(DataBits(b, 7)));
    }
    assert Frame(b, 1, 8) == Phy(UartData, 0, 7, b);
    assert Frame(b, 1, 9) == Phy(UartStop, 0, 0, b);
    var r := ReceiverEdge(Hear(b, 1, 8), 1, BitOf(b, 7));
    assert Hear(b, 1, 9) == r;
    assert Hear(b, 1, 10) == ReceiverEdge(r, 1, true);
  }

  lemma DoubledByte(b: Byte, low: nat)
    requires low + 128 == b
    ensures 2 * low % 0x100 == 2 * b % 0x100 == 2 * low && 2 * low != b
  {
  }

  lemma ShiftedBits(bits: seq<bool>)
    ensures FromBits([false] + bits) == 2 * FromBits(bits)
  {
    assert ([false] + bits)[1..] == bits;
  }

  lemma {:induction false} FromBitsSnoc(bits: seq<bool>, top: bool)
    ensures FromBits(bits + [top]) == FromBits(bits) + (if top then Pow2(|bits|) else 0)
  {
    if bits == [] {
      assert FromBits([top]) == (if top then 1 else 0) + 2 * FromBits([top][1..]);
    } else {
      FromBitsSnoc(bits[1..], top);
      assert (bits + [top])[1..] == bits[1..] + [top];
    }
  }

  lemma TopBit(b: Byte)
    ensures FromBits(DataBits(b, 7)) + (if BitOf(b, 7) then 128 else 0) == b
  {
    ByteRoundTrip(b);
    BitCounts(b);
    FromBitsSnoc(DataBits(b, 7), BitOf(b, 7));
    assert Pow2(7) == 128 by {
      assert Pow2(3) == 8;
    }
  }
}
