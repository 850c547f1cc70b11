/** The FPGA platform as clocked objects, and its testbench: system, FIFO and
    serializer on one clock, the wire recorded and received. */
module PlatformObjects {
  import opened Words
  import I = Isa
  import Rtl
  import opened Serial
  import opened Platform
  import RO = RtlObjects
  import SO = SerialObjects
  import R = Refinement
  import S = Simulator
  import SI = SimulatorIsa
  import T = Throughput
  import Delivery

  class FpgaPlatform {
    const system: RO.Mini32System
    const fifo: SO.UartTxFifo
    const phy: SO.UartTxPhy

    ghost function Repr(): set<object> {
      system.cpu.Repr() + system.bus.Repr() + {fifo, fifo.storage, phy}
    }

    ghost function PathState(): Path
      reads fifo, fifo.storage, phy
    {
      Path(fifo.State(), phy.State())
    }

    ghost predicate Valid()
      reads fifo, fifo.storage, phy
    {
      && system.Valid() && PathState().Valid(phy.clocksPerBit)
      && {fifo, fifo.storage, phy} !! system.cpu.Repr() + system.bus.Repr()
      && fifo.storage as object != phy
    }

    ghost function State(): Platform
      requires Valid()
      reads system.cpu.Repr(), system.bus.Repr(), fifo, fifo.storage, phy
    {
      Platform(system.State(), PathState())
    }

    constructor (env: I.Env, contents: I.Words16K, depth: nat, clocksPerBit: nat)
      requires depth >= 1 && clocksPerBit >= 1
      ensures Valid() && fresh(Repr()) && system.env == env && phy.clocksPerBit == clocksPerBit
      ensures fifo.storage.Length == depth && IsResetPlatform(State(), depth, clocksPerBit)
      ensures State().system.bus.ram.words == contents
    {
      system := new RO.Mini32System(env, contents);
      fifo := new SO.UartTxFifo(depth);
      phy := new SO.UartTxPhy(clocksPerBit);
    }

    /** FIFO and serializer at one edge: each samples the other's wires before
        either moves. `level` is the uart_tx pin in the period the edge ends. */
    method ClockPath(event: Option<Byte>) returns (level: bool)
      requires PathState().Valid(phy.clocksPerBit) && fifo.storage as object != phy
      modifies fifo, fifo.storage, phy
      ensures PathState() == PathClock(old(PathState()), phy.clocksPerBit, event)
      ensures level == Tx(old(PathState()).phy)
    {
      hide FifoClock, PhyClock, Tx;
      var valid, head := fifo.Head();
      var ready;
      level, ready := phy.Wires();
      fifo.PosEdge(event, ready);
      phy.PosEdge(valid, head);
    }

    /** One rising edge of the whole platform. */
    method PosEdge() returns (level: bool)
      requires Valid()
      modifies Repr()
      ensures Valid() && State() == PlatformClock(system.env, phy.clocksPerBit, old(State()))
      ensures level == Tx(old(State()).path.phy)
    {
      hide Rtl.Clock, PathClock, PathState, RO.Mini32System.State, Tx, Path.Valid;
      PathKeepsValid(PathState(), phy.clocksPerBit, EventOf(State().system.bus));
      var event := system.UartEvent();
      system.PosEdge();
      level := ClockPath(event);
    }
  }

  /** The level of the pin in each of the next n clock periods. */
  method RecordWire(platform: FpgaPlatform, n: nat) returns (wire: seq<bool>)
    requires platform.Valid()
    modifies platform.Repr()
    ensures platform.Valid()
    ensures var p, env, c := old(platform.State()), platform.system.env, platform.phy.clocksPerBit;
            && p.path.Valid(c) && platform.State() == PlatformRun(env, c, p, n)
            && wire == SO.Recording(p.path, c, EventsOf(env, p.system), n)
  {
    hide PlatformClock, FpgaPlatform.State, EventsOf, Tx, PathRun, Path.Valid;
    ghost var p, env, c := platform.State(), platform.system.env, platform.phy.clocksPerBit;
    StorageLength(platform);
    wire := [];
    for i := 0 to n
      invariant platform.Valid() && platform.State() == PlatformRun(env, c, p, i)
      invariant wire == SO.Recording(p.path, c, EventsOf(env, p.system), i)
    {
      PlatformSplits(env, c, p, i);
      var level := platform.PosEdge();
      wire := wire + [level];
    }
  }

  /** The platform testbench on live objects: clock the platform from reset,
      receive whatever is on the pin. With at least two clocks per bit there is no
      framing error, and until overflow the bytes are a prefix of what the
      simulator transmits in as many instructions. For a program that stops within
      k instructions they are its whole transcript once n reaches the delivery clock,
      if nothing was dropped or the FIFO can absorb the transcript. */
  method Testbench(platform: FpgaPlatform, n: nat, ghost rom: S.Bytes64K, ghost ram: S.Bytes64K, ghost gpioIn: Word)
      returns (bytes: seq<Byte>, framed: bool)
    requires platform.Valid() && platform.phy.clocksPerBit >= 2
    requires IsResetPlatform(platform.State(), platform.fifo.storage.Length, platform.phy.clocksPerBit)
    requires platform.system.env == I.Env(SI.WordsOf(rom), gpioIn)
    requires platform.State().system.bus.ram.words == SI.WordsOf(ram)
    modifies platform.Repr()
    ensures platform.Valid() && framed
    ensures var cpp, p, c := SI.ResetSim(rom, ram, gpioIn), old(platform.State()), platform.phy.clocksPerBit;
            && S.WellFormed(cpp.core) && p.path.Valid(c)
            && bytes == Heard(platform.system.env, c, p, n).received
            && (!platform.State().path.fifo.overflow ==>
                  bytes <= SI.StepN(cpp, R.Retired(platform.system.env, p.system, n)).bus.tx)
    ensures forall k: nat ::
              Complete(rom, ram, gpioIn, old(platform.State()), platform.phy.clocksPerBit, k, n) ==>
                bytes == SI.StepN(SI.ResetSim(rom, ram, gpioIn), k).bus.tx
  {
    hide PlatformRun, FpgaPlatform.State, EventsOf, SI.StepN, SI.ResetSim, SI.WordsOf, R.Retired, SO.Recording,
      SO.Heard, Heard, Complete, IsResetPlatform, Path.Valid;
    StorageLength(platform);
    RecordingTells(rom, ram, gpioIn, platform.State(), platform.phy.clocksPerBit, n);
    var wire := RecordWire(platform, n);
    bytes, framed := SO.ReceiveAll(wire, platform.phy.clocksPerBit);
  }

  lemma StorageLength(platform: FpgaPlatform)
    requires platform.Valid()
    ensures |platform.State().path.fifo.storage| == platform.fifo.storage.Length
    ensures platform.State().path.Valid(platform.phy.clocksPerBit)
  {
  }

  /** The program stops within k instructions, n clocks are enough to deliver
      everything, and nothing was dropped, or nothing could be. */
  ghost predicate Complete(rom: S.Bytes64K, ram: S.Bytes64K, gpioIn: Word, p: Platform, c: nat, k: nat, n: nat)
    requires p.path.Valid(c)
  {
    var depth, env, cpp := |p.path.fifo.storage|, I.Env(SI.WordsOf(rom), gpioIn), SI.ResetSim(rom, ram, gpioIn);
    && S.WellFormed(cpp.core) && SI.StepN(cpp, k).core.Stopped() && n >= Delivery.DeliveryClock(k, depth, c)
    && (!PlatformRun(env, c, p, n).path.fifo.overflow || T.Absorbed(|SI.StepN(cpp, k).bus.tx|, depth, c))
  }

  /** What the recorded wire of a run from reset decodes to. */
  lemma RecordingTells(rom: S.Bytes64K, ram: S.Bytes64K, gpioIn: Word, p: Platform, c: nat, n: nat)
    requires IsResetPlatform(p, |p.path.fifo.storage|, c) && c >= 2 && p.path.Valid(c)
    requires p.system.bus.ram.words == SI.WordsOf(ram)
    ensures var env, cpp := I.Env(SI.WordsOf(rom), gpioIn), SI.ResetSim(rom, ram, gpioIn);
            var heard := Heard(env, c, p, n);
            && SO.Heard(c, SO.Recording(p.path, c, EventsOf(env, p.system), n), n) == heard
            && S.WellFormed(cpp.core) && !heard.phase.Failed?
            && (!PlatformRun(env, c, p, n).path.fifo.overflow ==>
                  heard.received <= SI.StepN(cpp, R.Retired(env, p.system, n)).bus.tx)
            && (forall k: nat :: Complete(rom, ram, gpioIn, p, c, k, n) ==> heard.received == SI.StepN(cpp, k).bus.tx)
  {
    hide PlatformRun, EventsOf, PathRun, Path.Valid, SI.StepN, SI.ResetSim, SI.WordsOf, Rtl.IsReset, R.Retired,
      SO.Recording, T.Absorbed, Delivery.DeliveryClock, SO.Heard, Heard;
    var env := I.Env(SI.WordsOf(rom), gpioIn);
    EndToEndWire(rom, ram, gpioIn, p, c, n);
    PlatformSplits(env, c, p, n);
    SO.RecordingIsHeard(p.path, c, EventsOf(env, p.system), n);
    forall k: nat | Complete(rom, ram, gpioIn, p, c, k, n)
      ensures Heard(env, c, p, n).received == SI.StepN(SI.ResetSim(rom, ram, gpioIn), k).bus.tx
    {
      Delivery.WireDelivers(rom, ram, gpioIn, p, c, k, n);
    }
  }
}
