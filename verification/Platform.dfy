/** The FPGA platform: system, FIFO and serializer on one clock, and the
    end-to-end statement about its only physical output, the UART wire. */
module Platform {
  import opened Words
  import I = Isa
  import opened Rtl
  import opened RtlIsa
  import opened Serial
  import opened Wire
  import R = Refinement
  import S = Simulator
  import SI = SimulatorIsa

  datatype Platform = Platform(system: System, path: Path)

  function EventOf(b: Rtl.Bus): Option<Byte> { if b.uart.txValid then Some(b.uart.txData) else None }

  /** mini32_fpga_platform.sv: one rising edge of all three clocked blocks. */
  function PlatformClock(env: I.Env, c: nat, p: Platform): Platform
    requires p.path.fifo.Valid()
  {
    Platform(Clock(env, p.system), PathClock(p.path, c, EventOf(p.system.bus)))
  }

  ghost predicate IsResetPlatform(p: Platform, depth: nat, c: nat) {
    IsReset(p.system) && IsResetPath(p.path, depth) && c >= 1
  }

  ghost function PlatformRun(env: I.Env, c: nat, p: Platform, n: nat): (r: Platform)
    requires p.path.Valid(c)
    ensures r.path.Valid(c)
  {
    if n == 0 then p else
      var q := PlatformRun(env, c, p, n - 1);
      PathKeepsValid(q.path, c, EventOf(q.system.bus));
      PlatformClock(env, c, q)
  }

  /** The testbench receiver listening to the platform's wire. */
  ghost function Heard(env: I.Env, c: nat, p: Platform, n: nat): Receiver
    requires p.path.Valid(c)
  {
    if n == 0 then LISTENING else ReceiverEdge(Heard(env, c, p, n - 1), c, Tx(PlatformRun(env, c, p, n - 1).path.phy))
  }

  /** The event stream the system feeds its FIFO. */
  ghost function EventsOf(env: I.Env, s: System): Stream {
    (i: nat) => EventOf(R.RunClocks(env, s, i).bus)
  }

  lemma {:induction false} PlatformSplits(env: I.Env, c: nat, p: Platform, n: nat)
    requires p.path.Valid(c)
    ensures PlatformRun(env, c, p, n) ==
            Platform(R.RunClocks(env, p.system, n), PathRun(p.path, c, EventsOf(env, p.system), n))
    ensures Heard(env, c, p, n) == Listen(p.path, c, EventsOf(env, p.system), n)
  {
    hide Clock, PathClock, ReceiverEdge, EventOf, Path.Valid;
    if n > 0 {
      PlatformSplits(env, c, p, n - 1);
    }
  }

  lemma {:induction false} OfferedIsTranscript(env: I.Env, s: System, n: nat)
    ensures Offered(EventsOf(env, s), n) == R.Transcript(env, s, n)
  {
    hide Clock, R.RunClocks;
    if n > 0 {
      OfferedIsTranscript(env, s, n - 1);
    }
  }

  /** The RTL's collected transcript is the simulator's after the same number of retirements. */
  lemma TranscriptIsSimulators(rom: S.Bytes64K, ram: S.Bytes64K, gpioIn: Word, s: System, n: nat)
    requires IsReset(s) && s.bus.ram.words == SI.WordsOf(ram)
    ensures var env, c := I.Env(SI.WordsOf(rom), gpioIn), SI.ResetSim(rom, ram, gpioIn);
            && S.WellFormed(c.core)
            && R.Transcript(env, s, n) == SI.StepN(c, R.Retired(env, s, n)).bus.tx
  {
    hide Clock, I.Step, I.Run, R.RunClocks, R.Retired, R.Transcript, SI.StepN, SI.WordsOf, InFlight, AtRest,
      FaultAgrees, R.TotalCost;
    var env, c := I.Env(SI.WordsOf(rom), gpioIn), SI.ResetSim(rom, ram, gpioIn);
    var m0, k := R.Start(s), R.Retired(env, s, n);
    R.RunTracks(env, s, n);
    SI.ResetDenotes(rom, ram, gpioIn);
    SI.RunDenotes(c, env, m0, k);
    CollectedBytes(env, R.RunClocks(env, s, n), R.Transcript(env, s, n), I.Run(env, m0, k).arch);
  }

  /** End to end: for every program, FIFO depth and divider of at least two, as
      long as overflow has not set, the bytes decoded from the wire are a prefix
      of what the simulator has transmitted after as many instructions; once the
      CPU has halted, the FIFO is empty and the serializer idle they are all of
      the simulator's final transcript. */
  lemma EndToEndWire(rom: S.Bytes64K, ram: S.Bytes64K, gpioIn: Word, p: Platform, c: nat, n: nat)
    requires IsResetPlatform(p, |p.path.fifo.storage|, c) && c >= 2
    requires p.system.bus.ram.words == SI.WordsOf(ram)
    ensures p.path.Valid(c)
    ensures var env, cpp := I.Env(SI.WordsOf(rom), gpioIn), SI.ResetSim(rom, ram, gpioIn);
            var q, heard := PlatformRun(env, c, p, n), Heard(env, c, p, n);
            && S.WellFormed(cpp.core)
            && var sim := SI.StepN(cpp, R.Retired(env, p.system, n));
            && heard.phase != Failed
            && (!q.path.fifo.overflow ==> heard.received <= sim.bus.tx)
            && (!q.path.fifo.overflow && q.path.fifo.count == 0 && Ready(q.path.phy) ==> heard.received == sim.bus.tx)
            && (q.system.cpu.state == HALTED ==> sim.core.micro == S.Halted)
  {
    var env, cpp := I.Env(SI.WordsOf(rom), gpioIn), SI.ResetSim(rom, ram, gpioIn);
    assert p.path.Valid(c);
    hide PlatformRun, Heard, PathRun, Listen, R.RunClocks, R.Retired, SI.StepN, SI.WordsOf, IsReset, EventsOf, Offered,
      R.Transcript, Path.Valid, Fifo.Valid, Phy.Valid, DevicesOf, SI.DevicesOf, RegPort, S.RegRead, S.Write32,
      FaultAgrees, SI.Step, WrotePending;
    PlatformSplits(env, c, p, n);
    DecodedIsPrefix(p.path, c, EventsOf(env, p.system), n);
    OfferedIsTranscript(env, p.system, n);
    TranscriptIsSimulators(rom, ram, gpioIn, p.system, n);
    R.Lockstep(rom, ram, gpioIn, p.system, n);
  }
}
