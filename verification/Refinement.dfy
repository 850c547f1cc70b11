/** Two machines, one meaning: for every program and every number of clocks, the
    RTL system after its k-th retirement is the C++ simulator after k calls of
    step(), and it halts or faults exactly when the simulator does. */
module Refinement {
  import opened Words
  import I = Isa
  import opened Rtl
  import opened RtlIsa
  import opened Replay
  import S = Simulator
  import SI = SimulatorIsa

  // ---- Runs from reset ----

  function RunClocks(env: I.Env, s: System, n: nat): System {
    if n == 0 then s else Clock(env, RunClocks(env, s, n - 1))
  }

  /** UART events collected at the first n rising edges. */
  function Transcript(env: I.Env, s: System, n: nat): seq<Byte> {
    if n == 0 then [] else Transcript(env, s, n - 1) + Emitted(RunClocks(env, s, n - 1).bus)
  }

  /** Retirements committed by the first n rising edges. */
  function Retired(env: I.Env, s: System, n: nat): nat {
    if n == 0 then 0 else Retired(env, s, n - 1) + Count(RunClocks(env, s, n).cpu.retire.valid)
  }

  function StoresRetired(env: I.Env, s: System, n: nat): nat {
    if n == 0 then 0 else
      var p := RunClocks(env, s, n).cpu.retire;
      StoresRetired(env, s, n - 1) + Count(p.valid && p.memWrite)
  }

  function DeviceWrites(env: I.Env, s: System, n: nat): nat {
    if n == 0 then 0 else DeviceWrites(env, s, n - 1) + Count(WriteStrobe(RunClocks(env, s, n - 1).bus))
  }

  /** Clocks the first k instructions take. */
  function TotalCost(env: I.Env, m: I.Machine, k: nat): nat {
    if k == 0 then 0 else
      var p := I.Run(env, m, k - 1);
      TotalCost(env, m, k - 1) + (if p.Running? && !I.Step(env, p.arch).Faulted? then CostAt(env, p.arch) else 0)
  }

  function Start(s: System): I.Machine { I.Running(I.ResetArch(s.bus.ram.words)) }

  // ---- The stuttering invariant ----

  /** After n clocks and k retirements the system is related to the machine
      after k instructions, and the clock count is accounted for exactly. */
  ghost predicate Tracks(env: I.Env, s: System, tx: seq<Byte>, n: nat, k: nat, m0: I.Machine) {
    var m := I.Run(env, m0, k);
    match s.cpu.state
    case HALTED => m.Halted? && AtRest(s, tx, m.arch) && n >= TotalCost(env, m0, k)
    case FAULT =>
      && m.Running? && AtRest(s, tx, m.arch) && I.Step(env, m.arch).Faulted?
      && FaultAgrees(s.cpu.fault, I.Step(env, m.arch).info) && n >= TotalCost(env, m0, k) && !s.cpu.retire.valid
    case _ => m.Running? && InFlight(env, s, tx, m.arch) && n == TotalCost(env, m0, k) + Age(s)
  }

  lemma TracksClock(env: I.Env, s: System, tx: seq<Byte>, n: nat, k: nat, m0: I.Machine)
    requires Tracks(env, s, tx, n, k, m0)
    ensures var s' := Clock(env, s);
            Tracks(env, s', tx + Emitted(s.bus), n + 1, k + Count(s'.cpu.retire.valid), m0)
    ensures var s' := Clock(env, s);
            s'.cpu.retire.valid ==>
              var m := I.Run(env, m0, k);
              m.Running? && !I.Step(env, m.arch).Faulted? && RetireAgrees(s'.cpu.retire, I.RecordFor(env, m.arch))
  {
    hide Clock, I.Step, DevicesOf, I.RecordFor, CostAt, Emitted, FaultAgrees, RetireAgrees;
    hide InFlight, AtRest, Age;
    var m := I.Run(env, m0, k);
    var s' := Clock(env, s);
    if s.cpu.state == HALTED || s.cpu.state == FAULT {
      ClockAtRest(env, s, tx, m.arch);
      assert tx + [] == tx;
    } else {
      ClockInFlight(env, s, tx, m.arch);
      if s'.cpu.retire.valid {
        assert I.Run(env, m0, k + 1) == I.Next(env, m);
        assert TotalCost(env, m0, k + 1) == TotalCost(env, m0, k) + CostAt(env, m.arch);
      }
    }
  }

  /** Stuttering refinement of the documented machine, for every ROM, initial RAM and clock count. */
  lemma {:induction false} RunTracks(env: I.Env, s: System, n: nat)
    requires IsReset(s)
    ensures Tracks(env, RunClocks(env, s, n), Transcript(env, s, n), n, Retired(env, s, n), Start(s))
  {
    hide Clock, I.Step, DevicesOf, InFlight, AtRest, FaultAgrees, Emitted, RetireAgrees, CostAt, I.ResetArch;
    if n == 0 {
      ResetInFlight(env, s);
    } else {
      RunTracks(env, s, n - 1);
      TracksClock(env, RunClocks(env, s, n - 1), Transcript(env, s, n - 1), n - 1, Retired(env, s, n - 1), Start(s));
    }
  }

  /** In every reachable clock state the handshake discipline holds. */
  lemma RunHandshake(env: I.Env, s: System, n: nat)
    requires IsReset(s)
    ensures Handshake(RunClocks(env, s, n))
  {
    hide Clock, I.Step, DevicesOf, RunClocks;
    RunTracks(env, s, n);
    var t := RunClocks(env, s, n);
    if t.cpu.state != HALTED && t.cpu.state != FAULT {
      InFlightHandshake(env, t, Transcript(env, s, n), I.Run(env, Start(s), Retired(env, s, n)).arch);
    }
  }

  /** Every retired store performed exactly one device write, and a faulting access none. */
  lemma {:induction false} OneWritePerStore(env: I.Env, s: System, n: nat)
    requires IsReset(s)
    ensures DeviceWrites(env, s, n) == StoresRetired(env, s, n) + Count(WrotePending(RunClocks(env, s, n)))
  {
    hide Clock, WriteStrobe, WrotePending;
    if n == 0 {
      assert !WrotePending(s) by { assert s.cpu.state == FETCH; NotPendingInFetch(s); }
    } else {
      OneWritePerStore(env, s, n - 1);
      RunHandshake(env, s, n - 1);
      StoreAccounting(env, RunClocks(env, s, n - 1));
    }
  }

  lemma NotPendingInFetch(s: System)
    ensures s.cpu.state == FETCH ==> !WrotePending(s)
  {
  }

  // ---- Cycle cost ----

  lemma CostRange(env: I.Env, a: I.Arch)
    requires !I.Step(env, a).Faulted?
    ensures 5 <= CostAt(env, a) <= 9
  {
    hide I.Step, I.Fetch, I.Decode;
  }

  lemma {:induction false} TotalCostGrows(env: I.Env, m0: I.Machine, j: nat, k: nat)
    requires j <= k && AllRetire(env, m0, k)
    ensures TotalCost(env, m0, j) + 5 * (k - j) <= TotalCost(env, m0, k) <= TotalCost(env, m0, j) + 9 * (k - j)
    decreases k - j
  {
    hide I.Step, CostAt;
    if j < k {
      EarlierRunning(env, m0, j, k);
      assert I.Run(env, m0, j + 1) == I.Next(env, I.Run(env, m0, j));
      CostRange(env, I.Run(env, m0, j).arch);
      TotalCostGrows(env, m0, j + 1, k);
    }
  }

  lemma RetiredAllRetire(env: I.Env, s: System, n: nat)
    requires IsReset(s)
    ensures AllRetire(env, Start(s), Retired(env, s, n))
  {
    hide Clock, I.Step, DevicesOf;
    RunTracks(env, s, n);
    var k := Retired(env, s, n);
    if k > 0 && !I.Run(env, Start(s), k - 1).Running? {
      LastRetirement(env, s, n);
    }
  }

  lemma {:induction false} LastRetirement(env: I.Env, s: System, n: nat)
    requires IsReset(s) && Retired(env, s, n) > 0
    ensures I.Run(env, Start(s), Retired(env, s, n) - 1).Running?
  {
    hide Clock, I.Step, DevicesOf, InFlight, AtRest, FaultAgrees, Emitted, RetireAgrees, CostAt;
    RunTracks(env, s, n - 1);
    TracksClock(env, RunClocks(env, s, n - 1), Transcript(env, s, n - 1), n - 1, Retired(env, s, n - 1), Start(s));
    if !RunClocks(env, s, n).cpu.retire.valid {
      LastRetirement(env, s, n - 1);
    }
  }

  lemma NextRetires(env: I.Env, m0: I.Machine, j: nat, k: nat)
    requires j < k && AllRetire(env, m0, k)
    ensures I.Run(env, m0, j).Running? && !I.Step(env, I.Run(env, m0, j).arch).Faulted?
    ensures TotalCost(env, m0, j) + CostAt(env, I.Run(env, m0, j).arch) <= TotalCost(env, m0, k)
  {
    hide I.Step, CostAt;
    EarlierRunning(env, m0, j, k);
    TotalCostGrows(env, m0, j + 1, k);
    assert I.Run(env, m0, j + 1) == I.Next(env, I.Run(env, m0, j));
  }

  /** The k-th retirement happens at exactly clock TotalCost(k): 5 clocks for a
      branch, J or JR, 6 for ALU, JAL, NOP and HALT, 8 for SW and 9 for LW. */
  lemma RetirementClock(env: I.Env, s: System, k: nat)
    requires IsReset(s) && AllRetire(env, Start(s), k)
    ensures var n := TotalCost(env, Start(s), k);
            && Retired(env, s, n) == k
            && 5 * k <= n <= 9 * k
            && (RunClocks(env, s, n).cpu.state == HALTED <==> I.Run(env, Start(s), k).Halted?)
  {
    hide Clock, I.Step, I.Run, DevicesOf, RunClocks, Retired, Transcript, InFlight, AtRest, FaultAgrees, CostAt, Age,
      I.ResetArch, IsReset, AllRetire;
    var m0 := Start(s);
    var n := TotalCost(env, m0, k);
    TotalCostGrows(env, m0, 0, k);
    hide TotalCost;
    RunTracks(env, s, n);
    RetiredAllRetire(env, s, n);
    var t, j := RunClocks(env, s, n), Retired(env, s, n);
    if j > k {
      TotalCostGrows(env, m0, k, j);
    } else if j < k {
      NextRetires(env, m0, j, k);
      if t.cpu.state != FAULT {
        AgeBound(env, t, Transcript(env, s, n), I.Run(env, m0, j).arch);
      }
    }
  }

  /** When instruction k+1 faults, the RTL is in FAULT eight clocks after the k-th retirement, for good. */
  lemma FaultClock(env: I.Env, s: System, k: nat, n: nat)
    requires IsReset(s) && AllRetire(env, Start(s), k) && I.Run(env, Start(s), k + 1).Faulted?
    requires I.Run(env, Start(s), k).Running?
    requires n >= TotalCost(env, Start(s), k) + 8
    ensures RunClocks(env, s, n).cpu.state == FAULT && Retired(env, s, n) == k
  {
    hide Clock, I.Step, DevicesOf, RunClocks, Retired, Transcript, InFlight, AtRest, FaultAgrees, CostAt, Age,
      I.ResetArch, IsReset;
    var m0 := Start(s);
    RunTracks(env, s, n);
    RetiredAllRetire(env, s, n);
    var t, j := RunClocks(env, s, n), Retired(env, s, n);
    assert I.Run(env, m0, k + 1) == I.Next(env, I.Run(env, m0, k));
    if j > k {
      EarlierRunning(env, m0, k, j);
    } else {
      if j < k {
        EarlierRunning(env, m0, j, k);
        assert I.Run(env, m0, j + 1) == I.Next(env, I.Run(env, m0, j));
      }
      if t.cpu.state != FAULT {
        AgeBound(env, t, Transcript(env, s, n), I.Run(env, m0, j).arch);
        if j < k {
          TotalCostGrows(env, m0, j + 1, k);
        }
      }
    }
  }

  /** Two UART events are at least eight clocks apart. */
  lemma EventSpacing(env: I.Env, s: System, i: nat, j: nat)
    requires IsReset(s) && i < j
    requires RunClocks(env, s, i).bus.uart.txValid && RunClocks(env, s, j).bus.uart.txValid
    ensures i + 8 <= j
  {
    hide Clock, I.Step, DevicesOf, RunClocks, Retired, Transcript, CostAt, I.ResetArch, IsReset;
    var m0 := Start(s);
    var p, q := Retired(env, s, i), Retired(env, s, j);
    EventAge(env, s, i);
    EventAge(env, s, j);
    RetiredAllRetire(env, s, j);
    RetiredAllRetire(env, s, i);
    if p > q {
      TotalCostGrows(env, m0, q, p);
    } else if p < q {
      TotalCostGrows(env, m0, p + 1, q);
      EarlierRunning(env, m0, p, q);
      assert I.Run(env, m0, p + 1) == I.Next(env, I.Run(env, m0, p));
    }
  }

  lemma EventAge(env: I.Env, s: System, n: nat)
    requires IsReset(s) && RunClocks(env, s, n).bus.uart.txValid
    ensures var m0, k := Start(s), Retired(env, s, n);
            && n == TotalCost(env, m0, k) + 7
            && I.Run(env, m0, k).Running?
            && (!I.Step(env, I.Run(env, m0, k).arch).Faulted? ==> CostAt(env, I.Run(env, m0, k).arch) >= 8)
  {
    hide Clock, I.Step, I.Fetch, I.Decode, DevicesOf, RunClocks, Retired, Transcript, I.ResetArch;
    RunTracks(env, s, n);
    RunHandshake(env, s, n);
    AgeBound(env, RunClocks(env, s, n), Transcript(env, s, n), I.Run(env, Start(s), Retired(env, s, n)).arch);
  }

  // ---- RTL against the C++ simulator ----

  /** The two control tables support the same opcodes with the same signals. */
  lemma SameControl(opcode: int)
    ensures Supported(opcode) <==> S.ControlFor(opcode).Some?
    ensures Supported(opcode) ==> ControlUnit(opcode) == S.ControlFor(opcode).value
  {
  }

  /** Everything software or a trace can observe, mid-instruction included: a
      store's write shows from the bus response on, one write ahead of the simulator. */
  ghost predicate SameMachine(s: System, tx: seq<Byte>, c: S.Sim)
    requires S.WellFormed(c.core)
  {
    && s.cpu.pc == c.core.pc
    && (forall r: RegIndex :: RegPort(s.cpu.regs, r) == S.RegRead(c.core.regs, r))
    && (if WrotePending(s) then
          var w := S.Write32(c.bus, s.bus.addr, s.bus.wdata);
          w.Done? && DevicesOf(s.bus, false, tx) == SI.DevicesOf(w.bus)
        else DevicesOf(s.bus, s.cpu.retire.valid, tx) == SI.DevicesOf(c.bus))
    && (s.cpu.state == HALTED <==> c.core.micro == S.Halted)
    && c.core.micro != S.Fault
    && (s.cpu.state == FAULT ==>
          SI.Step(c).core.micro == S.Fault && FaultAgrees(s.cpu.fault, SI.Step(c).core.fault))
  }

  lemma StoreInFlight(env: I.Env, s: System, tx: seq<Byte>, a: I.Arch)
    requires InFlight(env, s, tx, a)
    ensures if WrotePending(s) then I.Store(a.dev, s.bus.addr, s.bus.wdata) == I.Written(DevicesOf(s.bus, false, tx))
            else DevicesOf(s.bus, s.cpu.retire.valid, tx) == a.dev
  {
    hide I.Fetch, I.Load, I.Store, I.Decode, DevicesOf, Slice, ControlUnit, Immediate, Wrap, BranchDisplacement,
      JumpDisplacement;
    DecoderAgrees(s.cpu.ir);
  }

  lemma SameRegisters(rtl: I.Registers, cpp: I.Registers, r: RegIndex)
    requires I.RegsOf(rtl) == I.RegsOf(cpp)
    ensures RegPort(rtl, r) == S.RegRead(cpp, r)
  {
    assert I.RegsOf(rtl)[r] == I.RegsOf(cpp)[r];
  }

  lemma TracksSame(env: I.Env, s: System, tx: seq<Byte>, n: nat, k: nat, m0: I.Machine, c: S.Sim)
    requires Tracks(env, s, tx, n, k, m0) && SI.Denotes(c, env, I.Run(env, m0, k))
    ensures SameMachine(s, tx, c)
  {
    hide I.Step, I.Run, I.Store, S.Write32, DevicesOf, SI.Step, SI.DevicesOf, FaultAgrees, InFlight, SI.EnvOf,
      PendingFault;
    var m := I.Run(env, m0, k);
    forall r: RegIndex
      ensures RegPort(s.cpu.regs, r) == S.RegRead(c.core.regs, r)
    {
      if m.Running? && s.cpu.state != FAULT {
        InFlightArch(env, s, tx, m.arch);
      }
      SameRegisters(s.cpu.regs, c.core.regs, r);
    }
    SI.StepDenotes(c, env, m);
    if m.Running? && s.cpu.state != FAULT {
      InFlightArch(env, s, tx, m.arch);
      StoreInFlight(env, s, tx, m.arch);
      SI.BusWriteAgrees(c.bus, s.bus.addr, s.bus.wdata);
    }
  }

  lemma InFlightArch(env: I.Env, s: System, tx: seq<Byte>, a: I.Arch)
    requires InFlight(env, s, tx, a)
    ensures s.cpu.pc == a.pc && I.RegsOf(s.cpu.regs) == a.regs && s.cpu.state != HALTED && s.cpu.state != FAULT
  {
  }

  /** The stuttering refinement, for every image, initial RAM, GPIO input and number of clocks. */
  lemma Lockstep(rom: S.Bytes64K, ram: S.Bytes64K, gpioIn: Word, s: System, n: nat)
    requires IsReset(s) && s.bus.ram.words == SI.WordsOf(ram)
    ensures var env := I.Env(SI.WordsOf(rom), gpioIn);
            var c := SI.ResetSim(rom, ram, gpioIn);
            && S.WellFormed(c.core)
            && SameMachine(RunClocks(env, s, n), Transcript(env, s, n), SI.StepN(c, Retired(env, s, n)))
  {
    hide Clock, I.Step, RunClocks, Retired, Transcript, Tracks, SameMachine, SI.StepN, SI.WordsOf, SI.ArchOf, SI.EnvOf;
    var env := I.Env(SI.WordsOf(rom), gpioIn);
    var c := SI.ResetSim(rom, ram, gpioIn);
    var k := Retired(env, s, n);
    RunTracks(env, s, n);
    SI.ResetDenotes(rom, ram, gpioIn);
    SI.RunDenotes(c, env, Start(s), k);
    TracksSame(env, RunClocks(env, s, n), Transcript(env, s, n), n, k, Start(s), SI.StepN(c, k));
  }

  // ---- Stopping ----

  /** The first instruction count at which a run is no longer running. */
  lemma {:induction false} FirstStop(env: I.Env, m0: I.Machine, k: nat) returns (j: nat)
    requires m0.Running? && !I.Run(env, m0, k).Running?
    ensures 0 < j <= k && I.Run(env, m0, j) == I.Run(env, m0, k)
    ensures AllRetire(env, m0, j - 1) && I.Run(env, m0, j - 1).Running?
  {
    hide I.Step;
    if I.Run(env, m0, k - 1).Running? {
      j := k;
      if k > 1 {
        assert I.Run(env, m0, k - 1) == I.Next(env, I.Run(env, m0, k - 2));
      }
    } else {
      j := FirstStop(env, m0, k - 1);
    }
  }

  predicate HaltedAt(env: I.Env, s: System, n: nat) { RunClocks(env, s, n).cpu.state == HALTED }
  predicate FaultedAt(env: I.Env, s: System, n: nat) { RunClocks(env, s, n).cpu.state == FAULT }

  predicate SimStopsAt(c: S.Sim, k: nat, micro: S.Microstate)
    requires S.WellFormed(c.core)
  {
    SI.StepN(c, k).core.micro == micro
  }

  /** A run that stops within k instructions stops the RTL within 9k clocks. */
  lemma ReachesStop(env: I.Env, s: System, k: nat) returns (n: nat)
    requires IsReset(s) && !I.Run(env, Start(s), k).Running?
    ensures n <= 9 * k && if I.Run(env, Start(s), k).Halted? then HaltedAt(env, s, n) else FaultedAt(env, s, n)
  {
    hide Clock, I.Step, I.Run, RunClocks, IsReset, I.ResetArch;
    var m0 := Start(s);
    var j := FirstStop(env, m0, k);
    if I.Run(env, m0, k).Halted? {
      RetirementClock(env, s, j);
      n := TotalCost(env, m0, j);
    } else {
      n := TotalCost(env, m0, j - 1) + 8;
      TotalCostGrows(env, m0, 0, j - 1);
      FaultClock(env, s, j - 1, n);
    }
  }

  /** RTL halts exactly when the simulator halts, and faults exactly when it faults. */
  lemma StopsTogether(rom: S.Bytes64K, ram: S.Bytes64K, gpioIn: Word, s: System)
    requires IsReset(s) && s.bus.ram.words == SI.WordsOf(ram)
    ensures var env, c := I.Env(SI.WordsOf(rom), gpioIn), SI.ResetSim(rom, ram, gpioIn);
            && S.WellFormed(c.core)
            && ((exists n :: HaltedAt(env, s, n)) <==> (exists k :: SimStopsAt(c, k, S.Halted)))
            && ((exists n :: FaultedAt(env, s, n)) <==> (exists k :: SimStopsAt(c, k, S.Fault)))
  {
    hide Clock, I.Step, I.Run, RunClocks, Retired, IsReset, SI.StepN, SI.WordsOf, SI.ArchOf, SI.EnvOf, SI.Step,
      DevicesOf, SI.DevicesOf, S.Write32, FaultAgrees;
    var env, c := I.Env(SI.WordsOf(rom), gpioIn), SI.ResetSim(rom, ram, gpioIn);
    SI.ResetDenotes(rom, ram, gpioIn);
    if n :| HaltedAt(env, s, n) {
      Lockstep(rom, ram, gpioIn, s, n);
      assert SimStopsAt(c, Retired(env, s, n), S.Halted);
    }
    if n :| FaultedAt(env, s, n) {
      Lockstep(rom, ram, gpioIn, s, n);
      var k := Retired(env, s, n);
      StepNSucc(c, k);
      assert SimStopsAt(c, k + 1, S.Fault);
    }
    if k :| SimStopsAt(c, k, S.Halted) {
      SI.RunDenotes(c, env, Start(s), k);
      var n := ReachesStop(env, s, k);
    }
    if k :| SimStopsAt(c, k, S.Fault) {
      SI.RunDenotes(c, env, Start(s), k);
      var n := ReachesStop(env, s, k);
    }
  }

  lemma StepNSucc(c: S.Sim, k: nat)
    requires S.WellFormed(c.core)
    ensures SI.StepN(c, k + 1) == SI.Step(SI.StepN(c, k))
  {
  }
}
