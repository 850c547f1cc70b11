/** The clocked blocks as objects: each PosEdge reads its inputs and registers as
    they stood before the rising edge and updates the registers in place. */
module RtlObjects {
  import opened Words
  import I = Isa
  import opened Control
  import opened Rtl

  class RegisterFile {
    const registers: array<Word>

    ghost predicate Valid() { registers.Length == 32 }

    ghost function State(): I.Registers
      requires Valid()
      reads registers
    {
      registers[..]
    }

    constructor ()
      ensures Valid() && fresh(registers) && forall r :: 1 <= r < 32 ==> State()[r] == 0
    {
      registers := new Word[32];
      new;
      Reset();
    }

    method PosEdge(writeEnable: bool, writeAddr: RegIndex, writeData: Word)
      requires Valid()
      modifies registers
      ensures State() == if writeEnable && writeAddr != 0 then old(State())[writeAddr := writeData] else old(State())
    {
      if writeEnable && writeAddr != 0 {
        registers[writeAddr] := writeData;
      }
    }

    /** The synchronous reset loop clears r1 to r31; r0's storage is left alone. */
    method Reset()
      requires Valid()
      modifies registers
      ensures forall r :: 1 <= r < 32 ==> registers[r] == 0
      ensures registers[0] == old(registers[0])
    {
      for index := 1 to 32
        invariant forall r :: 1 <= r < index ==> registers[r] == 0
        invariant registers[0] == old(registers[0])
      {
        registers[index] := 0;
      }
    }
  }

  class Ram {
    const memory: array<Word>
    var readData: Word

    ghost predicate Valid() { memory.Length == 16384 }

    ghost function State(): RamBlock
      requires Valid()
      reads this, memory
    {
      RamBlock(memory[..], readData)
    }

    /** RAM has no reset: it powers up with whatever it holds. */
    constructor (contents: I.Words16K)
      ensures Valid() && fresh(memory) && State().words == contents
    {
      memory := new Word[16384](i requires 0 <= i < 16384 => contents[i]);
      readData := *;
    }

    method PosEdge(re: bool, we: bool, index: int, wdata: Word)
      requires Valid() && 0 <= index < 16384
      modifies this, memory
      ensures State() == RamClock(old(State()), re, we, index, wdata)
    {
      var stored := memory[index];
      if we {
        memory[index] := wdata;
      }
      if re {
        readData := stored;
      }
    }
  }

  class UartRegisters {
    var readData: Word
    var txValid: bool
    var txData: Byte

    ghost function State(): UartMmio
      reads this
    {
      UartMmio(readData, txValid, txData)
    }

    constructor ()
      ensures State() == UartMmio(0, false, 0)
    {
      readData, txValid, txData := 0, false, 0;
    }

    method PosEdge(re: bool, we: bool, offset: int, wdata: Word)
      modifies this
      ensures State() == UartClock(old(State()), re, we, offset, wdata)
    {
      if re {
        readData := if offset == 4 then 1 else 0;
      }
      txValid := false;
      if we && offset == 0 {
        txValid := true;
        txData := wdata % 0x100;
      }
    }
  }

  class TimerRegisters {
    var counter: Word
    var compare: Word
    var enabled: bool
    var readData: Word

    ghost function State(): TimerMmio
      reads this
    {
      TimerMmio(counter, compare, enabled, readData)
    }

    constructor ()
      ensures State() == TimerMmio(0, 0, false, 0)
    {
      counter, compare, enabled, readData := 0, 0, false, 0;
    }

    /** The write cases fold in a tick that arrives at the same edge. */
    method PosEdge(tick: bool, re: bool, we: bool, offset: int, wdata: Word)
      modifies this
      ensures State() == TimerClock(old(State()), tick, re, we, offset, wdata)
    {
      var counts := tick && enabled;
      if re {
        readData := if offset == 0x0 then counter
                    else if offset == 0x4 then compare
                    else if offset == 0x8 then (if enabled then 1 else 0)
                    else if offset == 0xC then (if enabled && counter == compare then 1 else 0)
                    else 0;
      }
      if we && offset == 0x0 {
        counter := Wrap(wdata + (if counts then 1 else 0));
      } else if we && offset == 0x4 {
        compare := wdata;
        if counts {
          counter := Wrap(counter + 1);
        }
      } else if we && offset == 0x8 {
        enabled := wdata % 2 == 1;
        if tick && enabled {
          counter := Wrap(counter + 1);
        }
      } else if counts {
        counter := Wrap(counter + 1);
      }
    }
  }

  class GpioRegisters {
    var readData: Word
    var output: Word
    var direction: Word

    ghost function State(): GpioMmio
      reads this
    {
      GpioMmio(readData, output, direction)
    }

    constructor ()
      ensures State() == GpioMmio(0, 0, 0)
    {
      readData, output, direction := 0, 0, 0;
    }

    method PosEdge(input: Word, re: bool, we: bool, offset: int, wdata: Word)
      modifies this
      ensures State() == GpioClock(old(State()), input, re, we, offset, wdata)
    {
      if re {
        readData := if offset == 0 then input else if offset == 4 then output else if offset == 8 then direction else 0;
      }
      if we && offset == 4 {
        output := wdata;
      } else if we && offset == 8 {
        direction := wdata;
      }
    }
  }

  class DebugRegisters {
    var readData: Word
    var value: Word

    ghost function State(): DebugMmio
      reads this
    {
      DebugMmio(readData, value)
    }

    constructor ()
      ensures State() == DebugMmio(0, 0)
    {
      readData, value := 0, 0;
    }

    method PosEdge(re: bool, we: bool, offset: int, wdata: Word)
      modifies this
      ensures State() == DebugClock(old(State()), re, we, offset, wdata)
    {
      if re {
        readData := if offset == 0 then value else 0;
      }
      if we && offset == 0 {
        value := wdata;
      }
    }
  }

  class SystemBus {
    const ram: Ram
    const uart: UartRegisters
    const timer: TimerRegisters
    const gpio: GpioRegisters
    const debug: DebugRegisters
    var state: BusState
    var access: Access
    var addr: Word
    var wdata: Word
    var romData: Word

    ghost predicate Valid() { ram.Valid() }

    ghost function Repr(): set<object> { {this, ram, ram.memory, uart, timer, gpio, debug} }

    ghost function State(): Bus
      requires Valid()
      reads Repr()
    {
      Bus(state, access, addr, wdata, romData, ram.State(), uart.State(), timer.State(), gpio.State(), debug.State())
    }

    constructor (contents: I.Words16K)
      ensures Valid() && fresh(Repr()) && State().ram.words == contents
      ensures State() == Bus(IDLE, BusFetch, 0, 0, State().romData, State().ram, UartMmio(0, false, 0),
                             TimerMmio(0, 0, false, 0), GpioMmio(0, 0, 0), DebugMmio(0, 0))
    {
      ram := new Ram(contents);
      uart := new UartRegisters();
      timer := new TimerRegisters();
      gpio := new GpioRegisters();
      debug := new DebugRegisters();
      state, access, addr, wdata, romData := IDLE, BusFetch, 0, 0, *;
    }

    /** The pending request's read and write enables for one target. */
    method Enables(t: Target) returns (re: bool, we: bool)
      requires Valid()
      ensures re == ReadEnable(State(), t) && we == WriteEnable(State(), t)
    {
      var selected := state == ACCESS && PendingTarget(addr) == t && PendingFault(access, addr).None?;
      re := selected && (if t == RomTarget then access != BusStore else access == BusLoad);
      we := selected && access == BusStore;
    }

    method ClockDevices(env: I.Env, tick: bool)
      requires Valid()
      modifies Repr()
      ensures State() == DeviceEdges(env, old(State()), tick)
    {
      hide PendingTarget, PendingFault, RamClock, UartClock, TimerClock, GpioClock, DebugClock;
      var index, offset, data := addr / 4 % 16384, addr % 16, wdata;
      var romRead, _ := Enables(RomTarget);
      var ramRead, ramWrite := Enables(RamTarget);
      var uartRead, uartWrite := Enables(UartTarget);
      var timerRead, timerWrite := Enables(TimerTarget);
      var gpioRead, gpioWrite := Enables(GpioTarget);
      var debugRead, debugWrite := Enables(DebugTarget);
      hide ReadEnable, WriteEnable;
      if romRead {
        romData := env.rom[index];
      }
      ram.PosEdge(ramRead, ramWrite, index, data);
      uart.PosEdge(uartRead, uartWrite, offset, data);
      timer.PosEdge(tick, timerRead, timerWrite, offset, data);
      gpio.PosEdge(env.gpioIn, gpioRead, gpioWrite, offset, data);
      debug.PosEdge(debugRead, debugWrite, offset, data);
    }

    method PosEdge(env: I.Env, r: Request, tick: bool)
      requires Valid()
      modifies Repr()
      ensures State() == BusClock(env, old(State()), r, tick)
    {
      hide DeviceEdges;
      var before := state;
      ClockDevices(env, tick);
      match before
      case IDLE =>
        if r.valid {
          state, access, addr, wdata := ACCESS, r.access, r.addr, r.wdata;
        }
      case ACCESS => state := RESPOND;
      case RESPOND => state := IDLE;
    }
  }

  class CpuCore {
    const registers: RegisterFile
    var state: CpuState
    var pc: Word
    var ir: Word
    var lhs: Word
    var rhs: Word
    var alu: Word
    var store: Word
    var mem: Word
    var nextPc: Word
    var fault: FaultPort
    var retire: RetirePort

    ghost predicate Valid() { registers.Valid() }

    ghost function Repr(): set<object> { {this, registers.registers} }

    ghost function State(): Cpu
      requires Valid()
      reads Repr()
    {
      Cpu(state, pc, ir, lhs, rhs, alu, store, mem, nextPc, fault, retire, registers.State())
    }

    constructor ()
      ensures Valid() && fresh(Repr())
      ensures State() == Cpu(FETCH, 0, 0, 0, 0, 0, 0, 0, 0, FaultPort(I.NoFault, 0, 0, false, 0),
                             RetirePort(false, 0, 0, 0, false, 0, 0, false, 0, 0), State().regs)
      ensures forall r :: 1 <= r < 32 ==> State().regs[r] == 0
    {
      registers := new RegisterFile();
      state, pc, ir, lhs, rhs, alu, store, mem, nextPc := FETCH, 0, 0, 0, 0, 0, 0, 0, 0;
      fault := FaultPort(I.NoFault, 0, 0, false, 0);
      retire := RetirePort(false, 0, 0, 0, false, 0, 0, false, 0, 0);
    }

    method EnterFault(code: I.CpuFault, instruction: Word, address: Option<Word>)
      requires Valid()
      modifies this`fault, this`state
      ensures State() == Rtl.EnterFault(old(State()), code, instruction, address)
    {
      fault := FaultPort(code, pc, instruction, address.Some?, if address.Some? then address.value else 0);
      state := FAULT;
    }

    /** record_retirement without a register write, and the move to FETCH. */
    method RetireTo(target: Word, stored: Option<(Word, Word)>)
      requires Valid()
      modifies this`pc, this`state, this`retire
      ensures State() == Rtl.RetireTo(old(State()), old(State()), target, stored)
    {
      retire := RetirePort(true, pc, ir, target, false, 0, 0, stored.Some?,
                           if stored.Some? then stored.value.0 else 0, if stored.Some? then stored.value.1 else 0);
      pc, state := target, FETCH;
    }

    method DecodeEdge()
      requires Valid()
      modifies this
      ensures State() == CpuDecode(old(State()), old(State()))
    {
      hide Slice, ControlUnit, Immediate, Wrap;
      var f := Slice(ir);
      var k := ControlUnit(f.opcode);
      if !f.valid {
        EnterFault(if f.malformed then I.MalformedInstruction else I.IllegalInstruction, ir, None);
      } else if !Supported(f.opcode) {
        EnterFault(I.UnsupportedInstruction, ir, None);
      } else {
        var rs1 := if f.rs1 == 0 then 0 else registers.registers[f.rs1];
        var rs2 := if f.rs2 == 0 then 0 else registers.registers[f.rs2];
        lhs, rhs, store := rs1, if k.aluSrcImmediate then Immediate(k.immediate, f.imm16) else rs2, rs2;
        nextPc, state := Wrap(pc + 4), EXECUTE;
      }
    }

    method ExecuteEdge()
      requires Valid()
      modifies this
      ensures State() == CpuExecute(old(State()), old(State()))
    {
      hide Slice, ControlUnit, AluResult, BranchTaken, BranchDisplacement, JumpDisplacement, Wrap;
      var f := Slice(ir);
      var k := ControlUnit(f.opcode);
      alu := AluResult(k.aluOp, lhs, rhs);
      if k.flow == ConditionalBranch {
        RetireTo(if BranchTaken(k.branch, lhs, rhs) then Wrap(pc + 4 + BranchDisplacement(f.imm16))
                 else Wrap(pc + 4), None);
      } else if k.flow == RelativeJump {
        nextPc := Wrap(pc + 4 + JumpDisplacement(f.imm26));
        if !k.regWrite {
          RetireTo(nextPc, None);
        } else {
          state := WRITEBACK;
        }
      } else if k.flow == RegisterJump {
        RetireTo(lhs, None);
      } else {
        state := if k.memory != MemNone then MEMORY else WRITEBACK;
      }
    }

    method MemoryEdge(r: Response)
      requires Valid()
      modifies this
      ensures State() == CpuMemory(old(State()), old(State()), r)
    {
      hide Slice, ControlUnit;
      var k := ControlUnit(Slice(ir).opcode);
      if r.ready {
        if r.fault.Some? {
          EnterFault(if k.memory == MemLoad then LoadFault(r.fault.value)
                     else StoreFault(r.fault.value), ir, Some(alu));
        } else if k.memory == MemLoad {
          mem, state := r.rdata, WRITEBACK;
        } else {
          RetireTo(nextPc, Some((alu, store)));
        }
      }
    }

    method WritebackEdge()
      requires Valid()
      modifies this, registers.registers
      ensures State() == CpuWriteback(old(State()), old(State()))
    {
      hide Slice, ControlUnit;
      var f := Slice(ir);
      var k := ControlUnit(f.opcode);
      var dest := if k.destination == ReturnAddress then 31 else f.rd;
      var value := match k.source
        case FromMemory => mem
        case FromPcPlus4 => Wrap(pc + 4)
        case FromAlu => alu;
      var current := if dest == 0 then 0 else registers.registers[dest];
      retire := RetirePort(true, pc, ir, nextPc, k.regWrite && dest != 0 && value != current, dest, value, false, 0, 0);
      registers.PosEdge(k.regWrite, dest, value);
      pc, state := nextPc, if k.halt then HALTED else FETCH;
    }

    /** One rising edge outside reset. */
    method PosEdge(r: Response)
      requires Valid()
      modifies Repr()
      ensures State() == CpuClock(old(State()), r)
    {
      hide CpuDecode, CpuExecute, CpuMemory, CpuWriteback;
      ghost var before := State();
      retire := retire.(valid := false, regWrite := false, memWrite := false);
      match state
      case FETCH =>
        if r.ready {
          if r.fault.None? {
            ir, state := r.rdata, DECODE;
          } else {
            EnterFault(FetchFault(r.fault.value), 0, None);
          }
        }
      case DECODE => DecodeEdge(); RetireRegistersOnly(before, r);
      case EXECUTE => ExecuteEdge(); RetireRegistersOnly(before, r);
      case MEMORY => MemoryEdge(r); RetireRegistersOnly(before, r);
      case WRITEBACK => WritebackEdge(); RetireRegistersOnly(before, r);
      case HALTED =>
      case FAULT =>
    }
  }

  /** Clearing the pulse first does not change what a state's case computes. */
  lemma RetireRegistersOnly(c: Cpu, r: Response)
    ensures var q := c.(retire := c.retire.(valid := false, regWrite := false, memWrite := false));
            && CpuDecode(q, q) == CpuDecode(c, q) && CpuExecute(q, q) == CpuExecute(c, q)
            && CpuMemory(q, q, r) == CpuMemory(c, q, r) && CpuWriteback(q, q) == CpuWriteback(c, q)
  {
    hide Slice, ControlUnit, AluResult, BranchTaken, BranchDisplacement, JumpDisplacement, Wrap, Immediate;
  }

  /** CPU and bus on one clock: every combinational wire is sampled first. */
  class Mini32System {
    const cpu: CpuCore
    const bus: SystemBus
    const env: I.Env

    ghost predicate Valid() {
      cpu.Valid() && bus.Valid() && cpu.Repr() !! bus.Repr() && this !in cpu.Repr() + bus.Repr()
    }

    ghost function State(): System
      requires Valid()
      reads cpu.Repr(), bus.Repr()
    {
      System(cpu.State(), bus.State())
    }

    constructor (env: I.Env, contents: I.Words16K)
      ensures Valid() && this.env == env && fresh(cpu.Repr()) && fresh(bus.Repr())
      ensures IsReset(State()) && State().bus.ram.words == contents
    {
      cpu := new CpuCore();
      bus := new SystemBus(contents);
      this.env := env;
    }

    /** The bus response wires, from the bus registers. */
    method Respond() returns (r: Response)
      requires Valid()
      ensures r == BusResponse(bus.State())
    {
      if bus.state != RESPOND {
        return Response(false, 0, None);
      }
      var failure := PendingFault(bus.access, bus.addr);
      var data := match PendingTarget(bus.addr)
        case RomTarget => bus.romData
        case RamTarget => bus.ram.readData
        case UartTarget => bus.uart.readData
        case TimerTarget => bus.timer.readData
        case GpioTarget => bus.gpio.readData
        case DebugTarget => bus.debug.readData
        case NoTarget => 0;
      r := Response(true, if failure.Some? then 0 else data, failure);
    }

    /** The CPU request wires, from the CPU registers. */
    method Request() returns (r: Rtl.Request)
      requires Valid()
      ensures r == CpuRequest(cpu.State())
    {
      hide Slice, ControlUnit;
      if cpu.state == FETCH {
        r := Rtl.Request(true, BusFetch, cpu.pc, 0);
      } else if cpu.state == MEMORY {
        var access := if ControlUnit(Slice(cpu.ir).opcode).memory == MemStore then BusStore else BusLoad;
        r := Rtl.Request(true, access, cpu.alu, cpu.store);
      } else {
        r := Rtl.Request(false, BusFetch, 0, 0);
      }
    }

    /** The uart_tx_valid and uart_tx_data ports. */
    method UartEvent() returns (event: Option<Byte>)
      requires Valid()
      ensures var u := State().bus.uart;
              event == if u.txValid then Some(u.txData) else None
    {
      event := if bus.uart.txValid then Some(bus.uart.txData) else None;
    }

    method PosEdge()
      requires Valid()
      modifies cpu.Repr(), bus.Repr()
      ensures State() == Clock(env, old(State()))
    {
      hide CpuClock, BusClock, BusResponse, CpuRequest;
      var response := Respond();
      var request := Request();
      var tick := cpu.retire.valid;
      cpu.PosEdge(response);
      bus.PosEdge(env, request, tick);
    }
  }
}
