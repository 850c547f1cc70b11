/** The C++ objects themselves: registers, memories and devices updated in place
    behind a bus, and the core whose tick mutates latches and whose step loops. */
module SimulatorObjects {
  import opened Words
  import I = Isa
  import opened Control
  import opened Simulator
  import SI = SimulatorIsa

  class RegisterFile {
    const registers: array<Word>

    ghost predicate Valid() { registers.Length == 32 }

    ghost function State(): I.Registers
      requires Valid()
      reads registers
    {
      registers[..]
    }

    constructor ()
      ensures Valid() && fresh(registers) && State() == I.ZeroRegisters()
    {
      registers := new Word[32](i => 0);
    }

    method Read(index: RegIndex) returns (value: Word)
      requires Valid()
      ensures value == RegRead(State(), index)
    {
      value := if index == 0 then 0 else registers[index];
    }

    method Write(index: RegIndex, value: Word)
      requires Valid()
      modifies registers
      ensures State() == RegWrite(old(State()), index, value)
    {
      if index != 0 {
        registers[index] := value;
      }
    }
  }

  /** 64 KiB of bytes; `base` is where the bus maps them. */
  class ByteMemory {
    const bytes: array<Byte>

    ghost predicate Valid() { bytes.Length == 65536 }

    ghost function State(): Bytes64K
      requires Valid()
      reads bytes
    {
      bytes[..]
    }

    constructor ()
      ensures Valid() && fresh(bytes) && State() == seq(65536, i => 0)
    {
      bytes := new Byte[65536](i => 0);
    }

    method LoadWord(offset: int) returns (value: Word)
      requires Valid() && 0 <= offset <= 65532
      ensures value == ReadWord(State(), offset)
    {
      value := LittleEndian(bytes[offset], bytes[offset + 1], bytes[offset + 2], bytes[offset + 3]);
    }

    method StoreWord(offset: int, value: Word)
      requires Valid() && 0 <= offset <= 65532
      modifies bytes
      ensures State() == WriteWord(old(State()), offset, value)
    {
      bytes[offset] := value % 0x100;
      bytes[offset + 1] := value / 0x100 % 0x100;
      bytes[offset + 2] := value / 0x1_0000 % 0x100;
      bytes[offset + 3] := value / 0x100_0000 % 0x100;
    }

    /** Rom::load_bytes: the copy loop, or an exception that loads nothing. */
    method LoadBytes(address: Word, image: seq<Byte>) returns (ok: bool)
      requires Valid()
      modifies bytes
      ensures ok <==> address <= 0xFFFF && |image| <= 0x1_0000 - address
      ensures State() == if ok then old(State())[..address] + image + old(State())[address + |image|..]
                         else old(State())
    {
      if address > 0xFFFF || |image| > 0x1_0000 - address {
        return false;
      }
      for i := 0 to |image|
        invariant bytes[..] == old(bytes[..])[..address] + image[..i] + old(bytes[..])[address + i..]
      {
        bytes[address + i] := image[i];
      }
      ok := true;
    }
  }

  class Timer {
    var counter: Word
    var compare: Word
    var enabled: bool

    ghost function State(): I.Timer
      reads this
    {
      I.Timer(counter, compare, enabled)
    }

    constructor ()
      ensures State() == I.Timer(0, 0, false)
    {
      counter, compare, enabled := 0, 0, false;
    }

    method Read32(address: Word) returns (r: Access<Word>)
      ensures r == Simulator.TimerRead32(State(), address)
    {
      match Validate(TIMER_BASE, address)
      case Denied(f) => r := Denied(f);
      case Granted(offset) =>
        if offset == 0x00 { r := Granted(counter); }
        else if offset == 0x04 { r := Granted(compare); }
        else if offset == 0x08 { r := Granted(if enabled then 1 else 0); }
        else if offset == 0x0C { r := Granted(if enabled && counter == compare then 1 else 0); }
        else { r := Granted(0); }
    }

    method Write32(address: Word, value: Word) returns (r: Access<()>)
      modifies this
      ensures match Simulator.TimerWrite32(old(State()), address, value)
              case Granted(t) => r == Granted(()) && State() == t
              case Denied(f) => r == Denied(f) && State() == old(State())
    {
      match Validate(TIMER_BASE, address)
      case Denied(f) => r := Denied(f);
      case Granted(offset) =>
        if offset == 0x00 { counter := value; }
        else if offset == 0x04 { compare := value; }
        else if offset == 0x08 { enabled := value % 2 != 0; }
        r := Granted(());
    }

    method RetireTick()
      modifies this
      ensures State() == Simulator.RetireTick(old(State()))
    {
      if enabled {
        counter := Wrap(counter + 1);
      }
    }
  }

  /** The UART with the callback that appends to the transcript. */
  class Uart {
    var transcript: seq<Byte>

    constructor ()
      ensures transcript == []
    {
      transcript := [];
    }

    method Write32(address: Word, value: Word) returns (r: Access<()>)
      modifies this
      ensures match Simulator.UartWrite32(old(transcript), address, value)
              case Granted(t) => r == Granted(()) && transcript == t
              case Denied(f) => r == Denied(f) && transcript == old(transcript)
    {
      match Validate(UART_BASE, address)
      case Denied(f) => r := Denied(f);
      case Granted(offset) =>
        if offset == 0x00 {
          transcript := transcript + [value % 0x100];
          r := Granted(());
        } else if offset == 0x04 || offset == 0x08 || offset == 0x0C {
          r := Granted(());
        } else {
          r := Denied(OutOfRange);
        }
    }
  }

  class GpioDevice {
    var input: Word
    var output: Word
    var direction: Word

    ghost function State(): Gpio
      reads this
    {
      Gpio(input, output, direction)
    }

    constructor (input: Word)
      ensures State() == Gpio(input, 0, 0)
    {
      this.input, output, direction := input, 0, 0;
    }

    method Write32(address: Word, value: Word) returns (r: Access<()>)
      modifies this
      ensures match Simulator.GpioWrite32(old(State()), address, value)
              case Granted(g) => r == Granted(()) && State() == g
              case Denied(f) => r == Denied(f) && State() == old(State())
    {
      match Validate(GPIO_BASE, address)
      case Denied(f) => r := Denied(f);
      case Granted(offset) =>
        if offset == 0x04 { output := value; }
        else if offset == 0x08 { direction := value; }
        r := Granted(());
    }
  }

  class DebugDevice {
    var value: Word

    constructor ()
      ensures value == 0
    {
      value := 0;
    }

    method Write32(address: Word, v: Word) returns (r: Access<()>)
      modifies this
      ensures match Simulator.DebugWrite32(old(value), address, v)
              case Granted(d) => r == Granted(()) && value == d
              case Denied(f) => r == Denied(f) && value == old(value)
    {
      match Validate(DEBUG_BASE, address)
      case Denied(f) => r := Denied(f);
      case Granted(offset) =>
        if offset == 0 { value := v; }
        r := Granted(());
    }
  }

  class SystemBus {
    const rom: ByteMemory
    const ram: ByteMemory
    const uart: Uart
    const timer: Timer
    const gpio: GpioDevice
    const debug: DebugDevice

    ghost predicate Valid() { rom.Valid() && ram.Valid() && rom.bytes != ram.bytes }

    /** Everything a guest access may change. */
    ghost function Devices(): set<object> { {ram.bytes, uart, timer, gpio, debug} }

    ghost function State(): Bus
      requires Valid()
      reads rom.bytes, Devices()
    {
      Bus(rom.State(), ram.State(), uart.transcript, timer.State(), gpio.State(), debug.value)
    }

    constructor (rom: ByteMemory, ram: ByteMemory, uart: Uart, timer: Timer, gpio: GpioDevice, debug: DebugDevice)
      requires rom.Valid() && ram.Valid() && rom.bytes != ram.bytes
      ensures Valid()
      ensures this.rom == rom && this.ram == ram && this.uart == uart && this.timer == timer && this.gpio == gpio
              && this.debug == debug
    {
      this.rom, this.ram, this.uart, this.timer, this.gpio, this.debug := rom, ram, uart, timer, gpio, debug;
    }

    method Read32(address: Word) returns (r: I.BusRead)
      requires Valid()
      ensures r == Simulator.Read32(State(), address)
    {
      if address % 4 != 0 {
        r := I.ReadFault(I.Misaligned);
      } else if Within(0, 0xFFFF, address) {
        r := RomAccess(address);
      } else if Within(0x1000_0000, 0x1000_FFFF, address) {
        if !ValidRamAddress(address) {
          return I.ReadFault(I.Unmapped);
        }
        var v := ram.LoadWord(address - 0x1000_0000);
        r := I.Data(v);
      } else if Within(UART_BASE, UART_BASE + 15, address) {
        r := Lift(UartRead32(address));
      } else if Within(TIMER_BASE, TIMER_BASE + 15, address) {
        var t := timer.Read32(address);
        r := Lift(t);
      } else if Within(GPIO_BASE, GPIO_BASE + 15, address) {
        r := Lift(GpioRead32(Gpio(gpio.input, gpio.output, gpio.direction), address));
      } else if Within(DEBUG_BASE, DEBUG_BASE + 15, address) {
        r := Lift(DebugRead32(debug.value, address));
      } else {
        r := I.ReadFault(I.Unmapped);
      }
    }

    method RomAccess(address: Word) returns (r: I.BusRead)
      requires Valid()
      ensures r == Lift(RomRead32(rom.State(), address))
    {
      if address % 4 != 0 {
        r := I.ReadFault(I.Misaligned);
      } else if address > 0xFFFF || address > 0xFFFC {
        r := I.ReadFault(I.Unmapped);
      } else {
        var v := rom.LoadWord(address);
        r := I.Data(v);
      }
    }

    method Fetch32(address: Word) returns (r: I.BusRead)
      requires Valid()
      ensures r == Simulator.Fetch32(State(), address)
    {
      if address % 4 != 0 {
        r := I.ReadFault(I.Misaligned);
      } else if Within(0, 0xFFFF, address) {
        r := RomAccess(address);
      } else if Within(0x1000_0000, 0x1000_FFFF, address) {
        r := I.ReadFault(I.NonExecutable);
      } else if || Within(UART_BASE, UART_BASE + 15, address) || Within(TIMER_BASE, TIMER_BASE + 15, address)
                || Within(GPIO_BASE, GPIO_BASE + 15, address) || Within(DEBUG_BASE, DEBUG_BASE + 15, address) {
        r := I.ReadFault(I.NonExecutable);
      } else {
        r := I.ReadFault(I.Unmapped);
      }
    }

    /** The fault of a write, or None; on a fault nothing changes. */
    method Write32(address: Word, value: Word) returns (fault: Option<I.BusFault>)
      requires Valid()
      modifies Devices()
      ensures match Simulator.Write32(old(State()), address, value)
              case Done(b) => fault == None && State() == b
              case WriteFault(f) => fault == Some(f) && State() == old(State())
    {
      if address % 4 != 0 {
        return Some(I.Misaligned);
      } else if Within(0, 0xFFFF, address) {
        return Some(I.ReadOnly);
      } else if Within(0x1000_0000, 0x1000_FFFF, address) {
        if !ValidRamAddress(address) {
          return Some(I.Unmapped);
        }
        ram.StoreWord(address - 0x1000_0000, value);
        return None;
      }
      var r: Access<()>;
      if Within(UART_BASE, UART_BASE + 15, address) {
        r := uart.Write32(address, value);
      } else if Within(TIMER_BASE, TIMER_BASE + 15, address) {
        r := timer.Write32(address, value);
      } else if Within(GPIO_BASE, GPIO_BASE + 15, address) {
        r := gpio.Write32(address, value);
      } else if Within(DEBUG_BASE, DEBUG_BASE + 15, address) {
        r := debug.Write32(address, value);
      } else {
        return Some(I.Unmapped);
      }
      fault := if r.Granted? then None else Some(ToBusFault(r.fault));
    }
  }

  datatype StepResult = StepRetired | StepHalted | StepFaulted

  class CpuCore {
    const bus: SystemBus
    const registers: RegisterFile
    var pc: Word
    var ir: Word
    var lhs: Word
    var rhs: Word
    var alu: Word
    var storeData: Word
    var memoryData: Word
    var pcPlus4: Word
    var nextPc: Word
    var micro: Microstate
    var decoded: Option<Decoded>
    var control: Option<Signals>
    var retired: nat
    var fault: I.FaultInfo

    ghost predicate Valid() {
      bus.Valid() && registers.Valid() && registers.registers as object !in bus.Devices() + {bus.rom.bytes}
    }

    ghost function Repr(): set<object> { {this, registers.registers} + bus.Devices() }

    ghost function State(): Sim
      requires Valid()
      reads Repr(), bus.rom.bytes
    {
      Sim(Core(registers.State(), pc, ir, lhs, rhs, alu, storeData, memoryData, pcPlus4, nextPc, micro, decoded,
               control, retired, fault), bus.State())
    }

    constructor (bus: SystemBus)
      requires bus.Valid()
      ensures Valid() && this.bus == bus && fresh(registers.registers)
      ensures State() == Sim(ResetCore(), bus.State())
    {
      this.bus := bus;
      registers := new RegisterFile();
      pc, ir, lhs, rhs, alu, storeData, memoryData, pcPlus4, nextPc := 0, 0, 0, 0, 0, 0, 0, 0, 0;
      micro, decoded, control, retired, fault := Fetch, None, None, 0, NO_FAULT;
    }

    /** halted() or faulted(), and retired_instructions(). */
    method Progress() returns (stopped: bool, count: nat)
      requires Valid()
      ensures stopped == State().core.Stopped() && count == State().core.retired
    {
      stopped, count := micro == Halted || micro == Fault, retired;
    }

    method EnterFault(code: I.CpuFault, address: Option<Word>)
      requires Valid()
      modifies this`fault, this`micro
      ensures State() == old(State()).(core := Simulator.EnterFault(old(State()).core, code, address))
    {
      fault := I.FaultInfo(code, pc, ir, address);
      micro := Fault;
    }

    method RetireTo(target: Word)
      requires Valid()
      modifies this`pc, this`retired, this`micro, bus.timer
      ensures State() == Simulator.RetireTo(old(State()), target)
    {
      pc := target;
      retired := retired + 1;
      bus.timer.RetireTick();
      micro := Fetch;
    }

    /** A fetch starts with an empty instruction register and the sequential successor. */
    method BeginFetch()
      requires Valid()
      modifies this`ir, this`pcPlus4, this`nextPc
      ensures var s, next := old(State()), Wrap(old(pc) + 4);
              State() == s.(core := s.core.(ir := 0, pcPlus4 := next, nextPc := next))
    {
      hide Wrap, SystemBus.State, RegisterFile.State;
      ir, pcPlus4, nextPc := 0, Wrap(pc + 4), Wrap(pc + 4);
    }

    method FetchState()
      requires Valid()
      modifies this`ir, this`pcPlus4, this`nextPc, this`fault, this`micro
      ensures State() == TickFetch(old(State()))
    {
      hide Simulator.Fetch32, Wrap, SystemBus.State, RegisterFile.State;
      var result := bus.Fetch32(pc);
      BeginFetch();
      if result.ReadFault? {
        EnterFault(if result.fault == I.Misaligned then I.MisalignedInstructionFetch
                   else if result.fault == I.NonExecutable then I.NonExecutableInstructionFetch
                   else I.UnmappedInstructionFetch, None);
      } else {
        ir, micro := result.value, Microstate.Decode;
      }
    }

    method DecodeState()
      requires Valid()
      modifies this
      ensures State() == TickDecode(old(State()))
    {
      hide DecodeWord, ControlFor, ImmediateValue, RegRead, SystemBus.State;
      var result := DecodeWord(ir);
      if !result.Instruction? {
        EnterFault(if result.IllegalOpcode? then I.IllegalInstruction else I.MalformedInstruction, None);
        return;
      }
      decoded, control := Some(result.decoded), ControlFor(result.decoded.opcode);
      if control.None? {
        EnterFault(I.UnsupportedInstruction, None);
        return;
      }
      LatchOperands(result.decoded, control.value);
    }

    method LatchOperands(d: Decoded, k: Signals)
      requires Valid() && d.Valid()
      modifies this`lhs, this`rhs, this`storeData, this`micro
      ensures var c := old(State()).core;
              State() == old(State()).(core := c.(
                lhs := RegRead(c.regs, d.rs1),
                rhs := if k.aluSrcImmediate then ImmediateValue(k.immediate, d.imm16) else RegRead(c.regs, d.rs2),
                storeData := RegRead(c.regs, d.rs2), micro := Execute))
    {
      hide ImmediateValue, RegRead, SystemBus.State;
      var first := registers.Read(d.rs1);
      var second := registers.Read(d.rs2);
      var operand := if k.aluSrcImmediate then ImmediateValue(k.immediate, d.imm16) else second;
      lhs, rhs, storeData, micro := first, operand, second, Execute;
    }

    method Taken() returns (taken: bool)
      requires Valid() && control.Some?
      ensures taken == BranchTaken(State().core)
    {
      match control.value.branch
      case BranchEqual => taken := lhs == rhs;
      case BranchNotEqual => taken := lhs != rhs;
      case BranchSignedLess => taken := SignedLessThan(lhs, rhs);
      case BranchSignedGreaterEqual => taken := !SignedLessThan(lhs, rhs);
      case BranchNone => taken := false;
    }

    method LatchAlu(k: Signals)
      requires Valid()
      modifies this`alu
      ensures var s := old(State());
              State() == s.(core := s.core.(alu := AluExecute(k.aluOp, lhs, rhs)))
    {
      hide AluExecute, SystemBus.State, RegisterFile.State;
      alu := AluExecute(k.aluOp, lhs, rhs);
    }

    method ExecuteState()
      requires Valid() && WellFormed(State().core) && micro == Execute
      modifies this`alu, this`nextPc, this`pc, this`retired, this`micro, bus.timer
      ensures State() == TickExecute(old(State()))
    {
      hide DecodeWord, ControlFor, AluExecute, BranchDisplacement, JumpDisplacement, Wrap, SignedLessThan,
        Simulator.RetireTick;
      var k, d := control.value, decoded.value;
      LatchAlu(k);
      if k.flow == ConditionalBranch {
        var taken := Taken();
        RetireTo(if taken then Wrap(pcPlus4 + BranchDisplacement(d.imm16)) else pcPlus4);
      } else if k.flow == RelativeJump {
        nextPc := Wrap(pcPlus4 + JumpDisplacement(d.imm26));
        if !k.regWrite {
          RetireTo(nextPc);
        } else {
          micro := if k.memory == MemNone then Writeback else Memory;
        }
      } else if k.flow == RegisterJump {
        RetireTo(lhs);
      } else {
        micro := if k.memory == MemNone then Writeback else Memory;
      }
    }

    method MemoryState()
      requires Valid() && WellFormed(State().core) && micro == Memory
      modifies this, bus.Devices()
      ensures State() == TickMemory(old(State()))
    {
      hide DecodeWord, ControlFor, Simulator.Read32, Simulator.Write32;
      if control.value.memory == MemLoad {
        var result := bus.Read32(alu);
        if result.ReadFault? {
          EnterFault(if result.fault == I.Misaligned then I.MisalignedLoad else I.UnmappedLoad, Some(alu));
          return;
        }
        memoryData := result.value;
        micro := Writeback;
        return;
      }
      if control.value.memory == MemStore {
        var failed := bus.Write32(alu, storeData);
        if failed.Some? {
          var code := I.UnmappedStore;
          if failed.value == I.Misaligned {
            code := I.MisalignedStore;
          } else if failed.value == I.ReadOnly {
            code := I.ReadOnlyStore;
          }
          EnterFault(code, Some(alu));
          return;
        }
        RetireTo(nextPc);
      }
    }

    method WritebackState()
      requires Valid() && WellFormed(State().core) && micro == Writeback
      modifies this, registers.registers, bus.timer
      ensures State() == TickWriteback(old(State()))
    {
      hide DecodeWord, ControlFor, RegWrite;
      var k := control.value;
      if k.regWrite {
        var value := alu;
        if k.source == FromMemory {
          value := memoryData;
        } else if k.source == FromPcPlus4 {
          value := pcPlus4;
        }
        registers.Write(if k.destination == ReturnAddress then 31 else decoded.value.rd, value);
      }
      RetireTo(nextPc);
      if k.halt {
        micro := Halted;
      }
    }

    /** One microstate transition; halted and faulted cores absorb it. */
    method Tick()
      requires Valid() && WellFormed(State().core)
      modifies Repr()
      ensures State() == Simulator.Tick(old(State()))
    {
      hide WellFormed, TickFetch, TickDecode, TickExecute, TickMemory, TickWriteback;
      match micro
      case Fetch => FetchState();
      case Decode => DecodeState();
      case Execute => ExecuteState();
      case Memory => MemoryState();
      case Writeback => WritebackState();
      case Halted =>
      case Fault =>
    }

    /** One instruction: the tick loop, bounded by the microstate's rank. */
    method Step() returns (result: StepResult)
      requires Valid() && WellFormed(State().core)
      modifies Repr()
      ensures State() == SI.Step(old(State())) && WellFormed(State().core)
      ensures result == if micro == Fault then StepFaulted else if micro == Halted then StepHalted else StepRetired
    {
      hide WellFormed, Simulator.Tick, SystemBus.State, RegisterFile.State;
      if micro == Halted {
        return StepHalted;
      }
      if micro == Fault {
        return StepFaulted;
      }
      var before := retired;
      while micro != Halted && micro != Fault && retired == before
        invariant WellFormed(State().core)
        invariant SI.StepFrom(State(), before) == SI.StepFrom(old(State()), before)
        invariant retired == before || SI.StepFrom(State(), before) == State()
        decreases if retired == before then SI.Rank(micro) else 0
      {
        SI.TickProgress(State());
        Tick();
      }
      result := if micro == Fault then StepFaulted else if micro == Halted then StepHalted else StepRetired;
    }
  }
}
