/** The SystemVerilog machine, one function per clocked process: each maps the
    registers before a rising edge, and the combinational inputs seen at that
    edge, to the registers after it. */
module Rtl {
  import opened Words
  import I = Isa
  import opened Control

  // ---- decoder.sv ----

  datatype Fields = Fields(opcode: int, rd: RegIndex, rs1: RegIndex, rs2: RegIndex,
                           imm16: int, imm26: int, valid: bool, malformed: bool)
  {
    predicate InRange() { 0 <= opcode < 64 && 0 <= imm16 < 0x1_0000 && 0 <= imm26 < 0x400_0000 }
  }

  function Slice(w: Word): (f: Fields)
    ensures f.InRange()
  {
    SliceParts(w / 0x400_0000, w / 0x20_0000 % 32, w / 0x1_0000 % 32, w / 0x800 % 32,
               w % 0x800, w % 0x1_0000, w % 0x20_0000, w % 0x400_0000)
  }

  /** Arguments: instruction[31:26], [25:21], [20:16], [15:11], [10:0], [15:0], [20:0], [25:0]. */
  function SliceParts(b31: int, b25: RegIndex, b20: RegIndex, b15: RegIndex,
                      low11: int, low16: int, low21: int, low26: int): (f: Fields)
    requires 0 <= b31 < 64 && 0 <= low16 < 0x1_0000 && 0 <= low26 < 0x400_0000
    ensures f.InRange()
  {
    var f := Fields(b31, b25, b20, b15, low16, low26, true, false);
    var bad := f.(valid := false, malformed := true);
    if b31 == 0x00 || b31 == 0x17 then (if low26 != 0 then bad else f)
    else if b31 <= 0x08 then (if low11 != 0 then bad else f)
    else if b31 <= 0x0C || b31 == 0x0E then f
    else if b31 == 0x0D then (if b20 != 0 then bad else f)
    else if b31 == 0x0F then f.(rs2 := b25)
    else if b31 <= 0x13 then f.(rs1 := b25, rs2 := b20)
    else if b31 <= 0x15 then f
    else if b31 == 0x16 then
      (if low21 != 0 then bad.(rs1 := b25) else f.(rs1 := b25))
    else f.(valid := false)
  }

  // ---- control_unit.sv ----

  function ControlUnit(opcode: int): Signals {
    var d := DEFAULT;
    match opcode
    case 0x01 => d.(regWrite := true, aluOp := I.Add)
    case 0x02 => d.(regWrite := true, aluOp := I.Sub)
    case 0x03 => d.(regWrite := true, aluOp := I.And)
    case 0x04 => d.(regWrite := true, aluOp := I.Or)
    case 0x05 => d.(regWrite := true, aluOp := I.Xor)
    case 0x06 => d.(regWrite := true, aluOp := I.Slt)
    case 0x07 => d.(regWrite := true, aluOp := I.Shl)
    case 0x08 => d.(regWrite := true, aluOp := I.Shr)
    case 0x09 => d.(regWrite := true, aluSrcImmediate := true, immediate := Signed16)
    case 0x0A => d.(regWrite := true, aluSrcImmediate := true, aluOp := I.And, immediate := ZeroExtended16)
    case 0x0B => d.(regWrite := true, aluSrcImmediate := true, aluOp := I.Or, immediate := ZeroExtended16)
    case 0x0C => d.(regWrite := true, aluSrcImmediate := true, aluOp := I.Xor, immediate := ZeroExtended16)
    case 0x0D => d.(regWrite := true, aluSrcImmediate := true, immediate := Upper16)
    case 0x0E => d.(regWrite := true, aluSrcImmediate := true, immediate := Signed16, memory := MemLoad,
                    source := FromMemory)
    case 0x0F => d.(aluSrcImmediate := true, immediate := Signed16, memory := MemStore)
    case 0x10 => d.(flow := ConditionalBranch, branch := BranchEqual)
    case 0x11 => d.(flow := ConditionalBranch, branch := BranchNotEqual)
    case 0x12 => d.(flow := ConditionalBranch, branch := BranchSignedLess)
    case 0x13 => d.(flow := ConditionalBranch, branch := BranchSignedGreaterEqual)
    case 0x14 => d.(flow := RelativeJump)
    case 0x15 => d.(regWrite := true, flow := RelativeJump, source := FromPcPlus4, destination := ReturnAddress)
    case 0x16 => d.(flow := RegisterJump)
    case 0x17 => d.(halt := true)
    case _ => d
  }

  predicate Supported(opcode: int) { 0 <= opcode <= 0x17 }

  // ---- immediate_generator.sv, alu.sv ----

  /** A replicated sign bit in front of a field of the given weight. */
  function SignBits(bit: int, ones: int, weight: int): int { if bit == 1 then ones * weight else 0 }

  function Immediate(kind: ImmediateKind, imm16: int): Word
    requires 0 <= imm16 < 0x1_0000
  {
    match kind
    case ImmNone => 0
    case Signed16 => SignBits(imm16 / 0x8000, 0xFFFF, 0x1_0000) + imm16
    case ZeroExtended16 => imm16
    case Upper16 => imm16 * 0x1_0000
  }

  function BranchDisplacement(imm16: int): Word
    requires 0 <= imm16 < 0x1_0000
  {
    SignBits(imm16 / 0x8000, 0x3FFF, 0x4_0000) + imm16 * 4
  }

  function JumpDisplacement(imm26: int): Word
    requires 0 <= imm26 < 0x400_0000
  {
    SignBits(imm26 / 0x200_0000, 0xF, 0x1000_0000) + imm26 * 4
  }

  function AluResult(op: I.AluOp, l: Word, r: Word): Word {
    match op
    case Add => Wrap(l + r)
    case Sub => Wrap(l - r)
    case And => And32(l, r)
    case Or => Or32(l, r)
    case Xor => Xor32(l, r)
    case Slt => if Signed(l) < Signed(r) then 1 else 0
    case Shl => Shl32(l, r)
    case Shr => Shr32(l, r)
  }

  predicate BranchTaken(p: BranchPredicate, l: Word, r: Word) {
    match p
    case BranchEqual => l == r
    case BranchNotEqual => l != r
    case BranchSignedLess => Signed(l) < Signed(r)
    case BranchSignedGreaterEqual => Signed(l) >= Signed(r)
    case BranchNone => false
  }

  // ---- register_file.sv ----

  function RegPort(regs: I.Registers, addr: RegIndex): Word { if addr == 0 then 0 else regs[addr] }

  // ---- cpu_core.sv ----

  datatype CpuState = FETCH | DECODE | EXECUTE | MEMORY | WRITEBACK | HALTED | FAULT

  datatype RetirePort = RetirePort(valid: bool, pc: Word, instruction: Word, nextPc: Word,
                                   regWrite: bool, rd: RegIndex, value: Word,
                                   memWrite: bool, memAddr: Word, memValue: Word)

  datatype FaultPort = FaultPort(code: I.CpuFault, pc: Word, instruction: Word, addressValid: bool, address: Word)

  datatype Cpu = Cpu(state: CpuState, pc: Word, ir: Word, lhs: Word, rhs: Word, alu: Word, store: Word,
                     mem: Word, nextPc: Word, fault: FaultPort, retire: RetirePort, regs: I.Registers)

  datatype Access = BusFetch | BusLoad | BusStore
  datatype Request = Request(valid: bool, access: Access, addr: Word, wdata: Word)

  /** What the bus answers: `fault` is None for BUS_FAULT_NONE. */
  datatype Response = Response(ready: bool, rdata: Word, fault: Option<I.BusFault>)

  function CpuRequest(c: Cpu): Request {
    if c.state == FETCH then Request(true, BusFetch, c.pc, 0)
    else if c.state == MEMORY then
      Request(true, if ControlUnit(Slice(c.ir).opcode).memory == MemStore then BusStore else BusLoad, c.alu, c.store)
    else Request(false, BusFetch, 0, 0)
  }

  function FetchFault(f: I.BusFault): I.CpuFault {
    match f
    case Misaligned => I.MisalignedInstructionFetch
    case NonExecutable => I.NonExecutableInstructionFetch
    case _ => I.UnmappedInstructionFetch
  }

  function LoadFault(f: I.BusFault): I.CpuFault {
    if f == I.Misaligned then I.MisalignedLoad else I.UnmappedLoad
  }

  function StoreFault(f: I.BusFault): I.CpuFault {
    match f
    case Misaligned => I.MisalignedStore
    case ReadOnly => I.ReadOnlyStore
    case _ => I.UnmappedStore
  }

  function EnterFault(c: Cpu, code: I.CpuFault, instruction: Word, address: Option<Word>): Cpu {
    c.(fault := FaultPort(code, c.pc, instruction, address.Some?, if address.Some? then address.value else 0),
       state := FAULT)
  }

  /** Retirement without a register write. */
  function RetireTo(q: Cpu, c: Cpu, nextPc: Word, store: Option<(Word, Word)>): Cpu {
    q.(pc := nextPc, state := FETCH,
       retire := RetirePort(true, c.pc, c.ir, nextPc, false, 0, 0, store.Some?,
                            if store.Some? then store.value.0 else 0, if store.Some? then store.value.1 else 0))
  }

  function CpuDecode(c: Cpu, q: Cpu): Cpu {
    var f := Slice(c.ir);
    var k := ControlUnit(f.opcode);
    if !f.valid then
      EnterFault(q, if f.malformed then I.MalformedInstruction else I.IllegalInstruction, c.ir, None)
    else if !Supported(f.opcode) then EnterFault(q, I.UnsupportedInstruction, c.ir, None)
    else
      q.(lhs := RegPort(c.regs, f.rs1),
         rhs := if k.aluSrcImmediate then Immediate(k.immediate, f.imm16) else RegPort(c.regs, f.rs2),
         store := RegPort(c.regs, f.rs2), nextPc := Wrap(c.pc + 4), state := EXECUTE)
  }

  function CpuExecute(c: Cpu, q: Cpu): Cpu {
    var f := Slice(c.ir);
    var k := ControlUnit(f.opcode);
    var q := q.(alu := AluResult(k.aluOp, c.lhs, c.rhs));
    if k.flow == ConditionalBranch then
      RetireTo(q, c, if BranchTaken(k.branch, c.lhs, c.rhs)
                     then Wrap(c.pc + 4 + BranchDisplacement(f.imm16)) else Wrap(c.pc + 4), None)
    else if k.flow == RelativeJump then
      var target := Wrap(c.pc + 4 + JumpDisplacement(f.imm26));
      var q := q.(nextPc := target);
      if !k.regWrite then RetireTo(q, c, target, None) else q.(state := WRITEBACK)
    else if k.flow == RegisterJump then RetireTo(q, c, c.lhs, None)
    else if k.memory != MemNone then q.(state := MEMORY)
    else q.(state := WRITEBACK)
  }

  function CpuMemory(c: Cpu, q: Cpu, r: Response): Cpu {
    var k := ControlUnit(Slice(c.ir).opcode);
    if !r.ready then q
    else if r.fault.Some? then
      EnterFault(q, if k.memory == MemLoad then LoadFault(r.fault.value) else StoreFault(r.fault.value),
                 c.ir, Some(c.alu))
    else if k.memory == MemLoad then q.(mem := r.rdata, state := WRITEBACK)
    else RetireTo(q, c, c.nextPc, Some((c.alu, c.store)))
  }

  function WritebackValue(c: Cpu, k: Signals): Word {
    match k.source
    case FromMemory => c.mem
    case FromPcPlus4 => Wrap(c.pc + 4)
    case FromAlu => c.alu
  }

  function CpuWriteback(c: Cpu, q: Cpu): Cpu {
    var f := Slice(c.ir);
    var k := ControlUnit(f.opcode);
    var dest := if k.destination == ReturnAddress then 31 else f.rd;
    var value := WritebackValue(c, k);
    var changes := k.regWrite && dest != 0 && value != RegPort(c.regs, dest);
    q.(pc := c.nextPc,
       retire := RetirePort(true, c.pc, c.ir, c.nextPc, changes, dest, value, false, 0, 0),
       regs := if k.regWrite && dest != 0 then c.regs[dest := value] else c.regs,
       state := if k.halt then HALTED else FETCH)
  }

  /** One rising edge of the CPU outside reset. */
  function CpuClock(c: Cpu, r: Response): Cpu {
    var q := c.(retire := c.retire.(valid := false, regWrite := false, memWrite := false));
    match c.state
    case FETCH =>
      if !r.ready then q
      else if r.fault.None? then q.(ir := r.rdata, state := DECODE)
      else EnterFault(q, FetchFault(r.fault.value), 0, None)
    case DECODE => CpuDecode(c, q)
    case EXECUTE => CpuExecute(c, q)
    case MEMORY => CpuMemory(c, q, r)
    case WRITEBACK => CpuWriteback(c, q)
    case _ => q
  }

  // ---- peripherals ----

  datatype UartMmio = UartMmio(readData: Word, txValid: bool, txData: Byte)

  function UartClock(u: UartMmio, re: bool, we: bool, offset: int, wdata: Word): UartMmio {
    var u := if re then u.(readData := if offset == 4 then 1 else 0) else u;
    if we && offset == 0 then u.(txValid := true, txData := wdata % 0x100) else u.(txValid := false)
  }

  datatype TimerMmio = TimerMmio(counter: Word, compare: Word, enabled: bool, readData: Word)

  function TimerClock(t: TimerMmio, tick: bool, re: bool, we: bool, offset: int, wdata: Word): TimerMmio {
    var q := if !re then t else t.(readData :=
      match offset
      case 0x0 => t.counter
      case 0x4 => t.compare
      case 0x8 => if t.enabled then 1 else 0
      case 0xC => if t.enabled && t.counter == t.compare then 1 else 0
      case _ => 0);
    if we then
      match offset
      case 0x0 => q.(counter := Wrap(wdata + (if tick && t.enabled then 1 else 0)))
      case 0x4 => q.(compare := wdata, counter := if tick && t.enabled then Wrap(t.counter + 1) else t.counter)
      case 0x8 => q.(enabled := wdata % 2 == 1,
                     counter := if tick && wdata % 2 == 1 then Wrap(t.counter + 1) else t.counter)
      case _ => if tick && t.enabled then q.(counter := Wrap(t.counter + 1)) else q
    else if tick && t.enabled then q.(counter := Wrap(t.counter + 1)) else q
  }

  datatype GpioMmio = GpioMmio(readData: Word, output: Word, direction: Word)

  function GpioClock(g: GpioMmio, input: Word, re: bool, we: bool, offset: int, wdata: Word): GpioMmio {
    var q := if !re then g else g.(readData :=
      match offset
      case 0x0 => input
      case 0x4 => g.output
      case 0x8 => g.direction
      case _ => 0);
    if we && offset == 4 then q.(output := wdata)
    else if we && offset == 8 then q.(direction := wdata) else q
  }

  datatype DebugMmio = DebugMmio(readData: Word, value: Word)

  function DebugClock(d: DebugMmio, re: bool, we: bool, offset: int, wdata: Word): DebugMmio {
    var q := if re then d.(readData := if offset == 0 then d.value else 0) else d;
    if we && offset == 0 then q.(value := wdata) else q
  }

  datatype RamBlock = RamBlock(words: I.Words16K, readData: Word)

  function RamClock(m: RamBlock, re: bool, we: bool, index: int, wdata: Word): RamBlock
    requires 0 <= index < 16384
  {
    RamBlock(if we then m.words[index := wdata] else m.words, if re then m.words[index] else m.readData)
  }

  // ---- system_bus.sv ----

  datatype BusState = IDLE | ACCESS | RESPOND

  datatype Bus = Bus(state: BusState, access: Access, addr: Word, wdata: Word, romData: Word,
                     ram: RamBlock, uart: UartMmio, timer: TimerMmio, gpio: GpioMmio, debug: DebugMmio)

  datatype Target = NoTarget | RomTarget | RamTarget | UartTarget | TimerTarget | GpioTarget | DebugTarget

  /** Address decode of the pending request; the selects are one-hot. */
  function PendingTarget(addr: Word): Target {
    if addr % 4 != 0 then NoTarget
    else if addr <= 0xFFFF then RomTarget
    else if addr >= 0x1000_0000 && addr <= 0x1000_FFFF then RamTarget
    else if addr >= 0x2000_0000 && addr <= 0x2000_000F then UartTarget
    else if addr >= 0x2000_0100 && addr <= 0x2000_010F then TimerTarget
    else if addr >= 0x2000_0200 && addr <= 0x2000_020F then GpioTarget
    else if addr >= 0x2000_0300 && addr <= 0x2000_030F then DebugTarget
    else NoTarget
  }

  function PendingFault(access: Access, addr: Word): Option<I.BusFault> {
    if addr % 4 != 0 then Some(I.Misaligned)
    else match PendingTarget(addr)
      case RomTarget => if access == BusStore then Some(I.ReadOnly) else None
      case NoTarget =>
        if access == BusFetch && 0x2000_0400 <= addr <= 0x2000_04FF then Some(I.NonExecutable)
        else Some(I.Unmapped)
      case _ => if access == BusFetch then Some(I.NonExecutable) else None
  }

  predicate ReadEnable(b: Bus, t: Target) {
    && b.state == ACCESS && PendingTarget(b.addr) == t && PendingFault(b.access, b.addr).None?
    && (if t == RomTarget then b.access != BusStore else b.access == BusLoad)
  }

  predicate WriteEnable(b: Bus, t: Target) {
    && b.state == ACCESS && PendingTarget(b.addr) == t && PendingFault(b.access, b.addr).None?
    && b.access == BusStore
  }

  function BusResponse(b: Bus): Response {
    if b.state != RESPOND then Response(false, 0, None)
    else
      var fault := PendingFault(b.access, b.addr);
      Response(true,
               if fault.Some? then 0 else
               match PendingTarget(b.addr)
               case RomTarget => b.romData
               case RamTarget => b.ram.readData
               case UartTarget => b.uart.readData
               case TimerTarget => b.timer.readData
               case GpioTarget => b.gpio.readData
               case DebugTarget => b.debug.readData
               case NoTarget => 0,
               fault)
  }

  /** The memories and peripherals at an edge; the request registers are untouched. */
  function DeviceEdges(env: I.Env, b: Bus, tick: bool): Bus {
    var index, offset := b.addr / 4 % 16384, b.addr % 16;
    b.(
      romData := if ReadEnable(b, RomTarget) then env.rom[index] else b.romData,
      ram := RamClock(b.ram, ReadEnable(b, RamTarget), WriteEnable(b, RamTarget), index, b.wdata),
      uart := UartClock(b.uart, ReadEnable(b, UartTarget), WriteEnable(b, UartTarget), offset, b.wdata),
      timer := TimerClock(b.timer, tick, ReadEnable(b, TimerTarget), WriteEnable(b, TimerTarget), offset, b.wdata),
      gpio := GpioClock(b.gpio, env.gpioIn, ReadEnable(b, GpioTarget), WriteEnable(b, GpioTarget), offset, b.wdata),
      debug := DebugClock(b.debug, ReadEnable(b, DebugTarget), WriteEnable(b, DebugTarget), offset, b.wdata))
  }

  function BusClock(env: I.Env, b: Bus, r: Request, tick: bool): Bus {
    var q := DeviceEdges(env, b, tick);
    match b.state
    case IDLE => if r.valid then q.(state := ACCESS, access := r.access, addr := r.addr, wdata := r.wdata) else q
    case ACCESS => q.(state := RESPOND)
    case RESPOND => q.(state := IDLE)
  }

  // ---- mini32_system.sv ----

  datatype System = System(cpu: Cpu, bus: Bus)

  function Clock(env: I.Env, s: System): System {
    System(CpuClock(s.cpu, BusResponse(s.bus)), BusClock(env, s.bus, CpuRequest(s.cpu), s.cpu.retire.valid))
  }

  /** The state a synchronous reset leaves: RAM contents, the two memories'
      output registers and physical register 0 are whatever they were. */
  ghost predicate IsReset(s: System) {
    && s.cpu == Cpu(FETCH, 0, 0, 0, 0, 0, 0, 0, 0, FaultPort(I.NoFault, 0, 0, false, 0),
                    RetirePort(false, 0, 0, 0, false, 0, 0, false, 0, 0), s.cpu.regs)
    && (forall r :: 1 <= r < 32 ==> s.cpu.regs[r] == 0)
    && s.bus == Bus(IDLE, BusFetch, 0, 0, s.bus.romData, s.bus.ram, UartMmio(0, false, 0),
                    TimerMmio(0, 0, false, 0), GpioMmio(0, 0, 0), DebugMmio(0, 0))
  }
}
