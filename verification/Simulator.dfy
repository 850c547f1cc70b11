/** The C++ golden model as values: decoder, control table, ALU, byte-addressed
    memories, instantaneous bus, and one microstate transition per tick. */
module Simulator {
  import opened Words
  import I = Isa
  import opened Control

  // ---- decoder.cpp ----

  datatype Decoded = Decoded(opcode: int, rd: RegIndex, rs1: RegIndex, rs2: RegIndex, imm16: int, imm26: int)
  {
    predicate Valid() { 0 <= opcode <= 0x17 && 0 <= imm16 < 0x1_0000 && 0 <= imm26 < 0x400_0000 }
  }

  datatype DecodeResult = IllegalOpcode | MalformedEncoding | Instruction(decoded: Decoded)

  datatype Format = FormatR | FormatI | FormatS | FormatB | FormatJ | FormatJr

  function FormatFor(opcode: int): Format {
    if opcode <= 0x08 || opcode == 0x17 then FormatR
    else if opcode <= 0x0E then FormatI
    else if opcode == 0x0F then FormatS
    else if opcode <= 0x13 then FormatB
    else if opcode <= 0x15 then FormatJ
    else if opcode == 0x16 then FormatJr
    else FormatR
  }

  function DecodeWord(w: Word): (r: DecodeResult)
    ensures r.Instruction? ==> r.decoded.Valid()
  {
    DecodeParts(w / 0x400_0000, w / 0x20_0000 % 32, w / 0x1_0000 % 32, w / 0x800 % 32,
                w % 0x800, w % 0x1_0000, w % 0x20_0000, w % 0x400_0000)
  }

  function DecodeParts(opcode: int, f25: RegIndex, f20: RegIndex, f15: RegIndex,
                       low11: int, low16: int, low21: int, low26: int): (r: DecodeResult)
    requires 0 <= opcode < 64 && 0 <= low16 < 0x1_0000 && 0 <= low26 < 0x400_0000
    ensures r.Instruction? ==> r.decoded.Valid()
  {
    if opcode > 0x17 then IllegalOpcode
    else if (opcode == 0 || opcode == 0x17) && low26 != 0 then MalformedEncoding
    else if FormatFor(opcode) == FormatR && low11 != 0 then MalformedEncoding
    else if FormatFor(opcode) == FormatJr && low21 != 0 then MalformedEncoding
    else if opcode == 0x0D && f20 != 0 then MalformedEncoding
    else
      var zero := Decoded(opcode, 0, 0, 0, 0, 0);
      Instruction(
        match FormatFor(opcode)
        case FormatR => zero.(rd := f25, rs1 := f20, rs2 := f15)
        case FormatI => zero.(rd := f25, rs1 := f20, imm16 := low16)
        case FormatS => zero.(rs2 := f25, rs1 := f20, imm16 := low16)
        case FormatB => zero.(rs1 := f25, rs2 := f20, imm16 := low16)
        case FormatJ => zero.(imm26 := low26)
        case FormatJr => zero.(rs1 := f25))
  }

  function ControlFor(opcode: int): Option<Signals> {
    var d := DEFAULT;
    var r := d.(regWrite := true);
    var ri := r.(aluSrcImmediate := true);
    var b := d.(flow := ConditionalBranch);
    match opcode
    case 0x00 => Some(d)
    case 0x01 => Some(r.(aluOp := I.Add))
    case 0x02 => Some(r.(aluOp := I.Sub))
    case 0x03 => Some(r.(aluOp := I.And))
    case 0x04 => Some(r.(aluOp := I.Or))
    case 0x05 => Some(r.(aluOp := I.Xor))
    case 0x06 => Some(r.(aluOp := I.Slt))
    case 0x07 => Some(r.(aluOp := I.Shl))
    case 0x08 => Some(r.(aluOp := I.Shr))
    case 0x09 => Some(ri.(aluOp := I.Add, immediate := Signed16))
    case 0x0A => Some(ri.(aluOp := I.And, immediate := ZeroExtended16))
    case 0x0B => Some(ri.(aluOp := I.Or, immediate := ZeroExtended16))
    case 0x0C => Some(ri.(aluOp := I.Xor, immediate := ZeroExtended16))
    case 0x0D => Some(ri.(aluOp := I.Add, immediate := Upper16))
    case 0x0E => Some(ri.(aluOp := I.Add, source := FromMemory, immediate := Signed16, memory := MemLoad))
    case 0x0F => Some(d.(aluSrcImmediate := true, aluOp := I.Add, immediate := Signed16, memory := MemStore))
    case 0x10 => Some(b.(branch := BranchEqual))
    case 0x11 => Some(b.(branch := BranchNotEqual))
    case 0x12 => Some(b.(branch := BranchSignedLess))
    case 0x13 => Some(b.(branch := BranchSignedGreaterEqual))
    case 0x14 => Some(d.(flow := RelativeJump))
    case 0x15 => Some(r.(source := FromPcPlus4, destination := ReturnAddress, flow := RelativeJump))
    case 0x16 => Some(d.(flow := RegisterJump))
    case 0x17 => Some(d.(halt := true))
    case _ => None
  }

  function ImmediateValue(kind: ImmediateKind, imm16: int): Word
    requires 0 <= imm16 < 0x1_0000
  {
    match kind
    case ImmNone => 0
    case Signed16 => if imm16 / 0x8000 % 2 == 0 then imm16 else 0xFFFF_0000 + imm16
    case ZeroExtended16 => imm16
    case Upper16 => imm16 * 0x1_0000
  }

  function BranchDisplacement(imm16: int): Word
    requires 0 <= imm16 < 0x1_0000
  {
    Wrap(ImmediateValue(Signed16, imm16) * 4)
  }

  function JumpDisplacement(imm26: int): Word
    requires 0 <= imm26 < 0x400_0000
  {
    Wrap((if imm26 / 0x200_0000 % 2 == 0 then imm26 else 0xFC00_0000 + imm26) * 4)
  }

  // ---- alu.cpp ----

  predicate SignedLessThan(l: Word, r: Word) {
    var ln := l / 0x8000_0000 != 0;
    var rn := r / 0x8000_0000 != 0;
    if ln != rn then ln else l < r
  }

  function AluExecute(op: I.AluOp, l: Word, r: Word): Word {
    match op
    case Add => Wrap(l + r)
    case Sub => Wrap(l - r)
    case And => And32(l, r)
    case Or => Or32(l, r)
    case Xor => Xor32(l, r)
    case Slt => if SignedLessThan(l, r) then 1 else 0
    case Shl => Shl32(l, r)
    case Shr => Shr32(l, r)
  }

  // ---- rom.cpp, ram.cpp: little-endian byte arrays ----

  type Bytes64K = s: seq<Byte> | |s| == 65536 witness seq(65536, i => 0)

  function LittleEndian(b0: Byte, b1: Byte, b2: Byte, b3: Byte): Word {
    b0 + 0x100 * b1 + 0x1_0000 * b2 + 0x100_0000 * b3
  }

  function ReadWord(bytes: Bytes64K, offset: int): Word
    requires 0 <= offset <= 65532
  {
    LittleEndian(bytes[offset], bytes[offset + 1], bytes[offset + 2], bytes[offset + 3])
  }

  function WriteWord(bytes: Bytes64K, offset: int, v: Word): Bytes64K
    requires 0 <= offset <= 65532
  {
    bytes[offset := v % 0x100][offset + 1 := v / 0x100 % 0x100]
         [offset + 2 := v / 0x1_0000 % 0x100][offset + 3 := v / 0x100_0000 % 0x100]
  }

  datatype AccessFault = AccessMisaligned | OutOfRange
  datatype Access<+T> = Granted(value: T) | Denied(fault: AccessFault)

  function RomRead32(rom: Bytes64K, address: Word): Access<Word> {
    if address % 4 != 0 then Denied(AccessMisaligned)
    else if address > 0xFFFF || address > 0xFFFC then Denied(OutOfRange)
    else Granted(ReadWord(rom, address))
  }

  predicate ValidRamAddress(address: Word) { 0x1000_0000 <= address <= 0x1000_FFFC }

  function RamRead32(ram: Bytes64K, address: Word): Access<Word> {
    if address % 4 != 0 then Denied(AccessMisaligned)
    else if !ValidRamAddress(address) then Denied(OutOfRange)
    else Granted(ReadWord(ram, address - 0x1000_0000))
  }

  function RamWrite32(ram: Bytes64K, address: Word, v: Word): Access<Bytes64K> {
    if address % 4 != 0 then Denied(AccessMisaligned)
    else if !ValidRamAddress(address) then Denied(OutOfRange)
    else Granted(WriteWord(ram, address - 0x1000_0000, v))
  }

  // ---- uart.cpp, timer.cpp, gpio.cpp, debug_device.cpp ----

  function Validate(base: Word, address: Word): Access<int> {
    if address % 4 != 0 then Denied(AccessMisaligned)
    else if base <= address <= base + 15 then Granted(address - base)
    else Denied(OutOfRange)
  }

  const UART_BASE := 0x2000_0000
  const TIMER_BASE := 0x2000_0100
  const GPIO_BASE := 0x2000_0200
  const DEBUG_BASE := 0x2000_0300

  function TimerRead32(t: I.Timer, address: Word): Access<Word> {
    match Validate(TIMER_BASE, address)
    case Denied(f) => Denied(f)
    case Granted(0x00) => Granted(t.counter)
    case Granted(0x04) => Granted(t.compare)
    case Granted(0x08) => Granted(if t.enabled then 1 else 0)
    case Granted(0x0C) => Granted(if t.enabled && t.counter == t.compare then 1 else 0)
    case Granted(_) => Granted(0)
  }

  function TimerWrite32(t: I.Timer, address: Word, v: Word): Access<I.Timer> {
    match Validate(TIMER_BASE, address)
    case Denied(f) => Denied(f)
    case Granted(0x00) => Granted(t.(counter := v))
    case Granted(0x04) => Granted(t.(compare := v))
    case Granted(0x08) => Granted(t.(enabled := v % 2 != 0))
    case Granted(_) => Granted(t)
  }

  function RetireTick(t: I.Timer): I.Timer {
    if t.enabled then t.(counter := Wrap(t.counter + 1)) else t
  }

  function UartRead32(address: Word): Access<Word> {
    match Validate(UART_BASE, address)
    case Denied(f) => Denied(f)
    case Granted(0x04) => Granted(1)
    case Granted(offset) => if offset in {0x00, 0x08, 0x0C} then Granted(0) else Denied(OutOfRange)
  }

  /** The callback appends each DATA byte to the transcript. */
  function UartWrite32(tx: seq<Byte>, address: Word, v: Word): Access<seq<Byte>> {
    match Validate(UART_BASE, address)
    case Denied(f) => Denied(f)
    case Granted(0x00) => Granted(tx + [v % 0x100])
    case Granted(offset) => if offset in {0x04, 0x08, 0x0C} then Granted(tx) else Denied(OutOfRange)
  }

  datatype Gpio = Gpio(input: Word, output: Word, direction: Word)

  function GpioRead32(g: Gpio, address: Word): Access<Word> {
    match Validate(GPIO_BASE, address)
    case Denied(f) => Denied(f)
    case Granted(0x00) => Granted(g.input)
    case Granted(0x04) => Granted(g.output)
    case Granted(0x08) => Granted(g.direction)
    case Granted(_) => Granted(0)
  }

  function GpioWrite32(g: Gpio, address: Word, v: Word): Access<Gpio> {
    match Validate(GPIO_BASE, address)
    case Denied(f) => Denied(f)
    case Granted(0x04) => Granted(g.(output := v))
    case Granted(0x08) => Granted(g.(direction := v))
    case Granted(_) => Granted(g)
  }

  function DebugRead32(value: Word, address: Word): Access<Word> {
    match Validate(DEBUG_BASE, address)
    case Denied(f) => Denied(f)
    case Granted(offset) => Granted(if offset == 0 then value else 0)
  }

  function DebugWrite32(value: Word, address: Word, v: Word): Access<Word> {
    match Validate(DEBUG_BASE, address)
    case Denied(f) => Denied(f)
    case Granted(offset) => Granted(if offset == 0 then v else value)
  }

  // ---- bus.cpp ----

  datatype Bus = Bus(rom: Bytes64K, ram: Bytes64K, tx: seq<Byte>, timer: I.Timer, gpio: Gpio, debug: Word)

  datatype BusWrite = Done(bus: Bus) | WriteFault(fault: I.BusFault)

  function ToBusFault(f: AccessFault): I.BusFault {
    if f == AccessMisaligned then I.Misaligned else I.Unmapped
  }

  function Lift(r: Access<Word>): I.BusRead {
    match r
    case Granted(v) => I.Data(v)
    case Denied(f) => I.ReadFault(ToBusFault(f))
  }

  predicate Within(base: Word, last: Word, address: Word) { base <= address <= last }

  function Read32(b: Bus, address: Word): I.BusRead {
    if address % 4 != 0 then I.ReadFault(I.Misaligned)
    else if Within(0, 0xFFFF, address) then Lift(RomRead32(b.rom, address))
    else if Within(0x1000_0000, 0x1000_FFFF, address) then Lift(RamRead32(b.ram, address))
    else if Within(UART_BASE, UART_BASE + 15, address) then Lift(UartRead32(address))
    else if Within(TIMER_BASE, TIMER_BASE + 15, address) then Lift(TimerRead32(b.timer, address))
    else if Within(GPIO_BASE, GPIO_BASE + 15, address) then Lift(GpioRead32(b.gpio, address))
    else if Within(DEBUG_BASE, DEBUG_BASE + 15, address) then Lift(DebugRead32(b.debug, address))
    else I.ReadFault(I.Unmapped)
  }

  function Fetch32(b: Bus, address: Word): I.BusRead {
    if address % 4 != 0 then I.ReadFault(I.Misaligned)
    else if Within(0, 0xFFFF, address) then
      (match RomRead32(b.rom, address)
       case Granted(v) => I.Data(v)
       case Denied(_) => I.ReadFault(I.Unmapped))
    else if Within(0x1000_0000, 0x1000_FFFF, address) then I.ReadFault(I.NonExecutable)
    else if || Within(UART_BASE, UART_BASE + 15, address) || Within(TIMER_BASE, TIMER_BASE + 15, address)
            || Within(GPIO_BASE, GPIO_BASE + 15, address) || Within(DEBUG_BASE, DEBUG_BASE + 15, address)
    then I.ReadFault(I.NonExecutable)
    else I.ReadFault(I.Unmapped)
  }

  function Write32(b: Bus, address: Word, v: Word): BusWrite {
    if address % 4 != 0 then WriteFault(I.Misaligned)
    else if Within(0, 0xFFFF, address) then WriteFault(I.ReadOnly)
    else if Within(0x1000_0000, 0x1000_FFFF, address) then
      (match RamWrite32(b.ram, address, v)
       case Granted(ram) => Done(b.(ram := ram))
       case Denied(_) => WriteFault(I.Unmapped))
    else if Within(UART_BASE, UART_BASE + 15, address) then
      (match UartWrite32(b.tx, address, v)
       case Granted(tx) => Done(b.(tx := tx))
       case Denied(f) => WriteFault(ToBusFault(f)))
    else if Within(TIMER_BASE, TIMER_BASE + 15, address) then
      (match TimerWrite32(b.timer, address, v)
       case Granted(t) => Done(b.(timer := t))
       case Denied(f) => WriteFault(ToBusFault(f)))
    else if Within(GPIO_BASE, GPIO_BASE + 15, address) then
      (match GpioWrite32(b.gpio, address, v)
       case Granted(g) => Done(b.(gpio := g))
       case Denied(f) => WriteFault(ToBusFault(f)))
    else if Within(DEBUG_BASE, DEBUG_BASE + 15, address) then
      (match DebugWrite32(b.debug, address, v)
       case Granted(d) => Done(b.(debug := d))
       case Denied(f) => WriteFault(ToBusFault(f)))
    else WriteFault(I.Unmapped)
  }

  // ---- cpu_core.cpp ----

  datatype Microstate = Fetch | Decode | Execute | Memory | Writeback | Halted | Fault

  datatype Core = Core(
    regs: I.Registers, pc: Word, ir: Word, lhs: Word, rhs: Word, alu: Word, storeData: Word,
    memoryData: Word, pcPlus4: Word, nextPc: Word, micro: Microstate,
    decoded: Option<Decoded>, control: Option<Signals>, retired: nat, fault: I.FaultInfo)
  {
    predicate Stopped() { micro == Halted || micro == Fault }
  }

  datatype Sim = Sim(core: Core, bus: Bus)

  const NO_FAULT := I.FaultInfo(I.NoFault, 0, 0, None)

  function ResetCore(): Core {
    Core(I.ZeroRegisters(), 0, 0, 0, 0, 0, 0, 0, 0, 0, Fetch, None, None, 0, NO_FAULT)
  }

  function RegRead(regs: I.Registers, index: RegIndex): Word { if index == 0 then 0 else regs[index] }

  function RegWrite(regs: I.Registers, index: RegIndex, v: Word): I.Registers {
    if index != 0 then regs[index := v] else regs
  }

  function EnterFault(c: Core, code: I.CpuFault, address: Option<Word>): Core {
    c.(fault := I.FaultInfo(code, c.pc, c.ir, address), micro := Fault)
  }

  function RetireTo(s: Sim, nextPc: Word): Sim {
    Sim(s.core.(pc := nextPc, retired := s.core.retired + 1, micro := Fetch),
        s.bus.(timer := RetireTick(s.bus.timer)))
  }

  predicate BranchTaken(c: Core)
    requires c.control.Some?
  {
    match c.control.value.branch
    case BranchEqual => c.lhs == c.rhs
    case BranchNotEqual => c.lhs != c.rhs
    case BranchSignedLess => SignedLessThan(c.lhs, c.rhs)
    case BranchSignedGreaterEqual => !SignedLessThan(c.lhs, c.rhs)
    case BranchNone => false
  }

  /** The optionals the source dereferences hold values, and Memory has an operation. */
  predicate WellFormed(c: Core) {
    && (c.micro == Execute || c.micro == Memory || c.micro == Writeback ==>
          && c.decoded.Some? && c.control.Some?
          && DecodeWord(c.ir) == Instruction(c.decoded.value)
          && ControlFor(c.decoded.value.opcode) == c.control
          && c.decoded.value.Valid())
    && (c.micro == Memory ==> c.control.value.memory != MemNone)
  }

  function TickFetch(s: Sim): Sim {
    var c := s.core.(ir := 0, pcPlus4 := Wrap(s.core.pc + 4), nextPc := Wrap(s.core.pc + 4));
    match Fetch32(s.bus, c.pc)
    case ReadFault(f) =>
      s.(core := EnterFault(c, if f == I.Misaligned then I.MisalignedInstructionFetch
                               else if f == I.NonExecutable then I.NonExecutableInstructionFetch
                               else I.UnmappedInstructionFetch, None))
    case Data(w) => s.(core := c.(ir := w, micro := Microstate.Decode))
  }

  function TickDecode(s: Sim): Sim {
    var c := s.core;
    match DecodeWord(c.ir)
    case IllegalOpcode => s.(core := EnterFault(c, I.IllegalInstruction, None))
    case MalformedEncoding => s.(core := EnterFault(c, I.MalformedInstruction, None))
    case Instruction(d) =>
      var c := c.(decoded := Some(d), control := ControlFor(d.opcode));
      match c.control
      case None => s.(core := EnterFault(c, I.UnsupportedInstruction, None))
      case Some(k) =>
        s.(core := c.(lhs := RegRead(c.regs, d.rs1),
                      rhs := if k.aluSrcImmediate then ImmediateValue(k.immediate, d.imm16)
                             else RegRead(c.regs, d.rs2),
                      storeData := RegRead(c.regs, d.rs2), micro := Execute))
  }

  function TickExecute(s: Sim): Sim
    requires WellFormed(s.core) && s.core.micro == Execute
  {
    var k, d := s.core.control.value, s.core.decoded.value;
    var c := s.core.(alu := AluExecute(k.aluOp, s.core.lhs, s.core.rhs));
    if k.flow == ConditionalBranch then
      RetireTo(s.(core := c),
               if BranchTaken(c) then Wrap(c.pcPlus4 + BranchDisplacement(d.imm16)) else c.pcPlus4)
    else
      var c := if k.flow == RelativeJump
               then c.(nextPc := Wrap(c.pcPlus4 + JumpDisplacement(d.imm26))) else c;
      if k.flow == RelativeJump && !k.regWrite then RetireTo(s.(core := c), c.nextPc)
      else if k.flow == RegisterJump then RetireTo(s.(core := c), c.lhs)
      else s.(core := c.(micro := if k.memory == MemNone then Writeback else Memory))
  }

  function TickMemory(s: Sim): Sim
    requires WellFormed(s.core) && s.core.micro == Memory
  {
    var c, k := s.core, s.core.control.value;
    if k.memory == MemLoad then
      match Read32(s.bus, c.alu)
      case ReadFault(f) =>
        s.(core := EnterFault(c, if f == I.Misaligned then I.MisalignedLoad else I.UnmappedLoad, Some(c.alu)))
      case Data(v) => s.(core := c.(memoryData := v, micro := Writeback))
    else if k.memory == MemStore then
      match Write32(s.bus, c.alu, c.storeData)
      case WriteFault(f) =>
        s.(core := EnterFault(c, if f == I.Misaligned then I.MisalignedStore
                                 else if f == I.ReadOnly then I.ReadOnlyStore
                                 else I.UnmappedStore, Some(c.alu)))
      case Done(bus) => RetireTo(s.(bus := bus), c.nextPc)
    else s
  }

  function TickWriteback(s: Sim): Sim
    requires WellFormed(s.core) && s.core.micro == Writeback
  {
    var c, k, d := s.core, s.core.control.value, s.core.decoded.value;
    var value := if k.source == FromMemory then c.memoryData
                 else if k.source == FromPcPlus4 then c.pcPlus4 else c.alu;
    var regs := if k.regWrite
                then RegWrite(c.regs, if k.destination == ReturnAddress then 31 else d.rd, value)
                else c.regs;
    Sim(c.(regs := regs, pc := c.nextPc, retired := c.retired + 1, micro := if k.halt then Halted else Fetch),
        s.bus.(timer := RetireTick(s.bus.timer)))
  }

  function Tick(s: Sim): Sim
    requires WellFormed(s.core)
  {
    match s.core.micro
    case Fetch => TickFetch(s)
    case Decode => TickDecode(s)
    case Execute => TickExecute(s)
    case Memory => TickMemory(s)
    case Writeback => TickWriteback(s)
    case _ => s
  }
}
