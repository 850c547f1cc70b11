/** The Mini32 computer as documented: the instruction set of docs/isa.md and the
    address map of docs/memory-map.md, as a one-shot interpreter over
    architectural state. It mentions no microstate, latch, bus handshake or
    control signal; both implementations are proved against it. */
module Isa {
  import opened Words

  datatype AluOp = Add | Sub | And | Or | Xor | Slt | Shl | Shr
  datatype Cond = Equal | NotEqual | LessThan | GreaterEqual

  datatype Instr =
    | Nop
    | Reg(op: AluOp, rd: RegIndex, rs1: RegIndex, rs2: RegIndex)
    | Imm(op: AluOp, rd: RegIndex, rs1: RegIndex, imm: int)
    | Lui(rd: RegIndex, imm: int)
    | Lw(rd: RegIndex, base: RegIndex, offset: int)
    | Sw(src: RegIndex, base: RegIndex, offset: int)
    | Branch(cond: Cond, rs1: RegIndex, rs2: RegIndex, disp: int)
    | Jump(disp: int)
    | Jal(disp: int)
    | Jr(rs1: RegIndex)
    | Halt

  datatype Decoding = Illegal | Malformed | Ok(instr: Instr)

  function RegOp(opcode: int): AluOp
    requires 1 <= opcode <= 8
  {
    if opcode == 1 then Add else if opcode == 2 then Sub else if opcode == 3 then And
    else if opcode == 4 then Or else if opcode == 5 then Xor else if opcode == 6 then Slt
    else if opcode == 7 then Shl else Shr
  }

  function BranchCond(opcode: int): Cond
    requires 0x10 <= opcode <= 0x13
  {
    if opcode == 0x10 then Equal else if opcode == 0x11 then NotEqual
    else if opcode == 0x12 then LessThan else GreaterEqual
  }

  /** The documented encoding tables. */
  function Decode(w: Word): Decoding {
    DecodeFields(w / 0x400_0000, w / 0x20_0000 % 32, w / 0x1_0000 % 32, w / 0x800 % 32,
                 w % 0x800, w % 0x1_0000, w % 0x400_0000)
  }

  function DecodeFields(opcode: int, f25: RegIndex, f20: RegIndex, f15: RegIndex,
                        low11: int, imm16: int, imm26: int): Decoding
    requires 0 <= opcode < 64
  {
    if opcode == 0 then (if imm26 == 0 then Ok(Nop) else Malformed)
    else if opcode <= 8 then
      (if low11 == 0 then Ok(Reg(RegOp(opcode), f25, f20, f15)) else Malformed)
    else if opcode == 0x09 then Ok(Imm(Add, f25, f20, Sext16(imm16)))
    else if opcode == 0x0A then Ok(Imm(And, f25, f20, imm16))
    else if opcode == 0x0B then Ok(Imm(Or, f25, f20, imm16))
    else if opcode == 0x0C then Ok(Imm(Xor, f25, f20, imm16))
    else if opcode == 0x0D then (if f20 == 0 then Ok(Lui(f25, imm16)) else Malformed)
    else if opcode == 0x0E then Ok(Lw(f25, f20, Sext16(imm16)))
    else if opcode == 0x0F then Ok(Sw(f25, f20, Sext16(imm16)))
    else if opcode <= 0x13 then Ok(Branch(BranchCond(opcode), f25, f20, Sext16(imm16)))
    else if opcode == 0x14 then Ok(Jump(Sext26(imm26)))
    else if opcode == 0x15 then Ok(Jal(Sext26(imm26)))
    else if opcode == 0x16 then
      (if f20 == 0 && imm16 == 0 then Ok(Jr(f25)) else Malformed)
    else if opcode == 0x17 then (if imm26 == 0 then Ok(Halt) else Malformed)
    else Illegal
  }

  /** The word whose bit i is bit(i). */
  function BitwiseWord(bit: nat -> bool): Word {
    var bits := seq(32, i requires 0 <= i => bit(i));
    FromBitsBound(bits);
    WordSize();
    FromBits(bits)
  }

  /** Bitwise operators by the bits of the result, shifts as scaling by a power of two. */
  function Alu(op: AluOp, l: Word, r: Word): Word {
    match op
    case Add => Wrap(l + r)
    case Sub => Wrap(l - r)
    case And => BitwiseWord((i: nat) => BitOf(l, i) && BitOf(r, i))
    case Or => BitwiseWord((i: nat) => BitOf(l, i) || BitOf(r, i))
    case Xor => BitwiseWord((i: nat) => BitOf(l, i) != BitOf(r, i))
    case Slt => if Signed(l) < Signed(r) then 1 else 0
    case Shl => Wrap(l * Pow2(r % 32))
    case Shr => ShiftsScale(l, r % 32); Quotient(l, Pow2(r % 32))
  }

  function Quotient(x: Word, y: nat): Word
    requires y > 0
  {
    x / y
  }

  /** The machines' gate rows and place-by-place shifts compute the documented operations. */
  lemma BitwiseAgrees(l: Word, r: Word)
    ensures And32(l, r) == Alu(And, l, r) && Or32(l, r) == Alu(Or, l, r) && Xor32(l, r) == Alu(Xor, l, r)
    ensures Shl32(l, r) == Alu(Shl, l, r) && Shr32(l, r) == Alu(Shr, l, r)
  {
    ShiftsScale(l, r % 32);
    WordSize();
    forall i: nat | i < 32
      ensures BitOf(And32(l, r), i) == BitOf(Alu(And, l, r), i)
      ensures BitOf(Or32(l, r), i) == BitOf(Alu(Or, l, r), i)
      ensures BitOf(Xor32(l, r), i) == BitOf(Alu(Xor, l, r), i)
    {
      GateBits(AndGate, l, r, 32, i);
      GateBits(OrGate, l, r, 32, i);
      GateBits(XorGate, l, r, 32, i);
      AluBits(l, r, i);
    }
    hide BitOf, Alu, And32, Or32, Xor32;
    SameBits(And32(l, r), Alu(And, l, r), 32);
    SameBits(Or32(l, r), Alu(Or, l, r), 32);
    SameBits(Xor32(l, r), Alu(Xor, l, r), 32);
  }

  /** What the bitwise operations mean, bit by bit. */
  lemma AluBits(l: Word, r: Word, i: nat)
    requires i < 32
    ensures BitOf(Alu(And, l, r), i) <==> BitOf(l, i) && BitOf(r, i)
    ensures BitOf(Alu(Or, l, r), i) <==> BitOf(l, i) || BitOf(r, i)
    ensures BitOf(Alu(Xor, l, r), i) <==> BitOf(l, i) != BitOf(r, i)
  {
    hide BitOf;
    BitwiseWordBits((j: nat) => BitOf(l, j) && BitOf(r, j), i);
    BitwiseWordBits((j: nat) => BitOf(l, j) || BitOf(r, j), i);
    BitwiseWordBits((j: nat) => BitOf(l, j) != BitOf(r, j), i);
  }

  lemma BitwiseWordBits(bit: nat -> bool, i: nat)
    requires i < 32
    ensures BitOf(BitwiseWord(bit), i) == bit(i)
  {
    FromBitsBits(seq(32, j requires 0 <= j => bit(j)), i);
  }

  lemma AddIsWrappedSum(l: Word, r: Word)
    ensures Alu(Add, l, r) == Wrap(l + r)
    ensures l == 0 ==> Alu(Add, l, r) == r
  {
  }

  predicate Taken(c: Cond, l: Word, r: Word) {
    match c
    case Equal => l == r
    case NotEqual => l != r
    case LessThan => Signed(l) < Signed(r)
    case GreaterEqual => Signed(l) >= Signed(r)
  }

  // ---- Memory and devices ----

  type Words16K = s: seq<Word> | |s| == 16384 witness seq(16384, i => 0)
  type Registers = s: seq<Word> | |s| == 32 witness seq(32, i => 0)

  datatype Timer = Timer(counter: Word, compare: Word, enabled: bool)

  datatype Devices = Devices(ram: Words16K, tx: seq<Byte>, timer: Timer,
                             gpioOut: Word, gpioDir: Word, debug: Word)

  /** What does not change during a run: the program and the GPIO input pins. */
  datatype Env = Env(rom: Words16K, gpioIn: Word)

  datatype Region = RomRegion | RamRegion | UartRegion | TimerRegion | GpioRegion | DebugRegion | Unassigned

  function RegionOf(addr: Word): Region {
    if addr < 0x1_0000 then RomRegion
    else if 0x1000_0000 <= addr < 0x1001_0000 then RamRegion
    else if 0x2000_0000 <= addr < 0x2000_0010 then UartRegion
    else if 0x2000_0100 <= addr < 0x2000_0110 then TimerRegion
    else if 0x2000_0200 <= addr < 0x2000_0210 then GpioRegion
    else if 0x2000_0300 <= addr < 0x2000_0310 then DebugRegion
    else Unassigned
  }

  /** The window reserved for the STM32 bridge. */
  predicate InStm32Window(addr: Word) { 0x2000_0400 <= addr <= 0x2000_04FF }

  datatype BusFault = Misaligned | Unmapped | ReadOnly | NonExecutable
  datatype BusRead = Data(value: Word) | ReadFault(fault: BusFault)
  datatype BusWrite = Written(devices: Devices) | WriteFault(fault: BusFault)

  function Tick(t: Timer): Timer {
    if t.enabled then t.(counter := Wrap(t.counter + 1)) else t
  }

  function TimerRead(t: Timer, offset: int): Word {
    if offset == 0 then t.counter
    else if offset == 4 then t.compare
    else if offset == 8 then (if t.enabled then 1 else 0)
    else if t.enabled && t.counter == t.compare then 1 else 0
  }

  function TimerWrite(t: Timer, offset: int, v: Word): Timer {
    if offset == 0 then t.(counter := v)
    else if offset == 4 then t.(compare := v)
    else if offset == 8 then t.(enabled := v % 2 == 1)
    else t
  }

  function Load(env: Env, d: Devices, addr: Word): BusRead {
    if addr % 4 != 0 then ReadFault(Misaligned) else
    match RegionOf(addr)
    case RomRegion => Data(env.rom[addr / 4])
    case RamRegion => Data(d.ram[(addr - 0x1000_0000) / 4])
    case UartRegion => Data(if addr % 16 == 4 then 1 else 0)
    case TimerRegion => Data(TimerRead(d.timer, addr % 16))
    case GpioRegion =>
      Data(if addr % 16 == 0 then env.gpioIn else if addr % 16 == 4 then d.gpioOut
           else if addr % 16 == 8 then d.gpioDir else 0)
    case DebugRegion => Data(if addr % 16 == 0 then d.debug else 0)
    case Unassigned => ReadFault(Unmapped)
  }

  function Fetch(env: Env, addr: Word): BusRead {
    if addr % 4 != 0 then ReadFault(Misaligned) else
    match RegionOf(addr)
    case RomRegion => Data(env.rom[addr / 4])
    case Unassigned => ReadFault(Unmapped)
    case _ => ReadFault(NonExecutable)
  }

  function Store(d: Devices, addr: Word, v: Word): BusWrite {
    if addr % 4 != 0 then WriteFault(Misaligned) else
    match RegionOf(addr)
    case RomRegion => WriteFault(ReadOnly)
    case RamRegion => Written(d.(ram := d.ram[(addr - 0x1000_0000) / 4 := v]))
    case UartRegion => Written(if addr % 16 == 0 then d.(tx := d.tx + [v % 256]) else d)
    case TimerRegion => Written(d.(timer := TimerWrite(d.timer, addr % 16, v)))
    case GpioRegion =>
      Written(if addr % 16 == 4 then d.(gpioOut := v) else if addr % 16 == 8 then d.(gpioDir := v) else d)
    case DebugRegion => Written(if addr % 16 == 0 then d.(debug := v) else d)
    case Unassigned => WriteFault(Unmapped)
  }

  // ---- One instruction ----

  datatype Arch = Arch(pc: Word, regs: Registers, dev: Devices)

  datatype CpuFault =
    | NoFault
    | MisalignedInstructionFetch | UnmappedInstructionFetch | NonExecutableInstructionFetch
    | IllegalInstruction | MalformedInstruction | UnsupportedInstruction
    | MisalignedLoad | UnmappedLoad
    | MisalignedStore | UnmappedStore | ReadOnlyStore

  datatype FaultInfo = FaultInfo(code: CpuFault, pc: Word, instruction: Word, address: Option<Word>)

  datatype Machine =
    | Running(arch: Arch)
    | Halted(arch: Arch)
    | Faulted(arch: Arch, info: FaultInfo)

  function FetchFault(f: BusFault): CpuFault {
    match f
    case Misaligned => MisalignedInstructionFetch
    case NonExecutable => NonExecutableInstructionFetch
    case _ => UnmappedInstructionFetch
  }

  function LoadFault(f: BusFault): CpuFault {
    if f == Misaligned then MisalignedLoad else UnmappedLoad
  }

  function StoreFault(f: BusFault): CpuFault {
    match f
    case Misaligned => MisalignedStore
    case ReadOnly => ReadOnlyStore
    case _ => UnmappedStore
  }

  /** Retirement: the instruction's effects land and instruction time advances. */
  function Retire(pc: Word, regs: Registers, dev: Devices): Arch {
    Arch(pc, regs, dev.(timer := Tick(dev.timer)))
  }

  function SetReg(regs: Registers, rd: RegIndex, v: Word): Registers {
    if rd == 0 then regs else regs[rd := v]
  }

  function EffectiveAddress(a: Arch, base: RegIndex, offset: int): Word {
    Wrap(a.regs[base] + offset)
  }

  /** Instructions that only compute a register (rd = 0: none) and a next PC. */
  datatype Effect = Effect(nextPc: Word, rd: RegIndex, value: Word)

  predicate IsComputation(i: Instr) {
    i.Nop? || i.Reg? || i.Imm? || i.Lui? || i.Jal? || i.Halt?
  }

  function Compute(a: Arch, i: Instr): Effect
    requires IsComputation(i)
  {
    var next := Wrap(a.pc + 4);
    match i
    case Reg(op, rd, rs1, rs2) => Effect(next, rd, Alu(op, a.regs[rs1], a.regs[rs2]))
    case Imm(op, rd, rs1, imm) => Effect(next, rd, Alu(op, a.regs[rs1], Wrap(imm)))
    case Lui(rd, imm) => Effect(next, rd, Wrap(imm * 0x1_0000))
    case Jal(disp) => Effect(Wrap(a.pc + 4 + 4 * disp), 31, next)
    case _ => Effect(next, 0, 0)
  }

  function Commit(a: Arch, e: Effect): Arch {
    Retire(e.nextPc, SetReg(a.regs, e.rd, e.value), a.dev)
  }

  function JumpTarget(a: Arch, i: Instr): Word
    requires i.Branch? || i.Jump? || i.Jr?
  {
    match i
    case Branch(c, rs1, rs2, disp) =>
      if Taken(c, a.regs[rs1], a.regs[rs2]) then Wrap(a.pc + 4 + 4 * disp) else Wrap(a.pc + 4)
    case Jump(disp) => Wrap(a.pc + 4 + 4 * disp)
    case Jr(rs1) => a.regs[rs1]
  }

  function Execute(env: Env, a: Arch, w: Word, i: Instr): Machine {
    match i
    case Lw(rd, base, offset) =>
      var addr := EffectiveAddress(a, base, offset);
      (match Load(env, a.dev, addr)
       case Data(v) => Running(Commit(a, Effect(Wrap(a.pc + 4), rd, v)))
       case ReadFault(f) => Faulted(a, FaultInfo(LoadFault(f), a.pc, w, Some(addr))))
    case Sw(src, base, offset) =>
      var addr := EffectiveAddress(a, base, offset);
      (match Store(a.dev, addr, a.regs[src])
       case Written(d) => Running(Retire(Wrap(a.pc + 4), a.regs, d))
       case WriteFault(f) => Faulted(a, FaultInfo(StoreFault(f), a.pc, w, Some(addr))))
    case Branch(_, _, _, _) => Running(Retire(JumpTarget(a, i), a.regs, a.dev))
    case Jump(_) => Running(Retire(JumpTarget(a, i), a.regs, a.dev))
    case Jr(_) => Running(Retire(JumpTarget(a, i), a.regs, a.dev))
    case Halt => Halted(Commit(a, Compute(a, i)))
    case _ => Running(Commit(a, Compute(a, i)))
  }

  /** One whole instruction. */
  function Step(env: Env, a: Arch): Machine {
    match Fetch(env, a.pc)
    case ReadFault(f) => Faulted(a, FaultInfo(FetchFault(f), a.pc, 0, None))
    case Data(w) =>
      match Decode(w)
      case Illegal => Faulted(a, FaultInfo(IllegalInstruction, a.pc, w, None))
      case Malformed => Faulted(a, FaultInfo(MalformedInstruction, a.pc, w, None))
      case Ok(i) => Execute(env, a, w, i)
  }

  // ---- What a retirement trace records ----

  datatype Record = Record(pc: Word, instruction: Word, nextPc: Word,
                           regWrite: bool, rd: RegIndex, regValue: Word,
                           memWrite: bool, memAddr: Word, memValue: Word)

  /** The register an instruction changes, if its value really changes. */
  function RegisterChange(a: Arch, e: Effect): Option<(RegIndex, Word)> {
    if e.rd != 0 && e.value != a.regs[e.rd] then Some((e.rd, e.value)) else None
  }

  function RecordOf(a: Arch, w: Word, nextPc: Word, change: Option<(RegIndex, Word)>,
                    store: Option<(Word, Word)>): Record {
    Record(a.pc, w, nextPc,
           change.Some?, if change.Some? then change.value.0 else 0, if change.Some? then change.value.1 else 0,
           store.Some?, if store.Some? then store.value.0 else 0, if store.Some? then store.value.1 else 0)
  }

  function RecordFor(env: Env, a: Arch): Record
    requires !Step(env, a).Faulted?
  {
    var w := Fetch(env, a.pc).value;
    var i := Decode(w).instr;
    var next := Step(env, a).arch.pc;
    if i.Sw? then
      RecordOf(a, w, next, None, Some((EffectiveAddress(a, i.base, i.offset), a.regs[i.src])))
    else if i.Lw? then
      var v := Load(env, a.dev, EffectiveAddress(a, i.base, i.offset)).value;
      RecordOf(a, w, next, RegisterChange(a, Effect(next, i.rd, v)), None)
    else if IsComputation(i) then RecordOf(a, w, next, RegisterChange(a, Compute(a, i)), None)
    else RecordOf(a, w, next, None, None)
  }

  /** Halted and faulted machines absorb. */
  function Next(env: Env, m: Machine): Machine {
    if m.Running? then Step(env, m.arch) else m
  }

  function Run(env: Env, m: Machine, n: nat): Machine {
    if n == 0 then m else Next(env, Run(env, m, n - 1))
  }

  /** A register array as software reads it: r0 is zero whatever its storage holds. */
  function RegsOf(regs: Registers): Registers { regs[0 := 0] }

  function ZeroRegisters(): Registers { seq(32, i => 0) }

  function ResetArch(ram: Words16K): Arch {
    Arch(0, ZeroRegisters(), Devices(ram, [], Timer(0, 0, false), 0, 0, 0))
  }
}
