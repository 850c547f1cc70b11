/** The multi-cycle C++ core is the documented machine: one `step()` is one
    instruction of the one-shot interpreter, for every instruction word. */
module SimulatorIsa {
  import opened Words
  import I = Isa
  import opened Control
  import opened Simulator

  // ---- What the simulator's state denotes ----

  function WordsOf(bytes: Bytes64K): I.Words16K {
    seq(16384, i requires 0 <= i < 16384 => ReadWord(bytes, 4 * i))
  }

  function EnvOf(b: Bus): I.Env { I.Env(WordsOf(b.rom), b.gpio.input) }

  function DevicesOf(b: Bus): I.Devices {
    I.Devices(WordsOf(b.ram), b.tx, b.timer, b.gpio.output, b.gpio.direction, b.debug)
  }

  function ArchOf(s: Sim): I.Arch { I.Arch(s.core.pc, I.RegsOf(s.core.regs), DevicesOf(s.bus)) }

  // ---- Decoder and ALU ----

  function OperandsOf(k: Signals, d: Decoded): Operands
    requires d.Valid()
  {
    Operands(d.rd, d.rs1, d.rs2, ImmediateValue(k.immediate, d.imm16),
             BranchDisplacement(d.imm16), JumpDisplacement(d.imm26))
  }

  lemma SignExtensions(imm16: int, imm26: int)
    requires 0 <= imm16 < 0x1_0000 && 0 <= imm26 < 0x400_0000
    ensures ImmediateValue(Signed16, imm16) == Wrap(Sext16(imm16))
    ensures ImmediateValue(ZeroExtended16, imm16) == Wrap(imm16)
    ensures ImmediateValue(Upper16, imm16) == Wrap(imm16 * 0x1_0000)
    ensures BranchDisplacement(imm16) == Wrap(4 * Sext16(imm16))
    ensures JumpDisplacement(imm26) == Wrap(4 * Sext26(imm26))
  {
  }

  ghost predicate DecodingsAgree(r: DecodeResult, t: I.Decoding)
    requires r.Instruction? ==> r.decoded.Valid()
  {
    match r
    case IllegalOpcode => t == I.Illegal
    case MalformedEncoding => t == I.Malformed
    case Instruction(d) =>
      && t.Ok?
      && ControlFor(d.opcode).Some?
      && Implements(ControlFor(d.opcode).value, OperandsOf(ControlFor(d.opcode).value, d), t.instr)
  }

  lemma PartsAgree(opcode: int, f25: RegIndex, f20: RegIndex, f15: RegIndex,
                   low11: int, low16: int, low21: int, low26: int)
    requires 0 <= opcode < 64 && 0 <= low16 < 0x1_0000 && 0 <= low26 < 0x400_0000
    requires low21 == 0 <==> f20 == 0 && low16 == 0
    requires low26 == 0 ==> low11 == 0
    ensures DecodingsAgree(DecodeParts(opcode, f25, f20, f15, low11, low16, low21, low26),
                           I.DecodeFields(opcode, f25, f20, f15, low11, low16, low26))
  {
    hide ImmediateValue, BranchDisplacement, JumpDisplacement, Wrap, Sext16, Sext26;
    SignExtensions(low16, low26);
  }

  /** The decoder accepts exactly the documented encodings, classifies the rest
      alike, and its control signals and operands implement the instruction.
      In particular no accepted opcode lacks control signals. */
  lemma DecoderAgrees(w: Word)
    ensures DecodingsAgree(DecodeWord(w), I.Decode(w))
  {
    FieldOverlap(w);
    PartsAgree(w / 0x400_0000, w / 0x20_0000 % 32, w / 0x1_0000 % 32, w / 0x800 % 32,
               w % 0x800, w % 0x1_0000, w % 0x20_0000, w % 0x400_0000);
  }

  lemma AluAgrees(op: I.AluOp, l: Word, r: Word)
    ensures AluExecute(op, l, r) == I.Alu(op, l, r)
    ensures SignedLessThan(l, r) <==> Signed(l) < Signed(r)
  {
    hide And32, Or32, Xor32, Shl32, Shr32;
    I.BitwiseAgrees(l, r);
  }

  // ---- Memories and bus ----

  /** Misaligned addresses are refused first, then those outside the window; the rest are granted. */
  predicate Guarded<T>(r: Access<T>, address: Word, first: Word, last: Word) {
    if address % 4 != 0 then r.Denied? && r.fault == AccessMisaligned
    else if first <= address <= last then r.Granted?
    else r.Denied? && r.fault == OutOfRange
  }

  /** The guards of every memory and device, each with its own window. */
  lemma DeviceGuards(rom: Bytes64K, ram: Bytes64K, t: I.Timer, g: Gpio, tx: seq<Byte>, v: Word, address: Word)
    ensures Guarded(RomRead32(rom, address), address, 0, 0xFFFF)
    ensures Guarded(RamRead32(ram, address), address, 0x1000_0000, 0x1000_FFFF)
    ensures Guarded(RamWrite32(ram, address, v), address, 0x1000_0000, 0x1000_FFFF)
    ensures Guarded(UartRead32(address), address, 0x2000_0000, 0x2000_000F)
    ensures Guarded(UartWrite32(tx, address, v), address, 0x2000_0000, 0x2000_000F)
    ensures Guarded(TimerRead32(t, address), address, 0x2000_0100, 0x2000_010F)
    ensures Guarded(TimerWrite32(t, address, v), address, 0x2000_0100, 0x2000_010F)
    ensures Guarded(GpioRead32(g, address), address, 0x2000_0200, 0x2000_020F)
    ensures Guarded(GpioWrite32(g, address, v), address, 0x2000_0200, 0x2000_020F)
    ensures Guarded(DebugRead32(v, address), address, 0x2000_0300, 0x2000_030F)
    ensures Guarded(DebugWrite32(v, address, v), address, 0x2000_0300, 0x2000_030F)
  {
    hide ReadWord, WriteWord;
  }

  lemma SplitByte(x: nat)
    ensures x == 0x100 * (x / 0x100) + x % 0x100
    ensures x / 0x100 / 0x100 == x / 0x1_0000
    ensures x < 0x100 ==> x % 0x100 == x
  {
  }

  lemma ComposeBytes(v: int, q1: int, q2: int, q3: int, r0: Byte, r1: Byte, r2: Byte, r3: Byte)
    requires v == 0x100 * q1 + r0 && q1 == 0x100 * q2 + r1 && q2 == 0x100 * q3 + r2 && r3 == q3
    ensures LittleEndian(r0, r1, r2, r3) == v
  {
  }

  lemma WordSplit(v: Word)
    ensures LittleEndian(v % 0x100, v / 0x100 % 0x100, v / 0x1_0000 % 0x100, v / 0x100_0000 % 0x100) == v
  {
    SplitByte(v);
    SplitByte(v / 0x100);
    SplitByte(v / 0x1_0000);
    SplitByte(v / 0x100_0000);
    ComposeBytes(v, v / 0x100, v / 0x1_0000, v / 0x100_0000,
                 v % 0x100, v / 0x100 % 0x100, v / 0x1_0000 % 0x100, v / 0x100_0000 % 0x100);
  }

  lemma ByteWriteIsWordWrite(bytes: Bytes64K, i: int, v: Word)
    requires 0 <= i < 16384
    ensures WordsOf(WriteWord(bytes, 4 * i, v)) == WordsOf(bytes)[i := v]
  {
    var after := WriteWord(bytes, 4 * i, v);
    WordSplit(v);
    forall j | 0 <= j < 16384
      ensures WordsOf(after)[j] == WordsOf(bytes)[i := v][j]
    {
      if j == i {
        assert ReadWord(after, 4 * i) == v;
      } else {
        assert after[4 * j..4 * j + 4] == bytes[4 * j..4 * j + 4];
        assert ReadWord(after, 4 * j) == ReadWord(bytes, 4 * j);
      }
    }
  }

  lemma BusReadAgrees(b: Bus, address: Word)
    ensures Read32(b, address) == I.Load(EnvOf(b), DevicesOf(b), address)
    ensures Fetch32(b, address) == I.Fetch(EnvOf(b), address)
  {
    if address % 4 == 0 {
      assert 4 * (address / 4) == address;
    }
  }

  lemma BusWriteAgrees(b: Bus, address: Word, v: Word)
    ensures match Write32(b, address, v)
            case WriteFault(f) => I.Store(DevicesOf(b), address, v) == I.WriteFault(f)
            case Done(b') =>
              && I.Store(DevicesOf(b), address, v) == I.Written(DevicesOf(b'))
              && EnvOf(b') == EnvOf(b)
  {
    if address % 4 == 0 && 0x1000_0000 <= address <= 0x1000_FFFF {
      var i := (address - 0x1000_0000) / 4;
      assert 4 * i == address - 0x1000_0000;
      ByteWriteIsWordWrite(b.ram, i, v);
    }
  }

  // ---- One instruction, tick by tick ----

  ghost predicate Fetched(env: I.Env, c: Core) {
    I.Fetch(env, c.pc) == I.Data(c.ir) && c.pcPlus4 == Wrap(c.pc + 4)
  }

  /** The Writeback state holds exactly the effect still to be committed. */
  ghost predicate HoldsEffect(c: Core, e: I.Effect)
    requires c.decoded.Some? && c.control.Some?
  {
    var k := c.control.value;
    && c.nextPc == e.nextPc
    && if k.regWrite
       then && e.rd == (if k.destination == ReturnAddress then 31 else c.decoded.value.rd)
            && e.value == (if k.source == FromMemory then c.memoryData
                           else if k.source == FromPcPlus4 then c.pcPlus4 else c.alu)
       else e.rd == 0
  }

  /** The machine is part-way through the instruction that starts at `a`, and
      nothing architectural has happened yet. */
  ghost predicate InFlight(s: Sim, a: I.Arch) {
    var c, env := s.core, EnvOf(s.bus);
    && ArchOf(s) == a
    && WellFormed(c)
    && match c.micro
       case Fetch => true
       case Decode => Fetched(env, c) && c.nextPc == c.pcPlus4
       case Execute =>
         var k, d := c.control.value, c.decoded.value;
         && Fetched(env, c) && c.nextPc == c.pcPlus4
         && c.lhs == a.regs[d.rs1]
         && c.rhs == (if k.aluSrcImmediate then ImmediateValue(k.immediate, d.imm16) else a.regs[d.rs2])
         && c.storeData == a.regs[d.rs2]
       case Memory =>
         && Fetched(env, c) && c.nextPc == c.pcPlus4 && I.Decode(c.ir).Ok?
         && var i := I.Decode(c.ir).instr;
            && (i.Lw? || i.Sw?)
            && c.alu == I.EffectiveAddress(a, i.base, i.offset)
            && (i.Sw? ==> c.storeData == a.regs[i.src])
       case Writeback =>
         && Fetched(env, c) && I.Decode(c.ir).Ok?
         && var i := I.Decode(c.ir).instr;
            if i.Lw? then
              var addr := I.EffectiveAddress(a, i.base, i.offset);
              && I.Load(env, a.dev, addr).Data?
              && HoldsEffect(c, I.Effect(Wrap(a.pc + 4), i.rd, I.Load(env, a.dev, addr).value))
            else I.IsComputation(i) && HoldsEffect(c, I.Compute(a, i))
       case _ => false
  }

  /** The instruction at `a` has just finished as the interpreter says. */
  ghost predicate Finished(s: Sim, before: nat, m: I.Machine) {
    && ArchOf(s) == m.arch
    && match m
       case Running(_) => s.core.micro == Fetch && s.core.retired == before + 1
       case Halted(_) => s.core.micro == Halted && s.core.retired == before + 1
       case Faulted(_, info) => s.core.micro == Fault && s.core.fault == info && s.core.retired == before
  }

  /** Every tick either moves to a strictly later microstate of the same
      instruction or finishes it; it never touches the environment. */
  ghost predicate TickOutcome(s: Sim, a: I.Arch)
    requires WellFormed(s.core)
  {
    var s' := Tick(s);
    && EnvOf(s'.bus) == EnvOf(s.bus)
    && s'.core.fault.code != I.UnsupportedInstruction
    && (|| (InFlight(s', a) && Rank(s'.core.micro) < Rank(s.core.micro) && s'.core.retired == s.core.retired)
        || (Finished(s', s.core.retired, I.Step(EnvOf(s.bus), a))
            && s'.core.retired + (if s'.core.micro == Fault then 1 else 0) == s.core.retired + 1))
  }

  /** How many ticks an instruction in this microstate can still take. */
  function Rank(m: Microstate): nat {
    match m
    case Fetch => 5
    case Decode => 4
    case Execute => 3
    case Memory => 2
    case Writeback => 1
    case _ => 0
  }

  lemma FetchTick(s: Sim, a: I.Arch)
    requires InFlight(s, a) && s.core.micro == Fetch && s.core.fault.code != I.UnsupportedInstruction
    ensures TickOutcome(s, a)
  {
    hide I.Decode, I.Execute, I.Fetch, Fetch32, DecodeWord, WordsOf;
    BusReadAgrees(s.bus, s.core.pc);
  }

  lemma DecodeTick(s: Sim, a: I.Arch)
    requires InFlight(s, a) && s.core.micro == Microstate.Decode && s.core.fault.code != I.UnsupportedInstruction
    ensures TickOutcome(s, a)
  {
    hide I.Fetch, I.Execute, I.Decode, DecodeWord, ControlFor, WordsOf, ImmediateValue;
    DecoderAgrees(s.core.ir);
  }

  lemma ExecuteTickBranches(s: Sim, a: I.Arch)
    requires InFlight(s, a) && s.core.micro == Execute && s.core.fault.code != I.UnsupportedInstruction
    requires s.core.control.value.flow == ConditionalBranch
    ensures TickOutcome(s, a)
  {
    hide I.Decode, I.Fetch, I.Load, I.Store, I.Alu, AluExecute, DecodeWord, ControlFor, WordsOf, SignedLessThan, Signed,
      BranchDisplacement, JumpDisplacement, ImmediateValue, Wrap;
    var c := s.core;
    DecoderAgrees(c.ir);
    AluAgrees(I.Slt, c.lhs, c.rhs);
    WrapAdd(c.pc + 4, 4 * I.Decode(c.ir).instr.disp);
  }

  lemma ExecuteTickJumps(s: Sim, a: I.Arch)
    requires InFlight(s, a) && s.core.micro == Execute && s.core.fault.code != I.UnsupportedInstruction
    requires s.core.control.value.flow == RelativeJump && !s.core.control.value.regWrite
    ensures TickOutcome(s, a)
  {
    hide I.Decode, I.Fetch, I.Load, I.Store, I.Alu, AluExecute, DecodeWord, ControlFor, WordsOf, SignedLessThan, Signed,
      BranchDisplacement, JumpDisplacement, ImmediateValue, Wrap;
    var c := s.core;
    DecoderAgrees(c.ir);
    WrapAdd(c.pc + 4, 4 * I.Decode(c.ir).instr.disp);
  }

  lemma ExecuteTickReturns(s: Sim, a: I.Arch)
    requires InFlight(s, a) && s.core.micro == Execute && s.core.fault.code != I.UnsupportedInstruction
    requires s.core.control.value.flow == RegisterJump
    ensures TickOutcome(s, a)
  {
    hide I.Decode, I.Fetch, I.Load, I.Store, I.Alu, AluExecute, DecodeWord, ControlFor, WordsOf, SignedLessThan, Signed,
      BranchDisplacement, JumpDisplacement, ImmediateValue, Wrap;
    var c := s.core;
    DecoderAgrees(c.ir);
  }

  lemma ExecuteTickComputes(s: Sim, a: I.Arch)
    requires InFlight(s, a) && s.core.micro == Execute && s.core.fault.code != I.UnsupportedInstruction
    requires s.core.control.value.flow == Sequential && s.core.control.value.memory == MemNone
    ensures TickOutcome(s, a)
  {
    hide I.Decode, I.Fetch, I.Load, I.Store, I.Alu, I.Step, AluExecute, DecodeWord, ControlFor, WordsOf, SignedLessThan,
      Signed, BranchDisplacement, JumpDisplacement, ImmediateValue, Wrap;
    var c := s.core;
    DecoderAgrees(c.ir);
    AluAgrees(c.control.value.aluOp, c.lhs, c.rhs);
    I.AddIsWrappedSum(c.lhs, c.rhs);
  }

  lemma ExecuteTickLinks(s: Sim, a: I.Arch)
    requires InFlight(s, a) && s.core.micro == Execute && s.core.fault.code != I.UnsupportedInstruction
    requires s.core.control.value.flow != Sequential && s.core.control.value.regWrite
    ensures TickOutcome(s, a)
  {
    hide I.Decode, I.Fetch, I.Load, I.Store, I.Alu, I.Step, AluExecute, DecodeWord, ControlFor, WordsOf, SignedLessThan,
      Signed, BranchDisplacement, JumpDisplacement, ImmediateValue, Wrap;
    var c := s.core;
    DecoderAgrees(c.ir);
    WrapAdd(c.pc + 4, 4 * I.Decode(c.ir).instr.disp);
  }

  lemma ExecuteTickAddresses(s: Sim, a: I.Arch)
    requires InFlight(s, a) && s.core.micro == Execute && s.core.fault.code != I.UnsupportedInstruction
    requires s.core.control.value.memory != MemNone
    ensures TickOutcome(s, a)
  {
    hide I.Decode, I.Fetch, I.Load, I.Store, I.Alu, I.Step, AluExecute, DecodeWord, ControlFor, WordsOf, SignedLessThan,
      Signed, BranchDisplacement, JumpDisplacement, ImmediateValue, Wrap;
    var c := s.core;
    DecoderAgrees(c.ir);
    AluAgrees(c.control.value.aluOp, c.lhs, c.rhs);
    I.AddIsWrappedSum(c.lhs, c.rhs);
    match I.Decode(c.ir).instr
    case Lw(_, base, offset) => WrapAdd(a.regs[base], offset);
    case Sw(_, base, offset) => WrapAdd(a.regs[base], offset);
    case _ =>
  }

  lemma MemoryTick(s: Sim, a: I.Arch)
    requires InFlight(s, a) && s.core.micro == Memory && s.core.fault.code != I.UnsupportedInstruction
    ensures TickOutcome(s, a)
  {
    hide I.Decode, I.Fetch, I.Load, I.Store, Read32, Write32, DecodeWord, ControlFor, WordsOf, ImmediateValue,
      BranchDisplacement, JumpDisplacement, Wrap;
    DecoderAgrees(s.core.ir);
    BusReadAgrees(s.bus, s.core.alu);
    BusWriteAgrees(s.bus, s.core.alu, s.core.storeData);
  }

  lemma WritebackTick(s: Sim, a: I.Arch)
    requires InFlight(s, a) && s.core.micro == Writeback && s.core.fault.code != I.UnsupportedInstruction
    ensures TickOutcome(s, a)
  {
    hide I.Fetch, I.Decode, I.Load, I.Alu, DecodeWord, ControlFor, WordsOf, ImmediateValue, BranchDisplacement,
      JumpDisplacement, Wrap;
    DecoderAgrees(s.core.ir);
  }

  lemma TickInFlight(s: Sim, a: I.Arch)
    requires InFlight(s, a) && s.core.fault.code != I.UnsupportedInstruction
    ensures TickOutcome(s, a)
  {
    match s.core.micro
    case Fetch => FetchTick(s, a);
    case Decode => DecodeTick(s, a);
    case Execute =>
      if s.core.control.value.memory != MemNone {
        ExecuteTickAddresses(s, a);
      } else if s.core.control.value.flow == Sequential {
        ExecuteTickComputes(s, a);
      } else if s.core.control.value.regWrite {
        ExecuteTickLinks(s, a);
      } else {
        match s.core.control.value.flow
        case ConditionalBranch => ExecuteTickBranches(s, a);
        case RelativeJump => ExecuteTickJumps(s, a);
        case RegisterJump => ExecuteTickReturns(s, a);
      }
    case Memory => MemoryTick(s, a);
    case Writeback => WritebackTick(s, a);
  }

  // ---- step() ----

  /** From any well-formed microstate, reachable or not, a tick stops, retires or
      lowers the rank, and the optionals stay present where they are dereferenced. */
  lemma TickProgress(s: Sim)
    requires WellFormed(s.core) && !s.core.Stopped()
    ensures WellFormed(Tick(s).core)
    ensures Tick(s).core.Stopped() || Tick(s).core.retired > s.core.retired
            || Rank(Tick(s).core.micro) < Rank(s.core.micro)
  {
    hide Fetch32, Read32, Write32, DecodeWord, ControlFor, AluExecute, ImmediateValue, JumpDisplacement,
      BranchDisplacement;
  }

  /** The loop of step(): tick until stopped or the count has moved. */
  function StepFrom(s: Sim, before: nat): (r: Sim)
    requires WellFormed(s.core)
    ensures WellFormed(r.core)
    decreases Rank(s.core.micro)
  {
    if s.core.Stopped() || s.core.retired != before then s
    else
      TickProgress(s);
      if Tick(s).core.Stopped() || Tick(s).core.retired != before then Tick(s) else StepFrom(Tick(s), before)
  }

  function Step(s: Sim): Sim
    requires WellFormed(s.core)
  {
    StepFrom(s, s.core.retired)
  }

  function TickN(s: Sim, n: nat): Option<Sim> {
    if n == 0 then Some(s)
    else match TickN(s, n - 1)
      case Some(t) => if WellFormed(t.core) then Some(Tick(t)) else None
      case None => None
  }

  lemma TickNFromFirst(s: Sim, n: nat)
    requires WellFormed(s.core)
    ensures TickN(Tick(s), n) == TickN(s, n + 1)
  {
    if n > 0 {
      TickNFromFirst(s, n - 1);
    }
  }

  /** step() ends after at most five ticks, and is that many ticks. */
  lemma {:induction false} StepWithinFiveTicks(s: Sim)
    requires WellFormed(s.core) && !s.core.Stopped()
    ensures exists n :: 1 <= n <= Rank(s.core.micro) <= 5 && TickN(s, n) == Some(Step(s))
    decreases Rank(s.core.micro)
  {
    TickProgress(s);
    var t := Tick(s);
    assert TickN(s, 0) == Some(s) && TickN(s, 1) == Some(t);
    if t.core.Stopped() || t.core.retired != s.core.retired {
      assert TickN(s, 1) == Some(Step(s));
    } else {
      StepWithinFiveTicks(t);
      var n :| 1 <= n <= Rank(t.core.micro) && TickN(t, n) == Some(Step(t));
      TickNFromFirst(s, n);
      assert TickN(s, n + 1) == Some(Step(s));
    }
  }

  /** ISA correctness: from any microstate of an instruction, step() completes
      exactly what the one-shot interpreter does, and no reachable step raises
      UnsupportedInstruction. */
  lemma {:induction false} StepIsInstruction(s: Sim, a: I.Arch)
    requires InFlight(s, a) && s.core.fault.code != I.UnsupportedInstruction
    ensures Finished(Step(s), s.core.retired, I.Step(EnvOf(s.bus), a))
    ensures EnvOf(Step(s).bus) == EnvOf(s.bus)
    ensures Step(s).core.fault.code != I.UnsupportedInstruction
    decreases Rank(s.core.micro)
  {
    hide I.Step, Tick, ArchOf, EnvOf;
    TickInFlight(s, a);
    TickProgress(s);
    var t := Tick(s);
    if t.core.Stopped() || t.core.retired != s.core.retired {
    } else {
      StepIsInstruction(t, a);
    }
  }

  // ---- Whole runs ----

  /** What a simulator between two step() calls denotes. */
  ghost predicate Denotes(s: Sim, env: I.Env, m: I.Machine) {
    && EnvOf(s.bus) == env
    && ArchOf(s) == m.arch
    && s.core.fault.code != I.UnsupportedInstruction
    && WellFormed(s.core)
    && match m
       case Running(_) => s.core.micro == Fetch
       case Halted(_) => s.core.micro == Halted
       case Faulted(_, info) => s.core.micro == Fault && s.core.fault == info
  }

  function StepN(s: Sim, n: nat): (r: Sim)
    requires WellFormed(s.core)
    ensures WellFormed(r.core)
  {
    if n == 0 then s else Step(StepN(s, n - 1))
  }

  lemma StepDenotes(s: Sim, env: I.Env, m: I.Machine)
    requires Denotes(s, env, m)
    ensures Denotes(Step(s), env, I.Next(env, m))
    ensures Step(s).core.retired == s.core.retired + (if m.Running? && !I.Next(env, m).Faulted? then 1 else 0)
  {
    hide I.Step, Tick, ArchOf, EnvOf;
    if m.Running? {
      StepIsInstruction(s, m.arch);
    }
  }

  /** n calls of step() are n instructions; a halted or faulted machine absorbs the rest. */
  lemma {:induction false} RunDenotes(s: Sim, env: I.Env, m: I.Machine, n: nat)
    requires Denotes(s, env, m)
    ensures Denotes(StepN(s, n), env, I.Run(env, m, n))
  {
    hide I.Step, Step, ArchOf, EnvOf, WellFormed;
    if n > 0 {
      RunDenotes(s, env, m, n - 1);
      StepDenotes(StepN(s, n - 1), env, I.Run(env, m, n - 1));
    }
  }

  function ResetSim(rom: Bytes64K, ram: Bytes64K, gpioIn: Word): Sim {
    Sim(ResetCore(), Bus(rom, ram, [], I.Timer(0, 0, false), Gpio(gpioIn, 0, 0), 0))
  }

  lemma ResetDenotes(rom: Bytes64K, ram: Bytes64K, gpioIn: Word)
    ensures Denotes(ResetSim(rom, ram, gpioIn), I.Env(WordsOf(rom), gpioIn), I.Running(I.ResetArch(WordsOf(ram))))
  {
    assert I.RegsOf(I.ZeroRegisters()) == I.ZeroRegisters();
  }

  predicate OnlyChanges(rd: RegIndex, before: Core, after: Core) {
    forall r: RegIndex :: r != rd ==> RegRead(after.regs, r) == RegRead(before.regs, r)
  }

  /** Precise faults: a faulting step() leaves every architectural and device
      register and the count alone; a retiring one adds one to the count and
      changes at most one register, never r0. */
  lemma StepIsPrecise(s: Sim, env: I.Env, a: I.Arch)
    requires Denotes(s, env, I.Running(a))
    ensures Step(s).core.micro == Fault <==> I.Step(env, a).Faulted?
    ensures Step(s).core.micro == Fault ==>
              && ArchOf(Step(s)) == ArchOf(s) && Step(s).core.retired == s.core.retired
              && Step(s).core.fault.pc == s.core.pc
    ensures Step(s).core.micro != Fault ==>
              && Step(s).core.retired == s.core.retired + 1
              && exists rd: RegIndex :: rd != 0 && OnlyChanges(rd, s.core, Step(s).core)
  {
    hide Tick, Step, DevicesOf, EnvOf, WordsOf;
    StepDenotes(s, env, I.Running(a));
    FaultIsInert(env, a);
    if Step(s).core.micro != Fault {
      hide I.Step;
      var rd := WrittenRegister(env, a);
      forall r: RegIndex | r != rd
        ensures RegRead(Step(s).core.regs, r) == RegRead(s.core.regs, r)
      {
        assert RegRead(s.core.regs, r) == ArchOf(s).regs[r];
        assert RegRead(Step(s).core.regs, r) == ArchOf(Step(s)).regs[r];
      }
      assert OnlyChanges(rd, s.core, Step(s).core);
    }
  }

  lemma FaultIsInert(env: I.Env, a: I.Arch)
    ensures I.Step(env, a).Faulted? ==> I.Step(env, a).arch == a && I.Step(env, a).info.pc == a.pc
  {
    hide I.Decode, I.Fetch, I.Load, I.Store, I.Alu, Wrap;
  }

  lemma WrittenRegister(env: I.Env, a: I.Arch) returns (rd: RegIndex)
    requires !I.Step(env, a).Faulted?
    ensures rd != 0
    ensures forall r: RegIndex :: r != rd ==> I.Step(env, a).arch.regs[r] == a.regs[r]
  {
    hide I.Decode, I.Fetch, I.Load, I.Store, I.Alu, Wrap;
    var i := I.Decode(I.Fetch(env, a.pc).value).instr;
    rd := if i.Lw? then i.rd else if I.IsComputation(i) then I.Compute(a, i).rd else 1;
    if rd == 0 {
      rd := 1;
    }
  }
}
