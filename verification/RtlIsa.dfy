/** The RTL system executes the documented machine: every clock either advances
    one instruction in flight or retires it with exactly the interpreter's
    effect, in a number of clocks fixed by the instruction. */
module RtlIsa {
  import opened Words
  import I = Isa
  import opened Control
  import opened Rtl

  // ---- Decoder and control unit ----

  function OperandsOf(k: Signals, f: Fields): Operands
    requires f.InRange()
  {
    Operands(f.rd, f.rs1, f.rs2, Immediate(k.immediate, f.imm16),
             BranchDisplacement(f.imm16), JumpDisplacement(f.imm26))
  }

  ghost predicate DecodingsAgree(f: Fields, t: I.Decoding)
    requires f.InRange()
  {
    match t
    case Illegal => !f.valid && !f.malformed
    case Malformed => !f.valid && f.malformed
    case Ok(i) =>
      f.valid && Supported(f.opcode) && Implements(ControlUnit(f.opcode), OperandsOf(ControlUnit(f.opcode), f), i)
  }

  lemma SignExtensions(imm16: int, imm26: int)
    requires 0 <= imm16 < 0x1_0000 && 0 <= imm26 < 0x400_0000
    ensures Immediate(Signed16, imm16) == Wrap(Sext16(imm16))
    ensures Immediate(ZeroExtended16, imm16) == Wrap(imm16)
    ensures Immediate(Upper16, imm16) == Wrap(imm16 * 0x1_0000)
    ensures BranchDisplacement(imm16) == Wrap(4 * Sext16(imm16))
    ensures JumpDisplacement(imm26) == Wrap(4 * Sext26(imm26))
  {
  }

  lemma PartsAgree(b31: int, b25: RegIndex, b20: RegIndex, b15: RegIndex,
                   low11: int, low16: int, low21: int, low26: int)
    requires 0 <= b31 < 64 && 0 <= low16 < 0x1_0000 && 0 <= low26 < 0x400_0000
    requires low21 == 0 <==> b20 == 0 && low16 == 0
    ensures DecodingsAgree(SliceParts(b31, b25, b20, b15, low11, low16, low21, low26),
                           I.DecodeFields(b31, b25, b20, b15, low11, low16, low26))
  {
    hide Immediate, BranchDisplacement, JumpDisplacement, Wrap, Sext16, Sext26;
    SignExtensions(low16, low26);
  }

  lemma DecoderAgrees(w: Word)
    ensures DecodingsAgree(Slice(w), I.Decode(w))
  {
    FieldOverlap(w);
    PartsAgree(w / 0x400_0000, w / 0x20_0000 % 32, w / 0x1_0000 % 32, w / 0x800 % 32,
               w % 0x800, w % 0x1_0000, w % 0x20_0000, w % 0x400_0000);
  }

  // ---- The bus, edge by edge ----

  function TimerOf(t: TimerMmio): I.Timer { I.Timer(t.counter, t.compare, t.enabled) }

  /** The UART event visible in this clock period, if any. */
  function Emitted(b: Bus): seq<Byte> { if b.uart.txValid then [b.uart.txData] else [] }

  /** The devices as software sees them: a retirement pulse still to reach the
      Timer, and a UART byte still to be collected, already count. */
  function DevicesOf(b: Bus, tick: bool, tx: seq<Byte>): I.Devices {
    I.Devices(b.ram.words, tx + Emitted(b), if tick then I.Tick(TimerOf(b.timer)) else TimerOf(b.timer),
              b.gpio.output, b.gpio.direction, b.debug.value)
  }

  lemma TickInFlight(b: Bus, tx: seq<Byte>)
    ensures var d := DevicesOf(b, false, tx);
            DevicesOf(b, true, tx) == d.(timer := I.Tick(d.timer))
  {
  }

  /** Any combination of access and tick at one edge: the write comes first and
      the tick counts with the enable bit it leaves, while a read sees the state
      before the edge. */
  lemma TimerEdge(t: TimerMmio, tick: bool, re: bool, we: bool, offset: int, v: Word)
    ensures var q := TimerClock(t, tick, re, we, offset, v);
            var written := if we then I.TimerWrite(TimerOf(t), offset, v) else TimerOf(t);
            && TimerOf(q) == (if tick then I.Tick(written) else written)
            && q.readData == (if !re then t.readData
                              else if offset in {0, 4, 8, 12} then I.TimerRead(TimerOf(t), offset) else 0)
  {
  }

  /** The other clocked blocks under any combination of enables: a read registers
      the state before the edge even if a write lands at the same edge, and a
      write changes the addressed register alone. */
  lemma PeripheralEdges(m: RamBlock, u: UartMmio, g: GpioMmio, d: DebugMmio, pins: Word, re: bool, we: bool,
                        index: nat, offset: int, v: Word)
    requires index < 16384
    ensures var q := RamClock(m, re, we, index, v);
            && (forall j :: 0 <= j < 16384 ==> q.words[j] == if we && j == index then v else m.words[j])
            && q.readData == if re then m.words[index] else m.readData
    ensures var q := UartClock(u, re, we, offset, v);
            && (q.txValid <==> we && offset == 0) && (q.txValid ==> q.txData == v % 256)
            && q.readData == if !re then u.readData else if offset == 4 then 1 else 0
    ensures var q := GpioClock(g, pins, re, we, offset, v);
            && q.output == (if we && offset == 4 then v else g.output)
            && q.direction == (if we && offset == 8 then v else g.direction)
            && q.readData == if !re then g.readData else if offset == 0 then pins
                             else if offset == 4 then g.output else if offset == 8 then g.direction else 0
    ensures var q := DebugClock(d, re, we, offset, v);
            && q.value == (if we && offset == 0 then v else d.value)
            && q.readData == if !re then d.readData else if offset == 0 then d.value else 0
  {
  }

  lemma IdleEdge(env: I.Env, b: Bus, r: Request, tick: bool, tx: seq<Byte>)
    requires b.state == IDLE && !b.uart.txValid
    ensures var b' := BusClock(env, b, r, tick);
            && DevicesOf(b', false, tx) == DevicesOf(b, tick, tx)
            && !b'.uart.txValid
            && (if r.valid then b'.state == ACCESS && b'.access == r.access && b'.addr == r.addr && b'.wdata == r.wdata
                else b'.state == IDLE)
  {
  }

  lemma RespondEdge(env: I.Env, b: Bus, r: Request, tx: seq<Byte>)
    requires b.state == RESPOND
    ensures var b' := BusClock(env, b, r, false);
            && DevicesOf(b', false, tx + Emitted(b)) == DevicesOf(b, false, tx)
            && !b'.uart.txValid && b'.state == IDLE
  {
  }

  ghost predicate SamePending(b: Bus, b': Bus) {
    b'.access == b.access && b'.addr == b.addr && b'.wdata == b.wdata
  }

  lemma FetchEdge(env: I.Env, b: Bus, r: Request, tx: seq<Byte>)
    requires b.state == ACCESS && b.access == BusFetch && !b.uart.txValid
    ensures var b' := BusClock(env, b, r, false);
            && DevicesOf(b', false, tx) == DevicesOf(b, false, tx)
            && !b'.uart.txValid && b'.state == RESPOND && SamePending(b, b')
            && (match I.Fetch(env, b.addr)
                case Data(w) => BusResponse(b') == Response(true, w, None)
                case ReadFault(f) =>
                  BusResponse(b') == Response(true, 0, Some(if InStm32Fetch(b.addr) then I.NonExecutable else f)))
  {
    WordIndex(b.addr);
  }

  /** An aligned fetch from the reserved window, where the two machines differ. */
  predicate InStm32Fetch(addr: Word) { addr % 4 == 0 && I.InStm32Window(addr) }

  lemma ReservedWindowIsUnmapped(env: I.Env, addr: Word)
    ensures InStm32Fetch(addr) ==> I.Fetch(env, addr) == I.ReadFault(I.Unmapped)
  {
  }

  lemma WordIndex(addr: Word)
    ensures addr < 0x1_0000 ==> addr / 4 % 16384 == addr / 4
    ensures 0x1000_0000 <= addr < 0x1001_0000 ==> addr / 4 % 16384 == (addr - 0x1000_0000) / 4
  {
  }

  lemma LoadEdge(env: I.Env, b: Bus, r: Request, tx: seq<Byte>)
    requires b.state == ACCESS && b.access == BusLoad && !b.uart.txValid
    ensures var b' := BusClock(env, b, r, false);
            && DevicesOf(b', false, tx) == DevicesOf(b, false, tx)
            && !b'.uart.txValid && b'.state == RESPOND && SamePending(b, b')
            && (match I.Load(env, DevicesOf(b, false, tx), b.addr)
                case Data(v) => BusResponse(b') == Response(true, v, None)
                case ReadFault(f) => BusResponse(b') == Response(true, 0, Some(f)))
  {
    WordIndex(b.addr);
  }

  /** A store performs its one device write at the access edge, or none if it faults. */
  lemma StoreEdge(env: I.Env, b: Bus, r: Request, tx: seq<Byte>)
    requires b.state == ACCESS && b.access == BusStore && !b.uart.txValid
    ensures var b' := BusClock(env, b, r, false);
            && b'.state == RESPOND && SamePending(b, b') && BusResponse(b').ready
            && DevicesOf(b, false, tx).tx == tx
            && (match I.Store(DevicesOf(b, false, tx), b.addr, b.wdata)
                case Written(d) => BusResponse(b').fault == None && DevicesOf(b', false, tx) == d
                case WriteFault(f) =>
                  BusResponse(b').fault == Some(f) && DevicesOf(b', false, tx) == DevicesOf(b, false, tx))
  {
    WordIndex(b.addr);
  }

  // ---- Instructions in flight ----

  function SignalsOf(ir: Word): Signals { ControlUnit(Slice(ir).opcode) }

  ghost predicate Holds(b: Bus, access: Access, addr: Word, wdata: Word) {
    b.access == access && b.addr == addr && b.wdata == wdata
  }

  /** A request from the CPU: idle, captured, or answered with response `r`. */
  ghost predicate Requesting(s: System, tx: seq<Byte>, access: Access, addr: Word, wdata: Word, d: I.Devices) {
    var c, b := s.cpu, s.bus;
    && b.state != RESPOND
    && (b.state == ACCESS ==> !c.retire.valid && Holds(b, access, addr, wdata))
    && !b.uart.txValid
    && DevicesOf(b, c.retire.valid, tx) == d
  }

  ghost predicate Answered(s: System, tx: seq<Byte>, access: Access, addr: Word, wdata: Word, d: I.Devices) {
    var c, b := s.cpu, s.bus;
    && b.state == RESPOND && !c.retire.valid && Holds(b, access, addr, wdata)
    && DevicesOf(b, false, tx) == d
  }

  ghost predicate Quiet(s: System, tx: seq<Byte>, d: I.Devices) {
    s.bus.state == IDLE && !s.cpu.retire.valid && !s.bus.uart.txValid && DevicesOf(s.bus, false, tx) == d
  }

  ghost predicate FetchAnswer(env: I.Env, addr: Word, r: Response) {
    match I.Fetch(env, addr)
    case Data(w) => r == Response(true, w, None)
    case ReadFault(f) => r == Response(true, 0, Some(if InStm32Fetch(addr) then I.NonExecutable else f))
  }

  ghost predicate LoadAnswer(env: I.Env, d: I.Devices, addr: Word, r: Response) {
    match I.Load(env, d, addr)
    case Data(v) => r == Response(true, v, None)
    case ReadFault(f) => r == Response(true, 0, Some(f))
  }

  ghost predicate StoreAnswer(d: I.Devices, addr: Word, v: Word, d': I.Devices, r: Response) {
    && r.ready
    && match I.Store(d, addr, v)
       case Written(e) => r.fault == None && d' == e
       case WriteFault(f) => r.fault == Some(f) && d' == d
  }

  ghost predicate InFetch(env: I.Env, s: System, tx: seq<Byte>, a: I.Arch) {
    || Requesting(s, tx, BusFetch, a.pc, 0, a.dev)
    || (Answered(s, tx, BusFetch, a.pc, 0, a.dev) && !s.bus.uart.txValid && FetchAnswer(env, a.pc, BusResponse(s.bus)))
  }

  /** The fetched word, once decoded. */
  ghost predicate Decoded(env: I.Env, c: Cpu, i: I.Instr) {
    I.Fetch(env, c.pc) == I.Data(c.ir) && I.Decode(c.ir) == I.Ok(i)
  }

  ghost predicate InExecute(env: I.Env, s: System, a: I.Arch, i: I.Instr) {
    var c, f := s.cpu, Slice(s.cpu.ir);
    && Decoded(env, c, i)
    && c.nextPc == Wrap(c.pc + 4)
    && c.lhs == a.regs[f.rs1]
    && c.rhs == (if SignalsOf(c.ir).aluSrcImmediate then Immediate(SignalsOf(c.ir).immediate, f.imm16)
                 else a.regs[f.rs2])
    && c.store == a.regs[f.rs2]
  }

  ghost predicate InMemory(env: I.Env, s: System, tx: seq<Byte>, a: I.Arch, i: I.Instr) {
    var c := s.cpu;
    && Decoded(env, c, i) && (i.Lw? || i.Sw?) && !c.retire.valid
    && c.nextPc == Wrap(c.pc + 4)
    && c.alu == I.EffectiveAddress(a, i.base, i.offset)
    && (i.Sw? ==> c.store == a.regs[i.src])
    && var access := if i.Sw? then BusStore else BusLoad;
       || Requesting(s, tx, access, c.alu, c.store, a.dev)
       || (if i.Sw? then
             && Answered(s, tx, access, c.alu, c.store, DevicesOf(s.bus, false, tx)) && tx == a.dev.tx
             && StoreAnswer(a.dev, c.alu, c.store, DevicesOf(s.bus, false, tx), BusResponse(s.bus))
           else
             && Answered(s, tx, access, c.alu, c.store, a.dev) && !s.bus.uart.txValid
             && LoadAnswer(env, a.dev, c.alu, BusResponse(s.bus)))
  }

  /** WRITEBACK holds exactly the effect still to be committed. */
  ghost predicate HoldsEffect(c: Cpu, e: I.Effect) {
    var k := SignalsOf(c.ir);
    && c.nextPc == e.nextPc
    && if k.regWrite
       then && e.rd == (if k.destination == ReturnAddress then 31 else Slice(c.ir).rd)
            && e.value == WritebackValue(c, k)
       else e.rd == 0
  }

  ghost predicate InWriteback(env: I.Env, s: System, a: I.Arch, i: I.Instr) {
    && Decoded(env, s.cpu, i)
    && if i.Lw? then
         var addr := I.EffectiveAddress(a, i.base, i.offset);
         && I.Load(env, a.dev, addr).Data?
         && HoldsEffect(s.cpu, I.Effect(Wrap(a.pc + 4), i.rd, I.Load(env, a.dev, addr).value))
       else I.IsComputation(i) && HoldsEffect(s.cpu, I.Compute(a, i))
  }

  /** The abstraction relation: the system is part-way through the instruction
      that starts at `a`, having emitted the UART bytes `tx` before this clock.
      A store's device write is visible from its response on; nothing else
      architectural happens before retirement. */
  ghost predicate InFlight(env: I.Env, s: System, tx: seq<Byte>, a: I.Arch) {
    var c := s.cpu;
    && c.pc == a.pc && I.RegsOf(c.regs) == a.regs
    && match c.state
       case FETCH => InFetch(env, s, tx, a)
       case DECODE => Quiet(s, tx, a.dev) && I.Fetch(env, c.pc) == I.Data(c.ir)
       case EXECUTE => Quiet(s, tx, a.dev) && I.Decode(c.ir).Ok? && InExecute(env, s, a, I.Decode(c.ir).instr)
       case MEMORY => I.Decode(c.ir).Ok? && InMemory(env, s, tx, a, I.Decode(c.ir).instr)
       case WRITEBACK => Quiet(s, tx, a.dev) && I.Decode(c.ir).Ok? && InWriteback(env, s, a, I.Decode(c.ir).instr)
       case _ => false
  }

  /** Halted or faulted, perhaps with HALT's own tick still in flight. */
  ghost predicate AtRest(s: System, tx: seq<Byte>, a: I.Arch) {
    && (s.cpu.state == HALTED || s.cpu.state == FAULT)
    && s.cpu.pc == a.pc && I.RegsOf(s.cpu.regs) == a.regs
    && s.bus.state == IDLE && !s.bus.uart.txValid && DevicesOf(s.bus, s.cpu.retire.valid, tx) == a.dev
  }

  /** Clocks since the instruction in flight was first requested. */
  function Age(s: System): nat {
    match s.cpu.state
    case FETCH => BusAge(s.bus)
    case DECODE => 3
    case EXECUTE => 4
    case MEMORY => 5 + BusAge(s.bus)
    case WRITEBACK => if SignalsOf(s.cpu.ir).memory == MemLoad then 8 else 5
    case _ => 0
  }

  function BusAge(b: Bus): nat {
    match b.state
    case IDLE => 0
    case ACCESS => 1
    case RESPOND => 2
  }

  /** Clocks from request to retirement. */
  function Cost(i: I.Instr): nat {
    match i
    case Branch(_, _, _, _) => 5
    case Jump(_) => 5
    case Jr(_) => 5
    case Sw(_, _, _) => 8
    case Lw(_, _, _) => 9
    case _ => 6
  }

  function CostAt(env: I.Env, a: I.Arch): nat
    requires !I.Step(env, a).Faulted?
  {
    Cost(I.Decode(I.Fetch(env, a.pc).value).instr)
  }

  ghost predicate RetireAgrees(p: RetirePort, r: I.Record) {
    && p.valid && p.pc == r.pc && p.instruction == r.instruction && p.nextPc == r.nextPc
    && p.regWrite == r.regWrite && (r.regWrite ==> p.rd == r.rd && p.value == r.regValue)
    && p.memWrite == r.memWrite && (r.memWrite ==> p.memAddr == r.memAddr && p.memValue == r.memValue)
  }

  /** The fault port, except that a fetch from the reserved window is reported as non-executable. */
  ghost predicate FaultAgrees(p: FaultPort, info: I.FaultInfo) {
    && p.code == (if info.code == I.UnmappedInstructionFetch && InStm32Fetch(info.pc)
                  then I.NonExecutableInstructionFetch else info.code)
    && p.pc == info.pc && p.instruction == info.instruction
    && p.addressValid == info.address.Some?
    && p.address == (if info.address.Some? then info.address.value else 0)
  }

  /** What one clock does to an instruction in flight. */
  ghost predicate ClockOutcome(env: I.Env, s: System, tx: seq<Byte>, a: I.Arch) {
    var s', tx', m := Clock(env, s), tx + Emitted(s.bus), I.Step(env, a);
    if s'.cpu.retire.valid then
      && !m.Faulted? && Age(s) + 1 == CostAt(env, a) && RetireAgrees(s'.cpu.retire, I.RecordFor(env, a))
      && s'.bus.state == IDLE
      && (m.Running? ==> InFlight(env, s', tx', m.arch) && s'.cpu.state == FETCH && Age(s') == 0)
      && (m.Halted? ==> AtRest(s', tx', m.arch) && s'.cpu.state == HALTED)
    else if s'.cpu.state == FAULT then
      m.Faulted? && FaultAgrees(s'.cpu.fault, m.info) && AtRest(s', tx', a) && m.arch == a
    else InFlight(env, s', tx', a) && Age(s') == Age(s) + 1 && s'.cpu.state != HALTED
  }

  lemma FetchClock(env: I.Env, s: System, tx: seq<Byte>, a: I.Arch)
    requires InFlight(env, s, tx, a) && s.cpu.state == FETCH
    ensures ClockOutcome(env, s, tx, a)
  {
    hide I.Fetch, I.Decode, I.Execute, I.RecordFor, Slice, ControlUnit, BusClock, DevicesOf, PendingFault,
      PendingTarget;
    var r := CpuRequest(s.cpu);
    assert tx + [] == tx;
    match s.bus.state
    case IDLE => IdleEdge(env, s.bus, r, s.cpu.retire.valid, tx);
    case ACCESS => FetchEdge(env, s.bus, r, tx);
    case RESPOND =>
      RespondEdge(env, s.bus, r, tx);
      ReservedWindowIsUnmapped(env, a.pc);
  }

  lemma DecodeClock(env: I.Env, s: System, tx: seq<Byte>, a: I.Arch)
    requires InFlight(env, s, tx, a) && s.cpu.state == DECODE
    ensures ClockOutcome(env, s, tx, a)
  {
    hide I.Fetch, I.Decode, I.Execute, I.RecordFor, Slice, ControlUnit, BusClock, DevicesOf, Immediate, Wrap;
    assert tx + [] == tx;
    IdleEdge(env, s.bus, CpuRequest(s.cpu), false, tx);
    DecoderAgrees(s.cpu.ir);
  }

  /** The combinational results of EXECUTE, in the interpreter's terms. */
  lemma ExecuteValues(env: I.Env, s: System, a: I.Arch, i: I.Instr)
    requires InExecute(env, s, a, i) && s.cpu.pc == a.pc && a.regs[0] == 0
    ensures var c, f, k := s.cpu, Slice(s.cpu.ir), SignalsOf(s.cpu.ir);
            && Implements(k, OperandsOf(k, f), i)
            && (i.Branch? || i.Jump? || i.Jr? ==>
                  I.JumpTarget(a, i) ==
                    (if i.Branch? then
                       if BranchTaken(k.branch, c.lhs, c.rhs) then Wrap(c.pc + 4 + BranchDisplacement(f.imm16))
                       else Wrap(c.pc + 4)
                     else if i.Jump? then Wrap(c.pc + 4 + JumpDisplacement(f.imm26)) else c.lhs))
            && (i.Jal? ==> Wrap(c.pc + 4 + JumpDisplacement(f.imm26)) == Wrap(a.pc + 4 + 4 * i.disp))
            && (i.Reg? || i.Imm? || i.Lui? ==> AluResult(k.aluOp, c.lhs, c.rhs) == I.Compute(a, i).value)
            && (i.Lw? || i.Sw? ==> AluResult(k.aluOp, c.lhs, c.rhs) == I.EffectiveAddress(a, i.base, i.offset))
  {
    hide I.Fetch, I.Decode, Slice, ControlUnit, I.Alu, AluResult, Signed, BranchDisplacement, JumpDisplacement,
      Immediate, Wrap;
    var c, k := s.cpu, SignalsOf(s.cpu.ir);
    DecoderAgrees(c.ir);
    AluAgrees(k.aluOp, c.lhs, c.rhs);
    I.AddIsWrappedSum(c.lhs, c.rhs);
    match i
    case Branch(_, _, _, disp) => WrapAdd(c.pc + 4, 4 * disp);
    case Jump(disp) => WrapAdd(c.pc + 4, 4 * disp);
    case Jal(disp) => WrapAdd(c.pc + 4, 4 * disp);
    case Lw(_, base, offset) => WrapAdd(a.regs[base], offset);
    case Sw(_, base, offset) => WrapAdd(a.regs[base], offset);
    case _ =>
  }

  lemma AluAgrees(op: I.AluOp, l: Word, r: Word)
    ensures AluResult(op, l, r) == I.Alu(op, l, r)
  {
    hide And32, Or32, Xor32, Shl32, Shr32, Wrap, Signed;
    I.BitwiseAgrees(l, r);
  }

  lemma ExecuteClockRetires(env: I.Env, s: System, tx: seq<Byte>, a: I.Arch)
    requires InFlight(env, s, tx, a) && s.cpu.state == EXECUTE
    requires SignalsOf(s.cpu.ir).flow != Sequential && !SignalsOf(s.cpu.ir).regWrite
    ensures ClockOutcome(env, s, tx, a)
  {
    hide I.Fetch, I.Decode, I.Load, I.Store, I.Alu, Slice, ControlUnit, BusClock, DevicesOf, AluResult, BranchTaken,
      Wrap, BranchDisplacement, JumpDisplacement, Immediate, I.JumpTarget;
    assert tx + [] == tx;
    IdleEdge(env, s.bus, CpuRequest(s.cpu), false, tx);
    ExecuteValues(env, s, a, I.Decode(s.cpu.ir).instr);
    TickInFlight(BusClock(env, s.bus, CpuRequest(s.cpu), false), tx);
  }

  lemma ExecuteClockContinues(env: I.Env, s: System, tx: seq<Byte>, a: I.Arch)
    requires InFlight(env, s, tx, a) && s.cpu.state == EXECUTE
    requires SignalsOf(s.cpu.ir).flow == Sequential || SignalsOf(s.cpu.ir).regWrite
    ensures ClockOutcome(env, s, tx, a)
  {
    hide I.Fetch, I.Decode, I.Load, I.Store, I.Alu, I.Step, I.RecordFor, Slice, ControlUnit, BusClock, DevicesOf,
      AluResult, BranchTaken, Wrap, BranchDisplacement, JumpDisplacement, Immediate, I.JumpTarget;
    assert tx + [] == tx;
    IdleEdge(env, s.bus, CpuRequest(s.cpu), false, tx);
    ExecuteValues(env, s, a, I.Decode(s.cpu.ir).instr);
  }

  lemma MemoryClockWaits(env: I.Env, s: System, tx: seq<Byte>, a: I.Arch)
    requires InFlight(env, s, tx, a) && s.cpu.state == MEMORY && s.bus.state != RESPOND
    ensures ClockOutcome(env, s, tx, a)
  {
    hide I.Fetch, I.Decode, I.Load, I.Store, I.Step, I.RecordFor, Slice, ControlUnit, BusClock, DevicesOf, PendingFault,
      PendingTarget, Wrap, BranchDisplacement, JumpDisplacement, Immediate;
    var r := CpuRequest(s.cpu);
    assert tx + [] == tx;
    DecoderAgrees(s.cpu.ir);
    if s.bus.state == IDLE {
      IdleEdge(env, s.bus, r, false, tx);
    } else if s.bus.access == BusStore {
      StoreEdge(env, s.bus, r, tx);
    } else {
      LoadEdge(env, s.bus, r, tx);
    }
  }

  lemma MemoryClockAnswered(env: I.Env, s: System, tx: seq<Byte>, a: I.Arch)
    requires InFlight(env, s, tx, a) && s.cpu.state == MEMORY && s.bus.state == RESPOND
    ensures ClockOutcome(env, s, tx, a)
  {
    hide I.Fetch, I.Decode, I.Load, I.Store, Slice, ControlUnit, BusClock, DevicesOf, PendingFault, PendingTarget, Wrap,
      BranchDisplacement, JumpDisplacement, Immediate;
    var r := CpuRequest(s.cpu);
    assert tx + [] == tx;
    DecoderAgrees(s.cpu.ir);
    RespondEdge(env, s.bus, r, tx);
    TickInFlight(BusClock(env, s.bus, r, false), tx + Emitted(s.bus));
  }

  /** WRITEBACK commits the effect it holds, and its retirement port reports the register change. */
  lemma WritebackCommits(c: Cpu, q: Cpu, a: I.Arch, e: I.Effect)
    requires HoldsEffect(c, e) && I.RegsOf(c.regs) == a.regs
    ensures var w, change := CpuWriteback(c, q), I.RegisterChange(a, e);
            && w.pc == e.nextPc && I.RegsOf(w.regs) == I.SetReg(a.regs, e.rd, e.value)
            && w.state == (if SignalsOf(c.ir).halt then HALTED else FETCH)
            && w.retire.valid && w.retire.pc == c.pc && w.retire.instruction == c.ir && w.retire.nextPc == e.nextPc
            && !w.retire.memWrite && w.retire.regWrite == change.Some?
            && (change.Some? ==> w.retire.rd == change.value.0 && w.retire.value == change.value.1)
  {
    hide Slice, ControlUnit;
  }

  lemma WritebackClock(env: I.Env, s: System, tx: seq<Byte>, a: I.Arch)
    requires InFlight(env, s, tx, a) && s.cpu.state == WRITEBACK
    ensures ClockOutcome(env, s, tx, a)
  {
    hide I.Fetch, I.Decode, I.Load, I.Store, I.Alu, Slice, ControlUnit, BusClock, Wrap, BranchDisplacement,
      JumpDisplacement, Immediate, DevicesOf, CpuWriteback, HoldsEffect, I.RegisterChange, I.SetReg, I.Compute;
    assert tx + [] == tx;
    var c, i := s.cpu, I.Decode(s.cpu.ir).instr;
    IdleEdge(env, s.bus, CpuRequest(c), false, tx);
    TickInFlight(BusClock(env, s.bus, CpuRequest(c), false), tx);
    DecoderAgrees(c.ir);
    var e := if i.Lw? then I.Effect(Wrap(a.pc + 4), i.rd,
                                    I.Load(env, a.dev, I.EffectiveAddress(a, i.base, i.offset)).value)
             else I.Compute(a, i);
    WritebackCommits(c, c.(retire := c.retire.(valid := false, regWrite := false, memWrite := false)), a, e);
  }

  /** Every clock of an instruction in flight, whatever its phase. */
  lemma ClockInFlight(env: I.Env, s: System, tx: seq<Byte>, a: I.Arch)
    requires InFlight(env, s, tx, a)
    ensures ClockOutcome(env, s, tx, a)
  {
    match s.cpu.state
    case FETCH => FetchClock(env, s, tx, a);
    case DECODE => DecodeClock(env, s, tx, a);
    case EXECUTE =>
      if SignalsOf(s.cpu.ir).flow == Sequential || SignalsOf(s.cpu.ir).regWrite {
        ExecuteClockContinues(env, s, tx, a);
      } else {
        ExecuteClockRetires(env, s, tx, a);
      }
    case MEMORY =>
      if s.bus.state == RESPOND {
        MemoryClockAnswered(env, s, tx, a);
      } else {
        MemoryClockWaits(env, s, tx, a);
      }
    case WRITEBACK => WritebackClock(env, s, tx, a);
  }

  lemma ClockAtRest(env: I.Env, s: System, tx: seq<Byte>, a: I.Arch)
    requires AtRest(s, tx, a)
    ensures Emitted(s.bus) == []
    ensures AtRest(Clock(env, s), tx, a)
    ensures Clock(env, s).cpu.state == s.cpu.state && Clock(env, s).cpu.fault == s.cpu.fault
    ensures !Clock(env, s).cpu.retire.valid
  {
    hide BusClock, DevicesOf;
    IdleEdge(env, s.bus, CpuRequest(s.cpu), s.cpu.retire.valid, tx);
  }

  lemma ResetInFlight(env: I.Env, s: System)
    requires IsReset(s)
    ensures InFlight(env, s, [], I.ResetArch(s.bus.ram.words))
  {
    assert I.RegsOf(s.cpu.regs) == I.ZeroRegisters();
  }

  /** An instruction that will retire has not used up its clocks; one that will
      fault does so within eight. */
  lemma AgeBound(env: I.Env, s: System, tx: seq<Byte>, a: I.Arch)
    requires InFlight(env, s, tx, a)
    ensures I.Step(env, a).Faulted? ==> Age(s) < 8
    ensures !I.Step(env, a).Faulted? ==> Age(s) < CostAt(env, a)
  {
    hide I.Fetch, I.Decode, I.Load, I.Store, I.Alu, Slice, ControlUnit, DevicesOf, Wrap, BusResponse, Immediate,
      BranchDisplacement, JumpDisplacement;
    DecoderAgrees(s.cpu.ir);
  }

  /** Bytes collected so far are exactly those of retired stores. */
  lemma CollectedBytes(env: I.Env, s: System, tx: seq<Byte>, a: I.Arch)
    requires InFlight(env, s, tx, a) || AtRest(s, tx, a)
    ensures tx == a.dev.tx
  {
    hide I.Fetch, I.Decode, I.Load, I.Store, I.Alu, Slice, ControlUnit, Wrap, BusResponse, Immediate;
    assert tx + [] == tx;
  }

  // ---- Handshake and store accounting ----

  /** The CPU still asserts the request a busy bus holds; a retirement pulse and
      a UART event never meet a device access of another instruction. */
  ghost predicate Handshake(s: System) {
    && (s.bus.state != IDLE ==> CpuRequest(s.cpu) == Request(true, s.bus.access, s.bus.addr, s.bus.wdata))
    && (s.cpu.state == MEMORY ==> SignalsOf(s.cpu.ir).memory != MemNone)
    && (s.cpu.retire.valid ==> s.bus.state == IDLE && (s.cpu.state == FETCH || s.cpu.state == HALTED))
    && (s.bus.uart.txValid ==> s.bus.state == RESPOND && s.cpu.state == MEMORY && s.bus.access == BusStore)
  }

  lemma InFlightHandshake(env: I.Env, s: System, tx: seq<Byte>, a: I.Arch)
    requires InFlight(env, s, tx, a)
    ensures Handshake(s)
  {
    hide I.Fetch, I.Decode, I.Load, I.Store, Slice, ControlUnit, DevicesOf, Wrap, BusResponse, Immediate,
      BranchDisplacement, JumpDisplacement;
    DecoderAgrees(s.cpu.ir);
  }

  /** The bus strobes a device write enable at the coming edge. */
  predicate WriteStrobe(b: Bus) {
    || WriteEnable(b, RamTarget) || WriteEnable(b, UartTarget) || WriteEnable(b, TimerTarget)
    || WriteEnable(b, GpioTarget) || WriteEnable(b, DebugTarget)
  }

  /** The store in flight has performed its write but has not retired yet. */
  predicate WrotePending(s: System) {
    && s.cpu.state == MEMORY && s.bus.state == RESPOND && s.bus.access == BusStore
    && PendingFault(s.bus.access, s.bus.addr).None?
  }

  function Count(b: bool): nat { if b then 1 else 0 }

  /** Each strobe belongs to one store, which then retires: strobes are neither
      lost, duplicated nor raised by an access that faults. */
  lemma StoreAccounting(env: I.Env, s: System)
    requires Handshake(s)
    ensures var s' := Clock(env, s);
            Count(WrotePending(s)) + Count(WriteStrobe(s.bus))
              == Count(s'.cpu.retire.valid && s'.cpu.retire.memWrite) + Count(WrotePending(s'))
  {
    hide Slice, ControlUnit, Immediate, BranchDisplacement, JumpDisplacement, AluResult, Wrap, BranchTaken;
  }
}
