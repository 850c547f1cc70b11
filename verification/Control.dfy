/** The control vocabulary both implementations declare (simulator decoder.hpp and
    rtl mini32_pkg), and what it means for a bundle of signals to implement an
    instruction. */
module Control {
  import opened Words
  import opened Isa

  datatype WritebackSource = FromAlu | FromMemory | FromPcPlus4
  datatype RegisterDestination = DecodedRd | ReturnAddress
  datatype ImmediateKind = ImmNone | Signed16 | ZeroExtended16 | Upper16
  datatype MemoryOperation = MemNone | MemLoad | MemStore
  datatype ControlFlow = Sequential | ConditionalBranch | RelativeJump | RegisterJump
  datatype BranchPredicate = BranchNone | BranchEqual | BranchNotEqual | BranchSignedLess | BranchSignedGreaterEqual

  datatype Signals = Signals(
    regWrite: bool, aluSrcImmediate: bool, aluOp: AluOp, source: WritebackSource,
    destination: RegisterDestination, immediate: ImmediateKind, memory: MemoryOperation,
    flow: ControlFlow, branch: BranchPredicate, halt: bool)

  const DEFAULT := Signals(false, false, Add, FromAlu, DecodedRd, ImmNone, MemNone, Sequential, BranchNone, false)

  /** The operand fields a decoder presents, after immediate extension. */
  datatype Operands = Operands(rd: RegIndex, rs1: RegIndex, rs2: RegIndex,
                               imm: Word, branchDisp: Word, jumpDisp: Word)

  function PredicateFor(c: Cond): BranchPredicate {
    match c
    case Equal => BranchEqual
    case NotEqual => BranchNotEqual
    case LessThan => BranchSignedLess
    case GreaterEqual => BranchSignedGreaterEqual
  }

  /** The signals and the operands the opcode uses implement the instruction.
      Unused operand fields are unconstrained: the two decoders fill them differently. */
  ghost predicate Implements(c: Signals, o: Operands, i: Instr) {
    match i
    case Nop => c == DEFAULT
    case Reg(op, rd, rs1, rs2) =>
      c == DEFAULT.(regWrite := true, aluOp := op) && o.rd == rd && o.rs1 == rs1 && o.rs2 == rs2
    case Imm(op, rd, rs1, imm) =>
      && c.(immediate := ImmNone) == DEFAULT.(regWrite := true, aluSrcImmediate := true, aluOp := op)
      && o.rd == rd && o.rs1 == rs1 && o.imm == Wrap(imm)
    case Lui(rd, imm) =>
      && c == DEFAULT.(regWrite := true, aluSrcImmediate := true, immediate := Upper16)
      && o.rd == rd && o.rs1 == 0 && o.imm == Wrap(imm * 0x1_0000)
    case Lw(rd, base, offset) =>
      && c == DEFAULT.(regWrite := true, aluSrcImmediate := true, source := FromMemory,
                       immediate := Signed16, memory := MemLoad)
      && o.rd == rd && o.rs1 == base && o.imm == Wrap(offset)
    case Sw(src, base, offset) =>
      && c == DEFAULT.(aluSrcImmediate := true, immediate := Signed16, memory := MemStore)
      && o.rs2 == src && o.rs1 == base && o.imm == Wrap(offset)
    case Branch(cond, rs1, rs2, disp) =>
      && c == DEFAULT.(flow := ConditionalBranch, branch := PredicateFor(cond))
      && o.rs1 == rs1 && o.rs2 == rs2 && o.branchDisp == Wrap(4 * disp)
    case Jump(disp) => c == DEFAULT.(flow := RelativeJump) && o.jumpDisp == Wrap(4 * disp)
    case Jal(disp) =>
      && c == DEFAULT.(regWrite := true, source := FromPcPlus4, destination := ReturnAddress, flow := RelativeJump)
      && o.jumpDisp == Wrap(4 * disp)
    case Jr(rs1) => c == DEFAULT.(flow := RegisterJump) && o.rs1 == rs1
    case Halt => c == DEFAULT.(halt := true)
  }
}
