/** What assembled programs mean to the CPU: every statement decodes to the
    operands written, and a label is the address of the statement it precedes. */
module Linking {
  import opened Words
  import opened Text
  import opened Assembler
  import I = Isa
  import S = Simulator
  import SI = SimulatorIsa
  import D = Disassembler

  // ---- Packed fields decode ----

  lemma UnpackHigh(opcode: nat, a: RegIndex, low: nat)
    requires opcode <= 0x17 && low < 0x20_0000
    ensures var w := opcode * 0x400_0000 + a * 0x20_0000 + low;
            && 0 <= w < 0x1_0000_0000 && w / 0x400_0000 == opcode && w / 0x20_0000 % 32 == a
            && w % 0x400_0000 == a * 0x20_0000 + low && w % 0x20_0000 == low
            && w / 0x1_0000 % 32 == low / 0x1_0000 && w % 0x1_0000 == low % 0x1_0000
            && w / 0x800 % 32 == low / 0x800 % 32 && w % 0x800 == low % 0x800
  {
    var w := opcode * 0x400_0000 + a * 0x20_0000 + low;
    assert w == 0x20_0000 * (32 * opcode + a) + low;
    assert w / 0x20_0000 == 32 * opcode + a;
    assert w / 0x1_0000 == 32 * (32 * opcode + a) + low / 0x1_0000;
    assert w / 0x800 == 1024 * (32 * opcode + a) + low / 0x800;
  }

  lemma UnpackLow(b: RegIndex, imm: nat)
    requires imm < 0x1_0000
    ensures var low := b * 0x1_0000 + imm;
            low < 0x20_0000 && low / 0x1_0000 == b && low % 0x1_0000 == imm && low / 0x800 % 32 == imm / 0x800
            && low % 0x800 == imm % 0x800
  {
    var low := b * 0x1_0000 + imm;
    assert low / 0x800 == 32 * b + imm / 0x800;
  }

  lemma UnpackI(opcode: nat, a: RegIndex, b: RegIndex, imm: int)
    requires opcode <= 0x17
    ensures var w := PackI(opcode, a, b, imm);
            && 0 <= w < 0x1_0000_0000
            && I.Decode(w) == I.DecodeFields(opcode, a, b, imm % 0x1_0000 / 0x800, imm % 0x1_0000 % 0x800,
                                             imm % 0x1_0000, a * 0x20_0000 + b * 0x1_0000 + imm % 0x1_0000)
  {
    hide I.DecodeFields;
    UnpackLow(b, imm % 0x1_0000);
    UnpackHigh(opcode, a, b * 0x1_0000 + imm % 0x1_0000);
  }

  lemma UnpackR(opcode: nat, a: RegIndex, b: RegIndex, c: RegIndex)
    requires opcode <= 0x17
    ensures var w := PackR(opcode, a, b, c);
            && 0 <= w < 0x1_0000_0000
            && I.Decode(w) == I.DecodeFields(opcode, a, b, c, 0, c * 0x800, a * 0x20_0000 + b * 0x1_0000 + c * 0x800)
  {
    hide I.DecodeFields;
    assert c * 0x800 % 0x800 == 0 && c * 0x800 / 0x800 == c;
    UnpackLow(b, c * 0x800);
    UnpackHigh(opcode, a, b * 0x1_0000 + c * 0x800);
  }

  lemma UnpackJ(opcode: nat, imm: int)
    requires opcode == 0 || 0x14 <= opcode <= 0x15 || opcode == 0x17
    requires opcode == 0 || opcode == 0x17 ==> imm == 0
    ensures var w := PackJ(opcode, imm);
            && 0 <= w < 0x1_0000_0000
            && I.Decode(w) == I.Ok(if opcode == 0 then I.Nop else if opcode == 0x17 then I.Halt
                                   else if opcode == 0x14 then I.Jump(Sext26(imm % 0x400_0000))
                                   else I.Jal(Sext26(imm % 0x400_0000)))
  {
    var w := PackJ(opcode, imm);
    assert w / 0x400_0000 == opcode && w % 0x400_0000 == imm % 0x400_0000;
  }

  lemma SextOfMod(v: int)
    ensures -32768 <= v <= 32767 ==> Sext16(v % 0x1_0000) == v
    ensures -0x200_0000 <= v < 0x200_0000 ==> Sext26(v % 0x400_0000) == v
    ensures 0 <= v <= 65535 ==> v % 0x1_0000 == v
  {
  }

  // ---- Statements mean what they say ----

  /** The instruction a statement denotes, read off its operand tokens. */
  function Written(opcode: nat, operands: string, address: int, labels: Labels): Result<I.Instr>
    requires opcode <= 0x17
  {
    if opcode == 0x00 || opcode == 0x17 then
      var _ :- SplitOperands(operands, 0);
      Ok(if opcode == 0 then I.Nop else I.Halt)
    else if opcode <= 0x08 then
      var ops :- SplitOperands(operands, 3);
      var rd :- ParseRegister(ops[0]);
      var rs1 :- ParseRegister(ops[1]);
      var rs2 :- ParseRegister(ops[2]);
      Ok(I.Reg(I.RegOp(opcode), rd, rs1, rs2))
    else if opcode == 0x0D then
      var ops :- SplitOperands(operands, 2);
      var v :- ParseNumber(ops[1]);
      var imm :- CheckedRange(v, 0, 65535);
      var rd :- ParseRegister(ops[0]);
      Ok(I.Lui(rd, imm))
    else if opcode <= 0x0C then
      var ops :- SplitOperands(operands, 3);
      var v :- ParseNumber(ops[2]);
      var imm :- if opcode == 0x09 then CheckedRange(v, -32768, 32767) else CheckedRange(v, 0, 65535);
      var rd :- ParseRegister(ops[0]);
      var rs1 :- ParseRegister(ops[1]);
      Ok(I.Imm(if opcode == 0x09 then I.Add else if opcode == 0x0A then I.And
               else if opcode == 0x0B then I.Or else I.Xor,
               rd, rs1, imm))
    else if opcode <= 0x0F then
      var ops :- SplitOperands(operands, 2);
      var mem :- ParseMemoryOperand(ops[1]);
      var r :- ParseRegister(ops[0]);
      Ok(if opcode == 0x0E then I.Lw(r, mem.1, mem.0) else I.Sw(r, mem.1, mem.0))
    else if opcode <= 0x13 then
      var ops :- SplitOperands(operands, 3);
      var disp :- ResolveDisplacement(ops[2], 16, address, labels);
      var rs1 :- ParseRegister(ops[0]);
      var rs2 :- ParseRegister(ops[1]);
      Ok(I.Branch(I.BranchCond(opcode), rs1, rs2, disp))
    else if opcode <= 0x15 then
      var ops :- SplitOperands(operands, 1);
      var disp :- ResolveDisplacement(ops[0], 26, address, labels);
      Ok(if opcode == 0x14 then I.Jump(disp) else I.Jal(disp))
    else
      var ops :- SplitOperands(operands, 1);
      var rs1 :- ParseRegister(ops[0]);
      Ok(I.Jr(rs1))
  }

  /** The encoder accepts exactly the statements that denote an instruction, and
      the word it produces decodes to that instruction. */
  ghost predicate Denotes(r: Result<int>, i: Result<I.Instr>) {
    match (r, i)
    case (Ok(w), Ok(instr)) => 0 <= w < 0x1_0000_0000 && I.Decode(w) == I.Ok(instr)
    case (Err(e), Err(f)) => e == f
    case _ => false
  }

  lemma EncodeRDenotes(opcode: nat, operands: string, address: int, labels: Labels)
    requires 1 <= opcode <= 8
    ensures Denotes(EncodeR(opcode, operands), Written(opcode, operands, address, labels))
  {
    hide SplitOperands, ParseRegister, I.Decode, PackR;
    var r := EncodeR(opcode, operands);
    if r.Ok? {
      var ops := SplitOperands(operands, 3).value;
      UnpackR(opcode, ParseRegister(ops[0]).value, ParseRegister(ops[1]).value, ParseRegister(ops[2]).value);
    }
  }

  lemma EncodeLuiDenotes(operands: string, address: int, labels: Labels)
    ensures Denotes(EncodeLui(0x0D, operands), Written(0x0D, operands, address, labels))
  {
    hide SplitOperands, ParseRegister, ParseInt, I.Decode, PackI;
    if EncodeLui(0x0D, operands).Ok? {
      var ops := SplitOperands(operands, 2).value;
      var v := ParseInt(ops[1]).value;
      SextOfMod(v);
      UnpackI(0x0D, ParseRegister(ops[0]).value, 0, v);
    }
  }

  lemma EncodeImmediateDenotes(opcode: nat, operands: string, address: int, labels: Labels)
    requires 0x09 <= opcode <= 0x0C
    ensures Denotes(EncodeImmediate(opcode, operands), Written(opcode, operands, address, labels))
  {
    hide SplitOperands, ParseRegister, ParseInt, I.Decode, PackI, Sext16;
    if EncodeImmediate(opcode, operands).Ok? {
      var ops := SplitOperands(operands, 3).value;
      var v := ParseInt(ops[2]).value;
      SextOfMod(v);
      UnpackI(opcode, ParseRegister(ops[0]).value, ParseRegister(ops[1]).value, v);
    }
  }

  lemma EncodeMemoryDenotes(opcode: nat, operands: string, address: int, labels: Labels)
    requires 0x0E <= opcode <= 0x0F
    ensures Denotes(EncodeMemory(opcode, operands), Written(opcode, operands, address, labels))
  {
    hide SplitOperands, ParseRegister, ParseMemoryOperand, I.Decode, PackI, Sext16;
    if EncodeMemory(opcode, operands).Ok? {
      var ops := SplitOperands(operands, 2).value;
      var mem := ParseMemoryOperand(ops[1]).value;
      MemoryOffsetRange(ops[1]);
      SextOfMod(mem.0);
      UnpackI(opcode, ParseRegister(ops[0]).value, mem.1, mem.0);
    }
  }

  lemma MemoryOffsetRange(token: string)
    ensures ParseMemoryOperand(token).Ok? ==> -32768 <= ParseMemoryOperand(token).value.0 <= 32767
  {
    hide MatchMemory, ParseInt, ParseRegister;
  }

  lemma EncodeBranchDenotes(opcode: nat, operands: string, address: int, labels: Labels)
    requires 0x10 <= opcode <= 0x13
    ensures Denotes(EncodeBranch(opcode, operands, address, labels), Written(opcode, operands, address, labels))
  {
    hide SplitOperands, ParseRegister, ResolveDisplacement, I.Decode, PackI, Sext16;
    if EncodeBranch(opcode, operands, address, labels).Ok? {
      var ops := SplitOperands(operands, 3).value;
      var disp := ResolveDisplacement(ops[2], 16, address, labels).value;
      LabelDistance(ops[2], 16, address, labels);
      SextOfMod(disp);
      UnpackI(opcode, ParseRegister(ops[0]).value, ParseRegister(ops[1]).value, disp);
    }
  }

  lemma EncodeJumpDenotes(opcode: nat, operands: string, address: int, labels: Labels)
    requires 0x14 <= opcode <= 0x15
    ensures Denotes(EncodeJump(opcode, operands, address, labels), Written(opcode, operands, address, labels))
  {
    hide SplitOperands, ResolveDisplacement, I.Decode, PackJ, Sext26;
    if EncodeJump(opcode, operands, address, labels).Ok? {
      var ops := SplitOperands(operands, 1).value;
      var disp := ResolveDisplacement(ops[0], 26, address, labels).value;
      LabelDistance(ops[0], 26, address, labels);
      SextOfMod(disp);
      UnpackJ(opcode, disp);
    }
  }

  lemma EncodeJrDenotes(operands: string, address: int, labels: Labels)
    ensures Denotes(EncodeJr(0x16, operands), Written(0x16, operands, address, labels))
  {
    hide SplitOperands, ParseRegister, I.Decode, PackR;
    if EncodeJr(0x16, operands).Ok? {
      UnpackR(0x16, ParseRegister(SplitOperands(operands, 1).value[0]).value, 0, 0);
    }
  }

  /** A resolved displacement fits its field, and from a label token it is the
      exact distance from the next instruction to the label. */
  lemma LabelDistance(token: string, bits: nat, address: int, labels: Labels)
    requires ResolveDisplacement(token, bits, address, labels).Ok?
    ensures var d := ResolveDisplacement(token, bits, address, labels).value;
            && (bits == 16 ==> -0x8000 <= d < 0x8000) && -0x200_0000 <= d < 0x200_0000
            && (ParseInt(token).None? ==> token in labels && address + 4 + 4 * d == labels[token])
            && (ParseInt(token).Some? ==> d == ParseInt(token).value)
  {
    hide ParseInt;
  }

  /** Every statement that is not .word decodes to the operands written. */
  lemma StatementDenotes(opcode: nat, operands: string, address: int, labels: Labels)
    requires opcode <= 0x17
    ensures Denotes(EncodeOpcode(opcode, operands, address, labels), Written(opcode, operands, address, labels))
  {
    hide SplitOperands, Written, EncodeR, EncodeLui, EncodeImmediate, EncodeMemory, EncodeBranch, EncodeJump, EncodeJr,
      I.Decode;
    if opcode == 0x00 || opcode == 0x17 {
      BareDenotes(opcode, operands, address, labels);
    } else if opcode <= 0x08 {
      EncodeRDenotes(opcode, operands, address, labels);
    } else if opcode == 0x0D {
      EncodeLuiDenotes(operands, address, labels);
    } else if opcode <= 0x0C {
      EncodeImmediateDenotes(opcode, operands, address, labels);
    } else if opcode <= 0x0F {
      EncodeMemoryDenotes(opcode, operands, address, labels);
    } else if opcode <= 0x13 {
      EncodeBranchDenotes(opcode, operands, address, labels);
    } else if opcode <= 0x15 {
      EncodeJumpDenotes(opcode, operands, address, labels);
    } else {
      EncodeJrDenotes(operands, address, labels);
    }
  }

  lemma BareDenotes(opcode: nat, operands: string, address: int, labels: Labels)
    requires opcode == 0x00 || opcode == 0x17
    ensures Denotes(EncodeOpcode(opcode, operands, address, labels), Written(opcode, operands, address, labels))
  {
    hide SplitOperands, I.Decode;
    UnpackJ(opcode, 0);
  }

  // ---- Where labels point ----

  lemma {:induction false} DefineLabelsAdds(labels: Labels, names: seq<string>, address: int)
    requires DefineLabels(labels, names, address).Ok?
    ensures var m := DefineLabels(labels, names, address).value;
            && (forall x :: x in labels ==> x in m && m[x] == labels[x])
            && (forall x :: x in m ==> x in labels || (x in names && m[x] == address))
    decreases |names|
  {
    if names != [] {
      DefineLabelsAdds(labels[names[0] := address], names[1..], address);
    }
  }

  /** Line L, counting from zero, carries the label. */
  predicate DefinedOn(lines: seq<string>, line: nat, name: string) {
    line < |lines| && name in LeadingLabels(LineBody(lines[line])).0
  }

  /** Statements come in line order at consecutive word addresses; parsing a
      longer prefix only appends statements of the later lines. */
  lemma {:induction false} StatementsInOrder(lines: seq<string>, l: nat, n: nat)
    requires l <= n <= |lines| && ParseLines(lines, n).Ok?
    ensures ParseLines(lines, l).Ok?
    ensures var p, q := ParseLines(lines, l).value.statements, ParseLines(lines, n).value.statements;
            && p <= q
            && (forall k :: 0 <= k < |p| ==> p[k].line <= l)
            && (forall k :: |p| <= k < |q| ==> q[k].line > l)
            && (forall k :: 0 <= k < |q| ==> q[k].address == 4 * k && q[k].line <= n)
  {
    hide LeadingLabels, DefineLabels, LineBody;
    if n > 0 {
      if l == n {
        StatementsInOrder(lines, n - 1, n - 1);
      } else {
        StatementsInOrder(lines, l, n - 1);
      }
    }
  }

  /** A label's address is that of the first statement at or after the line that defines it. */
  lemma {:induction false} LabelPlacement(lines: seq<string>, n: nat, name: string) returns (line: nat)
    requires n <= |lines| && ParseLines(lines, n).Ok? && name in ParseLines(lines, n).value.labels
    ensures line < n && DefinedOn(lines, line, name) && ParseLines(lines, line).Ok?
    ensures var p := ParseLines(lines, n).value;
            var at := |ParseLines(lines, line).value.statements|;
            && p.labels[name] == 4 * at && at <= |p.statements|
            && (forall k :: 0 <= k < at ==> p.statements[k].line <= line)
            && (forall k :: at <= k < |p.statements| ==> p.statements[k].line > line)
  {
    hide LeadingLabels, DefineLabels, LineBody;
    var p := ParseLines(lines, n - 1).value;
    var names := LeadingLabels(LineBody(lines[n - 1])).0;
    DefineLabelsAdds(p.labels, names, 4 * |p.statements|);
    if name in p.labels {
      line := LabelPlacement(lines, n - 1, name);
    } else {
      line := n - 1;
    }
    StatementsInOrder(lines, line, n);
  }

  // ---- Taken branches and jumps reach their label ----

  /** The label token of a branch or jump statement, when its target is not a number. */
  function TargetLabel(st: Statement): Option<string> {
    var (name, operands) := SplitMnemonic(st.text);
    match FindOpcode(Upper(name), 0)
    case None => None
    case Some(opcode) =>
      if 0x10 <= opcode <= 0x13 && SplitOperands(operands, 3).Ok? then LabelOnly(SplitOperands(operands, 3).value[2])
      else if 0x14 <= opcode <= 0x15 && SplitOperands(operands, 1).Ok?
      then LabelOnly(SplitOperands(operands, 1).value[0])
      else None
  }

  function LabelOnly(token: string): Option<string> {
    if ParseInt(token).Some? then None else Some(token)
  }

  lemma {:induction false} FoundIsNamed(name: string, from: nat)
    ensures FindOpcode(name, from).Some? ==>
            FindOpcode(name, from).value <= 0x17 && name == Mnemonic(FindOpcode(name, from).value)
    decreases 0x18 - from
  {
    if from <= 0x17 {
      FoundIsNamed(name, from + 1);
    }
  }

  /** An encoded branch or jump to a label denotes control flow to exactly that address. */
  lemma TargetDenotes(st: Statement, labels: Labels)
    requires EncodeStatement(st, labels).Ok? && TargetLabel(st).Some?
    ensures var w, token := EncodeStatement(st, labels).value, TargetLabel(st).value;
            && 0 <= w < 0x1_0000_0000 && I.Decode(w).Ok? && token in labels
            && var i := I.Decode(w).instr;
            && (i.Branch? || i.Jump? || i.Jal?)
            && st.address + 4 + 4 * i.disp == labels[token]
  {
    hide SplitMnemonic, Upper, SplitOperands, ParseRegister, ParseInt, EncodeOpcode, FindOpcode, ResolveDisplacement,
      I.Decode, Mnemonic;
    var (name, operands) := SplitMnemonic(st.text);
    var opcode := FindOpcode(Upper(name), 0).value;
    FoundIsNamed(Upper(name), 0);
    NotDirectives(opcode);
    StatementDenotes(opcode, operands, st.address, labels);
    if opcode <= 0x13 {
      LabelDistance(SplitOperands(operands, 3).value[2], 16, st.address, labels);
    } else {
      LabelDistance(SplitOperands(operands, 1).value[0], 26, st.address, labels);
    }
  }

  lemma NotDirectives(opcode: nat)
    requires 0x10 <= opcode <= 0x15
    ensures Mnemonic(opcode) != ".WORD" && Mnemonic(opcode) != "RET"
  {
    assert Mnemonic(opcode)[0] != '.' && Mnemonic(opcode)[0] != 'R';
    assert ".WORD"[0] == '.' && "RET"[0] == 'R';
  }

  predicate IsTaken(i: I.Instr, a: I.Arch) {
    i.Jump? || i.Jal? || (i.Branch? && I.Taken(i.cond, a.regs[i.rs1], a.regs[i.rs2]))
  }

  lemma TakenStep(env: I.Env, a: I.Arch, w: Word, i: I.Instr, target: Word)
    requires I.Fetch(env, a.pc) == I.Data(w) && I.Decode(w) == I.Ok(i) && IsTaken(i, a)
    requires a.pc + 4 + 4 * i.disp == target
    ensures I.Step(env, a).Running? && I.Step(env, a).arch.pc == target
  {
    hide I.Fetch, I.Decode, I.Load, I.Store, I.Alu, I.Taken;
  }

  /** The ROM holds the assembled program from address zero. */
  ghost predicate Loaded(env: I.Env, words: seq<int>) {
    |words| <= 16384 && forall i :: 0 <= i < |words| ==> env.rom[i] == words[i]
  }

  /** The source assembles: both passes accept it, with these results. */
  ghost predicate Assembles(source: string, p: Parsed, words: seq<int>) {
    && ParseLines(SplitLines(source), |SplitLines(source)|) == Ok(p)
    && EncodeAll(p.statements, p.labels) == Ok(words)
  }

  lemma AssemblesIff(source: string, words: seq<int>)
    ensures AssembleWords(source) == Ok(words) <==> exists p :: Assembles(source, p, words)
  {
    hide SplitLines, ParseLines, EncodeAll;
    var lines := SplitLines(source);
    if AssembleWords(source) == Ok(words) {
      assert Assembles(source, ParseLines(lines, |lines|).value, words);
    }
  }

  /** The address of the label is that of the first statement after `line`, the line that defines it. */
  ghost predicate PointsPast(source: string, p: Parsed, name: string, address: int, line: nat) {
    && DefinedOn(SplitLines(source), line, name)
    && forall j :: 0 <= j < |p.statements| ==>
         (p.statements[j].address >= address <==> p.statements[j].line > line)
  }

  lemma LabelPointsPast(source: string, p: Parsed, words: seq<int>, name: string) returns (line: nat)
    requires Assembles(source, p, words) && name in p.labels
    ensures PointsPast(source, p, name, p.labels[name], line)
    ensures 0 <= p.labels[name] <= 4 * |p.statements|
  {
    hide SplitLines, ParseLines, EncodeAll, DefinedOn;
    var lines := SplitLines(source);
    StatementsInOrder(lines, |lines|, |lines|);
    line := LabelPlacement(lines, |lines|, name);
  }

  /** Label meaning: in any accepted program that fits the ROM, a taken branch or
      jump written with a label, forward or backward, takes the simulator's PC to
      the address of the first statement at or after the line defining the label. */
  lemma LabelMeaning(source: string, p: Parsed, words: seq<int>, env: I.Env, s: S.Sim, a: I.Arch, k: nat, name: string)
      returns (line: nat)
    requires Assembles(source, p, words) && Loaded(env, words)
    requires SI.Denotes(s, env, I.Running(a)) && k < |p.statements| && a.pc == 4 * k
    requires TargetLabel(p.statements[k]) == Some(name)
    requires k < 16384 && I.Decode(env.rom[k]).Ok? && IsTaken(I.Decode(env.rom[k]).instr, a)
    ensures SI.Step(s).core.micro == S.Fetch
    ensures PointsPast(source, p, name, SI.Step(s).core.pc, line)
    ensures name in p.labels && SI.Step(s).core.pc == p.labels[name]
  {
    hide SplitLines, ParseLines, EncodeStatement, TargetLabel, I.Decode, I.Step, SI.Step, SI.EnvOf, SI.DevicesOf,
      I.Taken, PointsPast;
    var lines := SplitLines(source);
    StatementsInOrder(lines, |lines|, |lines|);
    var st := p.statements[k];
    EncodedAt(p.statements, p.labels, k);
    TargetDenotes(st, p.labels);
    line := LabelPointsPast(source, p, words, name);
    RomFetch(env, k);
    TakenStep(env, a, env.rom[k], I.Decode(env.rom[k]).instr, p.labels[name]);
    SI.StepDenotes(s, env, I.Running(a));
  }

  /** RET is JR r31. */
  lemma ReturnDenotes(address: int, labels: Labels)
    ensures Denotes(EncodeNamed("JR", "r31", address, labels), Ok(I.Jr(31)))
  {
    hide FindOpcode, ParseRegister, SplitOperands, Mnemonic, PackR, I.Decode;
    D.MnemonicFound(0x16);
    assert Mnemonic(0x16) == "JR" by { JrName(); }
    assert D.Register(31) == "r31" by { assert Decimal(31) == Decimal(3) + ['1']; }
    D.LowerRegister(31);
    D.RegisterRoundTrip(31);
    D.OperandsRoundTrip([D.Register(31)]);
    UnpackR(0x16, 31, 0, 0);
    assert ".WORD"[0] != "JR"[0];
  }

  lemma JrName()
    ensures Mnemonic(0x16) == "JR"
  {
  }

  /** Every statement of an accepted program other than .word decodes to the operands written. */
  lemma ProgramDecodes(source: string, p: Parsed, words: seq<int>, k: nat)
    requires Assembles(source, p, words) && k < |p.statements|
    ensures var (name, operands) := SplitMnemonic(p.statements[k].text);
            var opcode := FindOpcode(Upper(name), 0);
            && (Upper(name) != ".WORD" && Upper(name) != "RET" ==>
                  && opcode.Some? && opcode.value <= 0x17
                  && Denotes(Ok(words[k]), Written(opcode.value, operands, p.statements[k].address, p.labels)))
            && (Upper(name) == "RET" ==> Denotes(Ok(words[k]), Ok(I.Jr(31))))
  {
    hide SplitMnemonic, Upper, FindOpcode, EncodeOpcode, Written, I.Decode, SplitLines, ParseLines;
    var (name, operands) := SplitMnemonic(p.statements[k].text);
    EncodedAt(p.statements, p.labels, k);
    FoundIsNamed(Upper(name), 0);
    var opcode := FindOpcode(Upper(name), 0);
    if Upper(name) == "RET" {
      ReturnDenotes(p.statements[k].address, p.labels);
    } else if opcode.Some? {
      StatementDenotes(opcode.value, operands, p.statements[k].address, p.labels);
    }
  }

  lemma RomFetch(env: I.Env, k: nat)
    requires k < 16384
    ensures I.Fetch(env, 4 * k) == I.Data(env.rom[k])
  {
  }

  lemma {:induction false} EncodedAt(statements: seq<Statement>, labels: Labels, k: nat)
    requires EncodeAll(statements, labels).Ok? && k < |statements|
    ensures EncodeStatement(statements[k], labels) == Ok(EncodeAll(statements, labels).value[k])
  {
    hide EncodeStatement;
    var n := |statements| - 1;
    if k < n {
      EncodedAt(statements[..n], labels, k);
    }
  }
}
