/** The two-pass assembler, from source text to words. */
module Assembler {
  import opened Words
  import opened Text

  datatype AsmError =
    | InvalidRegister | RegisterOutOfRange | InvalidNumber | ValueOutOfRange | OperandCount
    | DuplicateLabel | InvalidLabelSyntax | UndefinedLabel | MisalignedLabel | InvalidMemoryOperand
    | UnknownMnemonic

  datatype Result<+T> = Ok(value: T) | Err(error: AsmError)
  {
    predicate IsFailure() { Err? }
    function PropagateFailure<U>(): Result<U>
      requires Err?
    {
      Err(error)
    }
    function Extract(): T
      requires Ok?
    {
      value
    }
  }

  type Labels = map<string, int>

  datatype Statement = Statement(line: nat, text: string, address: int)

  // ---- mini32_isa.py ----

  function Mnemonic(opcode: int): string {
    match opcode
    case 0x00 => "NOP" case 0x01 => "ADD" case 0x02 => "SUB" case 0x03 => "AND" case 0x04 => "OR"
    case 0x05 => "XOR" case 0x06 => "SLT" case 0x07 => "SHL" case 0x08 => "SHR" case 0x09 => "ADDI"
    case 0x0A => "ANDI" case 0x0B => "ORI" case 0x0C => "XORI" case 0x0D => "LUI" case 0x0E => "LW"
    case 0x0F => "SW" case 0x10 => "BEQ" case 0x11 => "BNE" case 0x12 => "BLT" case 0x13 => "BGE"
    case 0x14 => "J" case 0x15 => "JAL" case 0x16 => "JR" case 0x17 => "HALT" case _ => "?"
  }

  /** The opcode with this name, scanning the enumeration from `from`. */
  function FindOpcode(name: string, from: nat): Option<nat>
    decreases 0x18 - from
  {
    if from > 0x17 then None else if name == Mnemonic(from) then Some(from) else FindOpcode(name, from + 1)
  }

  // ---- Operand parsers ----

  function ParseRegister(token: string): Result<RegIndex> {
    var lowered := Lower(Strip(token));
    if lowered == "zero" then Ok(0)
    else if lowered == "sp" then Ok(30)
    else if lowered == "ra" then Ok(31)
    else if |lowered| < 2 || lowered[0] != 'r' || DigitsValue(lowered[1..], 10) == None then Err(InvalidRegister)
    else
      var v := DigitsValue(lowered[1..], 10).value;
      if v <= 31 then Ok(v) else Err(RegisterOutOfRange)
  }

  function ParseNumber(token: string): Result<int> {
    match ParseInt(token)
    case Some(v) => Ok(v)
    case None => Err(InvalidNumber)
  }

  function CheckedRange(v: int, minimum: int, maximum: int): Result<int> {
    if minimum <= v <= maximum then Ok(v) else Err(ValueOutOfRange)
  }

  function StripAll(parts: seq<string>): seq<string> {
    if parts == [] then [] else [Strip(parts[0])] + StripAll(parts[1..])
  }

  function SplitOperands(text: string, count: nat): (r: Result<seq<string>>)
    ensures r.Ok? ==> |r.value| == count
  {
    var ops := if Strip(text) == "" then [] else StripAll(SplitOn(text, ','));
    if |ops| != count || "" in ops then Err(OperandCount) else Ok(ops)
  }

  /** A literal displacement in words, or a label relative to the next instruction. */
  function ResolveDisplacement(token: string, bits: nat, address: int, labels: Labels): Result<int> {
    var v :- match ParseInt(token)
             case Some(v) => Ok(v)
             case None =>
               if token !in labels then Err(UndefinedLabel)
               else
                 var delta := labels[token] - (address + 4);
                 if delta % 4 != 0 then Err(MisalignedLabel) else Ok(delta / 4);
    var half := if bits == 16 then 0x8000 else 0x200_0000;
    CheckedRange(v, -half, half - 1)
  }

  /** Length of the leading run of characters outside parentheses and whitespace. */
  function FieldLength(s: string): (k: nat)
    ensures k <= |s|
  {
    if s == "" || IsSpace(s[0]) || s[0] == '(' || s[0] == ')' then 0 else 1 + FieldLength(s[1..])
  }

  /** offset(base): the two fields of the memory-operand pattern. */
  function MatchMemory(token: string): Option<(string, string)> {
    var s := StripLeft(token);
    var k := FieldLength(s);
    var t := StripLeft(s[k..]);
    if k == 0 || t == "" || t[0] != '(' then None else
      var u := StripLeft(t[1..]);
      var j := FieldLength(u);
      var v := StripLeft(u[j..]);
      if j == 0 || v == "" || v[0] != ')' || StripLeft(v[1..]) != "" then None else Some((s[..k], u[..j]))
  }

  function ParseMemoryOperand(token: string): Result<(int, RegIndex)> {
    match MatchMemory(token)
    case None => Err(InvalidMemoryOperand)
    case Some(fields) =>
      var v :- ParseNumber(fields.0);
      var offset :- CheckedRange(v, -32768, 32767);
      var base :- ParseRegister(fields.1);
      Ok((offset, base))
  }

  // ---- Encoding ----

  function PackR(opcode: int, f25: int, f20: int, f15: int): int {
    opcode * 0x400_0000 + f25 * 0x20_0000 + f20 * 0x1_0000 + f15 * 0x800
  }

  function PackI(opcode: int, f25: int, f20: int, imm: int): int {
    opcode * 0x400_0000 + f25 * 0x20_0000 + f20 * 0x1_0000 + imm % 0x1_0000
  }

  function PackJ(opcode: int, imm: int): int { opcode * 0x400_0000 + imm % 0x400_0000 }

  function EncodeR(opcode: int, operands: string): Result<int> {
    var ops :- SplitOperands(operands, 3);
    var rd :- ParseRegister(ops[0]);
    var rs1 :- ParseRegister(ops[1]);
    var rs2 :- ParseRegister(ops[2]);
    Ok(PackR(opcode, rd, rs1, rs2))
  }

  function EncodeLui(opcode: int, operands: string): Result<int> {
    var ops :- SplitOperands(operands, 2);
    var v :- ParseNumber(ops[1]);
    var imm :- CheckedRange(v, 0, 65535);
    var rd :- ParseRegister(ops[0]);
    Ok(PackI(opcode, rd, 0, imm))
  }

  function EncodeImmediate(opcode: int, operands: string): Result<int> {
    var ops :- SplitOperands(operands, 3);
    var v :- ParseNumber(ops[2]);
    var imm :- if opcode == 0x09 then CheckedRange(v, -32768, 32767) else CheckedRange(v, 0, 65535);
    var rd :- ParseRegister(ops[0]);
    var rs1 :- ParseRegister(ops[1]);
    Ok(PackI(opcode, rd, rs1, imm))
  }

  function EncodeMemory(opcode: int, operands: string): Result<int> {
    var ops :- SplitOperands(operands, 2);
    var mem :- ParseMemoryOperand(ops[1]);
    var r :- ParseRegister(ops[0]);
    Ok(PackI(opcode, r, mem.1, mem.0))
  }

  function EncodeBranch(opcode: int, operands: string, address: int, labels: Labels): Result<int> {
    var ops :- SplitOperands(operands, 3);
    var disp :- ResolveDisplacement(ops[2], 16, address, labels);
    var rs1 :- ParseRegister(ops[0]);
    var rs2 :- ParseRegister(ops[1]);
    Ok(PackI(opcode, rs1, rs2, disp))
  }

  function EncodeJump(opcode: int, operands: string, address: int, labels: Labels): Result<int> {
    var ops :- SplitOperands(operands, 1);
    var disp :- ResolveDisplacement(ops[0], 26, address, labels);
    Ok(PackJ(opcode, disp))
  }

  function EncodeJr(opcode: int, operands: string): Result<int> {
    var ops :- SplitOperands(operands, 1);
    var rs1 :- ParseRegister(ops[0]);
    Ok(PackR(opcode, rs1, 0, 0))
  }

  function EncodeOpcode(opcode: nat, operands: string, address: int, labels: Labels): Result<int> {
    if opcode == 0x00 || opcode == 0x17 then
      var _ :- SplitOperands(operands, 0);
      Ok(PackJ(opcode, 0))
    else if opcode <= 0x08 then EncodeR(opcode, operands)
    else if opcode == 0x0D then EncodeLui(opcode, operands)
    else if opcode <= 0x0C then EncodeImmediate(opcode, operands)
    else if opcode <= 0x0F then EncodeMemory(opcode, operands)
    else if opcode <= 0x13 then EncodeBranch(opcode, operands, address, labels)
    else if opcode <= 0x15 then EncodeJump(opcode, operands, address, labels)
    else EncodeJr(opcode, operands)
  }

  function WordLength(s: string): (k: nat)
    ensures k <= |s|
  {
    if s == "" || IsSpace(s[0]) then 0 else 1 + WordLength(s[1..])
  }

  /** text.split(None, 1), the missing second piece read as empty. */
  function SplitMnemonic(text: string): (string, string) {
    var s := StripLeft(text);
    (s[..WordLength(s)], StripLeft(s[WordLength(s)..]))
  }

  function EncodeNamed(name: string, operands: string, address: int, labels: Labels): Result<int> {
    if name == ".WORD" then
      var v :- ParseNumber(Strip(operands));
      CheckedRange(v, 0, 0xFFFF_FFFF)
    else
      match FindOpcode(name, 0)
      case None => Err(UnknownMnemonic)
      case Some(opcode) => EncodeOpcode(opcode, operands, address, labels)
  }

  function EncodeStatement(st: Statement, labels: Labels): Result<int> {
    var (name, operands) := SplitMnemonic(st.text);
    if Upper(name) == "RET" then EncodeNamed("JR", "r31", st.address, labels)
    else EncodeNamed(Upper(name), operands, st.address, labels)
  }

  // ---- First pass ----

  function IdentLength(s: string): (k: nat)
    ensures k <= |s|
  {
    if s == "" || !(IsLower(s[0]) || IsUpper(s[0]) || IsDigit(s[0]) || s[0] == '_') then 0 else 1 + IdentLength(s[1..])
  }

  /** A leading `label :` and what follows the colon. */
  function MatchLabel(s: string): (r: Option<(string, string)>)
    ensures r.Some? ==> |r.value.1| < |s|
  {
    var k := IdentLength(s);
    var t := StripLeft(s[k..]);
    StripLeftShorter(s[k..]);
    if k == 0 || IsDigit(s[0]) || t == "" || t[0] != ':' then None else Some((s[..k], t[1..]))
  }

  lemma StripLeftShorter(s: string)
    ensures |StripLeft(s)| <= |s|
  {
  }

  lemma StripShorter(s: string)
    ensures |Strip(s)| <= |s|
  {
    StripLeftShorter(s);
    StripRightShorter(StripLeft(s));
  }

  lemma StripRightShorter(s: string)
    ensures |StripRight(s)| <= |s|
  {
  }

  /** The labels at the front of a stripped line, and the rest of it. */
  function LeadingLabels(s: string): (seq<string>, string)
    decreases |s|
  {
    match MatchLabel(s)
    case None => ([], s)
    case Some(m) =>
      StripShorter(m.1);
      var (more, rest) := LeadingLabels(Strip(m.1));
      ([m.0] + more, rest)
  }

  function LineBody(raw: string): string { Strip(SplitOn(raw, '#')[0]) }

  datatype Parsed = Parsed(labels: Labels, statements: seq<Statement>)

  function DefineLabels(labels: Labels, names: seq<string>, address: int): Result<Labels>
    decreases |names|
  {
    if names == [] then Ok(labels)
    else if names[0] in labels then Err(DuplicateLabel)
    else DefineLabels(labels[names[0] := address], names[1..], address)
  }

  /** One source line; `line` is its number. */
  function ParseLine(raw: string, line: nat, p: Parsed): Result<Parsed> {
    var (names, rest) := LeadingLabels(LineBody(raw));
    var address := 4 * |p.statements|;
    var labels :- DefineLabels(p.labels, names, address);
    if rest == "" then Ok(Parsed(labels, p.statements))
    else if ':' in rest then Err(InvalidLabelSyntax)
    else Ok(Parsed(labels, p.statements + [Statement(line, rest, address)]))
  }

  /** The first n lines. */
  function ParseLines(lines: seq<string>, n: nat): Result<Parsed>
    requires n <= |lines|
  {
    if n == 0 then Ok(Parsed(map[], []))
    else
      var p :- ParseLines(lines, n - 1);
      ParseLine(lines[n - 1], n, p)
  }

  function EncodeAll(statements: seq<Statement>, labels: Labels): (r: Result<seq<int>>)
    ensures r.Ok? ==> |r.value| == |statements|
  {
    if statements == [] then Ok([])
    else
      var n := |statements| - 1;
      var words :- EncodeAll(statements[..n], labels);
      var w :- EncodeStatement(statements[n], labels);
      Ok(words + [w])
  }

  function AssembleWords(source: string): Result<seq<int>> {
    var lines := SplitLines(source);
    var p :- ParseLines(lines, |lines|);
    EncodeAll(p.statements, p.labels)
  }

  // ---- The loops as written ----

  /** The inner loop of parse_source: labels peeled off one at a time. */
  method PeelLabels(body: string, defined: Labels, address: int) returns (labels: Result<Labels>, rest: string)
    ensures labels == DefineLabels(defined, LeadingLabels(body).0, address)
    ensures labels.Ok? ==> rest == LeadingLabels(body).1
  {
    rest := body;
    var known := defined;
    while MatchLabel(rest).Some?
      invariant LeadingLabels(rest).1 == LeadingLabels(body).1
      invariant DefineLabels(known, LeadingLabels(rest).0, address) ==
                DefineLabels(defined, LeadingLabels(body).0, address)
      decreases |rest|
    {
      var m := MatchLabel(rest).value;
      StripShorter(m.1);
      assert LeadingLabels(rest).0[0] == m.0 && LeadingLabels(rest).0[1..] == LeadingLabels(Strip(m.1)).0;
      if m.0 in known {
        return Err(DuplicateLabel), rest;
      }
      known := known[m.0 := address];
      rest := Strip(m.1);
    }
    labels := Ok(known);
  }

  /** parse_source: lines in order, one running address. */
  method ParseSource(source: string) returns (r: Result<Parsed>)
    ensures r == ParseLines(SplitLines(source), |SplitLines(source)|)
  {
    hide SplitLines, LeadingLabels, DefineLabels, LineBody;
    var lines := SplitLines(source);
    var labels: Labels := map[];
    var statements: seq<Statement> := [];
    var address := 0;
    for n := 0 to |lines|
      invariant ParseLines(lines, n) == Ok(Parsed(labels, statements)) && address == 4 * |statements|
    {
      var peeled, remaining := PeelLabels(LineBody(lines[n]), labels, address);
      assert ParseLines(lines, n + 1) == ParseLine(lines[n], n + 1, Parsed(labels, statements));
      if peeled.Err? {
        ErrorStops(lines, n + 1);
        return Err(peeled.error);
      }
      labels := peeled.value;
      if remaining != "" {
        if ':' in remaining {
          ErrorStops(lines, n + 1);
          return Err(InvalidLabelSyntax);
        }
        statements := statements + [Statement(n + 1, remaining, address)];
        address := address + 4;
      }
    }
    r := Ok(Parsed(labels, statements));
  }

  lemma {:induction false} ErrorStops(lines: seq<string>, n: nat)
    requires n <= |lines| && ParseLines(lines, n).Err?
    ensures ParseLines(lines, |lines|) == ParseLines(lines, n)
    decreases |lines| - n
  {
    hide ParseLine;
    if n < |lines| {
      assert ParseLines(lines, n + 1) == ParseLines(lines, n);
      ErrorStops(lines, n + 1);
    }
  }
}
