/** The disassembler, and the text round trip through the assembler. */
module Disassembler {
  import opened Words
  import opened Text
  import opened Assembler
  import I = Isa
  import S = Simulator

  function Register(r: RegIndex): string { "r" + Decimal(r) }

  function DotWord(w: Word): string { ".word 0x" + Hex(w, 8) }

  /** Operands separated by a comma and a space. */
  function Join(ops: seq<string>): string {
    if ops == [] then "" else if |ops| == 1 then ops[0] else ops[0] + ", " + Join(ops[1..])
  }

  function Line(opcode: int, ops: seq<string>): string { Mnemonic(opcode) + " " + Join(ops) }

  function MemoryOperand(offset: int, base: RegIndex): string { SignedDecimal(offset) + "(" + Register(base) + ")" }

  function DisassembleWord(w: Word): string {
    DisassembleFields(w, w / 0x400_0000, w / 0x20_0000 % 32, w / 0x1_0000 % 32, w / 0x800 % 32,
                      w % 0x800, w % 0x1_0000, w % 0x20_0000, w % 0x400_0000)
  }

  function DisassembleFields(w: Word, opcode: int, rd: RegIndex, rs1: RegIndex, rs2: RegIndex,
                             low11: int, imm16: int, low21: int, imm26: int): string
    requires 0 <= imm16 && 0 <= opcode
  {
    if opcode > 0x17 then DotWord(w)
    else if opcode == 0x00 then (if w == 0 then "NOP" else DotWord(w))
    else if opcode == 0x17 then (if w == 0x17 * 0x400_0000 then "HALT" else DotWord(w))
    else if opcode <= 0x08 then
      (if low11 != 0 then DotWord(w) else Line(opcode, [Register(rd), Register(rs1), Register(rs2)]))
    else if opcode == 0x16 then (if low21 != 0 then DotWord(w) else Line(opcode, [Register(rd)]))
    else if opcode == 0x0D then (if rs1 != 0 then DotWord(w) else Line(opcode, [Register(rd), "0x" + Hex(imm16, 4)]))
    else if opcode == 0x09 then Line(opcode, [Register(rd), Register(rs1), SignedDecimal(Sext16(imm16))])
    else if opcode == 0x0E || opcode == 0x0F then Line(opcode, [Register(rd), MemoryOperand(Sext16(imm16), rs1)])
    else if opcode <= 0x0C then Line(opcode, [Register(rd), Register(rs1), "0x" + Hex(imm16, 4)])
    else if opcode <= 0x13 then Line(opcode, [Register(rd), Register(rs1), SignedDecimal(Sext16(imm16))])
    else Line(opcode, [SignedDecimal(Sext26(imm26))])
  }

  // ---- Printed tokens parse back ----

  lemma LowerRegister(r: RegIndex)
    ensures IsClean(Register(r)) && Strip(Register(r)) == Register(r) && Lower(Register(r)) == Register(r)
    ensures forall c :: c in Register(r) ==> c == 'r' || IsDigit(c)
  {
    hide Decimal;
    DecimalRoundTrip(r);
    RegisterShape(Decimal(r));
  }

  lemma RegisterShape(digits: string)
    requires digits != "" && forall c :: c in digits ==> IsDigit(c)
    ensures var s := "r" + digits;
            && IsClean(s) && Strip(s) == s && Lower(s) == s && forall c :: c in s ==> c == 'r' || IsDigit(c)
  {
    hide Strip;
    var s := "r" + digits;
    forall i | 0 <= i < |s|
      ensures s[i] == 'r' || IsDigit(s[i])
    {
      assert i > 0 ==> s[i] == digits[i - 1] && digits[i - 1] in digits;
    }
    StripKeeps(s);
    assert Lower(s) == s;
  }

  lemma RegisterRoundTrip(r: RegIndex)
    ensures ParseRegister(Register(r)) == Ok(r)
  {
    hide Strip, Lower, Decimal, DigitsValue;
    LowerRegister(r);
    DecimalRoundTrip(r);
    var s := Register(r);
    assert s[1..] == Decimal(r);
    assert IsDigit(s[1]);
    assert "zero"[0] != s[0] && "sp"[0] != s[0] && "ra"[1] != s[1];
  }

  predicate IsField(s: string) { |s| > 0 && forall c :: c in s ==> !IsSpace(c) && c != '(' && c != ')' }

  lemma {:induction false} FieldEnds(s: string, rest: string)
    requires forall c :: c in s ==> !IsSpace(c) && c != '(' && c != ')'
    requires rest != "" && (rest[0] == '(' || rest[0] == ')')
    ensures FieldLength(s + rest) == |s|
  {
    if s == "" {
      assert s + rest == rest;
    } else {
      assert forall c :: c in s[1..] ==> c in s;
      FieldEnds(s[1..], rest);
      assert s[0] in s && (s + rest)[0] == s[0];
      assert (s + rest)[1..] == s[1..] + rest;
    }
  }

  lemma MemoryMatches(offset: string, base: string)
    requires IsField(offset) && IsField(base)
    ensures MatchMemory(offset + "(" + base + ")") == Some((offset, base))
  {
    var token := offset + "(" + base + ")";
    assert token == offset + ("(" + base + ")");
    assert token[0] == offset[0] && offset[0] in offset;
    FieldEnds(offset, "(" + base + ")");
    var t := "(" + base + ")";
    assert token[|offset|..] == t && t[1..] == base + ")" && token[..|offset|] == offset;
    assert (base + ")")[0] == base[0] && base[0] in base;
    FieldEnds(base, ")");
    assert (base + ")")[|base|..] == ")" && (base + ")")[..|base|] == base;
    assert ")"[1..] == "";
  }

  lemma MemoryOperandRoundTrip(offset: int, base: RegIndex)
    requires -32768 <= offset <= 32767
    ensures ParseMemoryOperand(MemoryOperand(offset, base)) == Ok((offset, base))
    ensures IsClean(MemoryOperand(offset, base))
  {
    hide SignedDecimal, Register, ParseRegister, ParseInt, MatchMemory;
    SignedDecimalRoundTrip(offset);
    LowerRegister(base);
    RegisterRoundTrip(base);
    MemoryMatches(SignedDecimal(offset), Register(base));
    var s := MemoryOperand(offset, base);
    forall c | c in s
      ensures !IsSpace(c) && !IsLineBreak(c) && c != ',' && c != '#' && c != ':'
    {
      assert c in SignedDecimal(offset) || c in Register(base) || c == '(' || c == ')';
    }
  }

  // ---- A printed operand list splits back ----

  function Spaced(ops: seq<string>): seq<string> {
    if ops == [] then [] else [" " + ops[0]] + Spaced(ops[1..])
  }

  predicate AllClean(ops: seq<string>) { forall i :: 0 <= i < |ops| ==> IsClean(ops[i]) }

  lemma {:induction false} SplitSpaced(ops: seq<string>)
    requires ops != [] && AllClean(ops)
    ensures SplitOn(" " + Join(ops), ',') == Spaced(ops)
  {
    hide SplitOn;
    var p := " " + ops[0];
    assert IsClean(ops[0]) && ',' !in p;
    hide IsClean;
    if |ops| == 1 {
      SplitFirst(p, ',', "");
    } else {
      var rest := Join(ops[1..]);
      SplitSpaced(ops[1..]);
      SplitFirst(p, ',', " " + rest);
      assert Join(ops) == ops[0] + ", " + rest;
      assert " " + (ops[0] + ", " + rest) == p + [','] + (" " + rest);
    }
  }

  lemma SplitJoined(ops: seq<string>)
    requires ops != [] && AllClean(ops)
    ensures SplitOn(Join(ops), ',') == [ops[0]] + Spaced(ops[1..])
    ensures Join(ops) != "" && !IsSpace(Join(ops)[0])
  {
    hide SplitOn;
    assert IsClean(ops[0]) && ',' !in ops[0] && ops[0][0] in ops[0];
    hide IsClean;
    if |ops| == 1 {
      SplitFirst(ops[0], ',', "");
    } else {
      var rest := Join(ops[1..]);
      SplitSpaced(ops[1..]);
      SplitFirst(ops[0], ',', " " + rest);
      assert Join(ops) == ops[0] + ", " + rest;
      assert ops[0] + ", " + rest == ops[0] + [','] + (" " + rest);
    }
  }

  lemma CleanStrips(o: string)
    requires IsClean(o)
    ensures Strip(o) == o && Strip(" " + o) == o
  {
    assert o[0] in o && o[|o| - 1] in o;
    StripKeeps(o);
    assert (" " + o)[1..] == o;
    assert StripLeft(" " + o) == StripLeft(o) == o;
  }

  lemma {:induction false} StripSpaced(ops: seq<string>)
    requires AllClean(ops)
    ensures StripAll(Spaced(ops)) == ops
  {
    hide Strip;
    if ops != [] {
      CleanStrips(ops[0]);
      StripSpaced(ops[1..]);
      assert Spaced(ops)[0] == " " + ops[0] && Spaced(ops)[1..] == Spaced(ops[1..]);
    }
  }

  lemma OperandsRoundTrip(ops: seq<string>)
    requires ops != [] && AllClean(ops)
    ensures SplitOperands(Join(ops), |ops|) == Ok(ops)
  {
    hide Strip, SplitOn, Join;
    SplitJoined(ops);
    CleanStrips(ops[0]);
    StripSpaced(ops[1..]);
    StripNonempty(Join(ops));
    var parts := [ops[0]] + Spaced(ops[1..]);
    assert parts[0] == ops[0] && parts[1..] == Spaced(ops[1..]);
    assert StripAll(parts) == ops;
    assert "" !in ops;
  }

  lemma StripNonempty(s: string)
    requires s != "" && !IsSpace(s[0])
    ensures Strip(s) != ""
  {
    StripRightKeepsFirst(s);
  }

  lemma {:induction false} StripRightKeepsFirst(s: string)
    requires s != "" && !IsSpace(s[0])
    ensures StripRight(s) != "" && StripRight(s)[0] == s[0]
  {
    if |s| > 1 && IsSpace(s[|s| - 1]) {
      StripRightKeepsFirst(s[..|s| - 1]);
    }
  }

  // ---- The mnemonic splits off and is found again ----

  lemma {:induction false} WordEnds(s: string, rest: string)
    requires forall c :: c in s ==> !IsSpace(c)
    requires rest == "" || IsSpace(rest[0])
    ensures WordLength(s + rest) == |s|
  {
    if s == "" {
      assert s + rest == rest;
    } else {
      assert forall c :: c in s[1..] ==> c in s;
      WordEnds(s[1..], rest);
      assert (s + rest)[1..] == s[1..] + rest;
    }
  }

  lemma MnemonicSplits(name: string, operands: string)
    requires IsClean(name) && operands != "" && !IsSpace(operands[0])
    ensures SplitMnemonic(name + " " + operands) == (name, operands)
    ensures SplitMnemonic(name) == (name, "")
  {
    var s := name + " " + operands;
    assert name[0] in name && s[0] == name[0];
    assert s == name + (" " + operands) && name + "" == name;
    WordEnds(name, " " + operands);
    WordEnds(name, "");
    assert s[|name|..] == " " + operands && s[..|name|] == name;
    assert (" " + operands)[1..] == operands;
    assert StripLeft(" " + operands) == StripLeft(operands) == operands;
  }

  /** Length, first, second and last character: enough to tell the mnemonics apart. */
  function Signature(opcode: int): (nat, char, char, char) {
    match opcode
    case 0x00 => (3, 'N', 'O', 'P') case 0x01 => (3, 'A', 'D', 'D') case 0x02 => (3, 'S', 'U', 'B')
    case 0x03 => (3, 'A', 'N', 'D') case 0x04 => (2, 'O', 'R', 'R') case 0x05 => (3, 'X', 'O', 'R')
    case 0x06 => (3, 'S', 'L', 'T') case 0x07 => (3, 'S', 'H', 'L') case 0x08 => (3, 'S', 'H', 'R')
    case 0x09 => (4, 'A', 'D', 'I') case 0x0A => (4, 'A', 'N', 'I') case 0x0B => (3, 'O', 'R', 'I')
    case 0x0C => (4, 'X', 'O', 'I') case 0x0D => (3, 'L', 'U', 'I') case 0x0E => (2, 'L', 'W', 'W')
    case 0x0F => (2, 'S', 'W', 'W') case 0x10 => (3, 'B', 'E', 'Q') case 0x11 => (3, 'B', 'N', 'E')
    case 0x12 => (3, 'B', 'L', 'T') case 0x13 => (3, 'B', 'G', 'E') case 0x14 => (1, 'J', 'J', 'J')
    case 0x15 => (3, 'J', 'A', 'L') case 0x16 => (2, 'J', 'R', 'R') case 0x17 => (4, 'H', 'A', 'T')
    case _ => (1, '?', '?', '?')
  }

  lemma SignatureOf(opcode: nat)
    requires opcode <= 0x17
    ensures var m, g := Mnemonic(opcode), Signature(opcode);
            |m| == g.0 && 1 <= |m| <= 4 && m[0] == g.1 && (|m| > 1 ==> m[1] == g.2) && m[|m| - 1] == g.3
    ensures forall i :: 0 <= i < |Mnemonic(opcode)| ==> IsUpper(Mnemonic(opcode)[i])
  {
  }

  lemma MnemonicsDiffer(a: nat, b: nat)
    requires a < b <= 0x17
    ensures Mnemonic(a) != Mnemonic(b)
  {
    hide Mnemonic;
    SignatureOf(a);
    SignatureOf(b);
  }

  lemma {:induction false} FoundFrom(opcode: nat, from: nat)
    requires from <= opcode <= 0x17
    ensures FindOpcode(Mnemonic(opcode), from) == Some(opcode)
    decreases opcode - from
  {
    hide Mnemonic;
    if from < opcode {
      MnemonicsDiffer(from, opcode);
      FoundFrom(opcode, from + 1);
    }
  }

  lemma MnemonicFound(opcode: nat)
    requires opcode <= 0x17
    ensures FindOpcode(Mnemonic(opcode), 0) == Some(opcode)
    ensures Upper(Mnemonic(opcode)) == Mnemonic(opcode) && IsClean(Mnemonic(opcode))
    ensures Mnemonic(opcode) != ".WORD" && Mnemonic(opcode) != "RET"
  {
    hide Mnemonic, FindOpcode;
    FoundFrom(opcode, 0);
    SignatureOf(opcode);
    var m := Mnemonic(opcode);
    assert ".WORD"[0] == '.' && "RET"[0] == 'R';
    assert Upper(m) == m;
  }

  // ---- Fields recompose ----

  lemma SplitAt(x: nat)
    ensures x == x / 0x400_0000 * 0x400_0000 + x % 0x400_0000
    ensures x % 0x400_0000 == x / 0x20_0000 % 32 * 0x20_0000 + x % 0x20_0000
  {
    assert x / 0x20_0000 / 32 == x / 0x400_0000;
  }

  lemma Recompose(w: Word)
    ensures PackI(w / 0x400_0000, w / 0x20_0000 % 32, w / 0x1_0000 % 32, w % 0x1_0000) == w
    ensures PackI(w / 0x400_0000, w / 0x20_0000 % 32, w / 0x1_0000 % 32, Sext16(w % 0x1_0000)) == w
    ensures PackJ(w / 0x400_0000, Sext26(w % 0x400_0000)) == w
    ensures w % 0x800 == 0 ==> PackR(w / 0x400_0000, w / 0x20_0000 % 32, w / 0x1_0000 % 32, w / 0x800 % 32) == w
    ensures w % 0x20_0000 == 0 ==> PackR(w / 0x400_0000, w / 0x20_0000 % 32, 0, 0) == w
  {
    SplitAt(w);
    SplitLow(w);
    SextMod(w % 0x1_0000, w % 0x400_0000);
  }

  lemma SextMod(x: nat, y: nat)
    requires x < 0x1_0000 && y < 0x400_0000
    ensures Sext16(x) % 0x1_0000 == x && Sext26(y) % 0x400_0000 == y && x % 0x1_0000 == x
  {
  }

  // ---- One printed statement encodes back ----

  lemma LineEncodes(opcode: nat, ops: seq<string>, line: nat, address: int, labels: Labels)
    requires opcode <= 0x17 && ops != [] && AllClean(ops)
    ensures EncodeStatement(Statement(line, Line(opcode, ops), address), labels) ==
            EncodeOpcode(opcode, Join(ops), address, labels)
  {
    hide EncodeOpcode, Join, Mnemonic, FindOpcode, SplitMnemonic, Upper;
    MnemonicFound(opcode);
    SplitJoined(ops);
    MnemonicSplits(Mnemonic(opcode), Join(ops));
  }

  lemma BareEncodes(opcode: nat, line: nat, address: int, labels: Labels)
    requires opcode == 0x00 || opcode == 0x17
    ensures EncodeStatement(Statement(line, Mnemonic(opcode), address), labels) == Ok(opcode * 0x400_0000)
  {
    hide Mnemonic, FindOpcode, SplitMnemonic, Upper;
    MnemonicFound(opcode);
    MnemonicSplits(Mnemonic(opcode), "x");
    assert Strip("") == "";
  }

  lemma DotWordEncodes(w: Word, line: nat, address: int, labels: Labels)
    ensures EncodeStatement(Statement(line, DotWord(w), address), labels) == Ok(w)
  {
    hide SplitMnemonic, Hex, ParseInt, FindOpcode;
    var number := "0x" + Hex(w, 8);
    WordFits(w);
    HexLiteralRoundTrip(w, 8);
    assert DotWord(w) == ".word" + " " + number;
    MnemonicSplits(".word", number);
    assert Upper(".word") == ".WORD";
    assert ".WORD"[0] != "RET"[0];
    CleanStrips(number);
  }

  lemma WordFits(w: Word)
    ensures Pow16(8) == 0x1_0000_0000 && Pow16(4) == 0x1_0000
  {
    assert Pow16(2) == 256;
    assert Pow16(4) == 256 * Pow16(2);
    assert Pow16(6) == 256 * Pow16(4);
    assert Pow16(8) == 256 * Pow16(6);
  }

  lemma TokensParse(r: RegIndex, imm16: int, imm26: int)
    requires 0 <= imm16 < 0x1_0000 && 0 <= imm26 < 0x400_0000
    ensures IsClean(Register(r)) && ParseRegister(Register(r)) == Ok(r)
    ensures IsClean("0x" + Hex(imm16, 4)) && ParseInt("0x" + Hex(imm16, 4)) == Some(imm16)
    ensures IsClean(SignedDecimal(Sext16(imm16))) && ParseInt(SignedDecimal(Sext16(imm16))) == Some(Sext16(imm16))
    ensures IsClean(SignedDecimal(Sext26(imm26))) && ParseInt(SignedDecimal(Sext26(imm26))) == Some(Sext26(imm26))
    ensures IsClean(MemoryOperand(Sext16(imm16), r))
            && ParseMemoryOperand(MemoryOperand(Sext16(imm16), r)) == Ok((Sext16(imm16), r))
  {
    hide IsClean, ParseRegister, ParseInt, Hex, SignedDecimal, MemoryOperand, ParseMemoryOperand;
    LowerRegister(r);
    RegisterRoundTrip(r);
    WordFits(0);
    HexLiteralRoundTrip(imm16, 4);
    SignedDecimalRoundTrip(Sext16(imm16));
    SignedDecimalRoundTrip(Sext26(imm26));
    MemoryOperandRoundTrip(Sext16(imm16), r);
  }

  /** Statement by statement: encoding what was printed gives the fields packed again. */
  lemma FieldsEncode(w: Word, opcode: int, rd: RegIndex, rs1: RegIndex, rs2: RegIndex,
                     low11: int, imm16: int, low21: int, imm26: int, line: nat, address: int, labels: Labels)
    requires 0 <= opcode < 64 && 0 <= imm16 < 0x1_0000 && 0 <= imm26 < 0x400_0000
    requires PackI(opcode, rd, rs1, imm16) == w && PackI(opcode, rd, rs1, Sext16(imm16)) == w
    requires PackJ(opcode, Sext26(imm26)) == w
    requires low11 == 0 ==> PackR(opcode, rd, rs1, rs2) == w
    requires low21 == 0 ==> PackR(opcode, rd, 0, 0) == w
    ensures var text := DisassembleFields(w, opcode, rd, rs1, rs2, low11, imm16, low21, imm26);
            EncodeStatement(Statement(line, text, address), labels) == Ok(w)
  {
    hide PackR, PackI, PackJ, DotWord, Line, Join, Register, SignedDecimal, Hex, MemoryOperand, EncodeStatement,
      SplitOperands, ParseRegister, ParseInt, ParseMemoryOperand, IsClean, Mnemonic;
    DotWordEncodes(w, line, address, labels);
    BareEncodes(0, line, address, labels);
    BareEncodes(0x17, line, address, labels);
    BareNames();
    TokensParse(rd, imm16, imm26);
    TokensParse(rs1, imm16, imm26);
    TokensParse(rs2, imm16, imm26);
    if 1 <= opcode <= 8 && low11 == 0 {
      Encodes(opcode, [Register(rd), Register(rs1), Register(rs2)], line, address, labels);
    } else if opcode == 0x16 && low21 == 0 {
      Encodes(opcode, [Register(rd)], line, address, labels);
    } else if opcode == 0x0D && rs1 == 0 {
      Encodes(opcode, [Register(rd), "0x" + Hex(imm16, 4)], line, address, labels);
    } else if opcode == 0x09 || 0x10 <= opcode <= 0x13 {
      Encodes(opcode, [Register(rd), Register(rs1), SignedDecimal(Sext16(imm16))], line, address, labels);
    } else if opcode == 0x0E || opcode == 0x0F {
      Encodes(opcode, [Register(rd), MemoryOperand(Sext16(imm16), rs1)], line, address, labels);
    } else if 0x0A <= opcode <= 0x0C {
      Encodes(opcode, [Register(rd), Register(rs1), "0x" + Hex(imm16, 4)], line, address, labels);
    } else if opcode == 0x14 || opcode == 0x15 {
      Encodes(opcode, [SignedDecimal(Sext26(imm26))], line, address, labels);
    }
  }

  lemma BareNames()
    ensures Mnemonic(0) == "NOP" && Mnemonic(0x17) == "HALT"
  {
  }

  lemma Encodes(opcode: nat, ops: seq<string>, line: nat, address: int, labels: Labels)
    requires opcode <= 0x17 && ops != [] && AllClean(ops)
    ensures EncodeStatement(Statement(line, Line(opcode, ops), address), labels) ==
            EncodeOpcode(opcode, Join(ops), address, labels)
    ensures SplitOperands(Join(ops), |ops|) == Ok(ops)
  {
    LineEncodes(opcode, ops, line, address, labels);
    OperandsRoundTrip(ops);
  }

  /** Every word, accepted by the decoder or not, survives printing and re-assembly. */
  lemma WordRoundTrip(w: Word, line: nat, address: int, labels: Labels)
    ensures EncodeStatement(Statement(line, DisassembleWord(w), address), labels) == Ok(w)
  {
    hide PackR, PackI, PackJ, EncodeStatement, DisassembleFields, Sext16, Sext26;
    Recompose(w);
    FieldsEncode(w, w / 0x400_0000, w / 0x20_0000 % 32, w / 0x1_0000 % 32, w / 0x800 % 32,
                 w % 0x800, w % 0x1_0000, w % 0x20_0000, w % 0x400_0000, line, address, labels);
  }

  // ---- Printed lines pass the first pass unchanged ----

  predicate IsPlain(c: char) { !IsLineBreak(c) && c != '#' && c != ':' }

  predicate IsPrinted(t: string) {
    |t| > 0 && !IsSpace(t[0]) && !IsSpace(t[|t| - 1]) && forall c :: c in t ==> IsPlain(c)
  }

  lemma {:induction false} JoinPlain(ops: seq<string>)
    requires ops != [] && AllClean(ops)
    ensures IsPrinted(Join(ops))
  {
    assert IsClean(ops[0]) && ops[0][0] in ops[0] && ops[0][|ops[0]| - 1] in ops[0];
    if |ops| > 1 {
      JoinPlain(ops[1..]);
      var s, rest := Join(ops), Join(ops[1..]);
      assert s == ops[0] + ", " + rest;
      assert s[|s| - 1] == rest[|rest| - 1] && s[0] == ops[0][0];
      forall c | c in s
        ensures IsPlain(c)
      {
        assert c in ops[0] || c == ',' || c == ' ' || c in rest;
      }
    }
  }

  lemma LinePrinted(opcode: nat, ops: seq<string>)
    requires opcode <= 0x17 && ops != [] && AllClean(ops)
    ensures IsPrinted(Line(opcode, ops))
  {
    hide Mnemonic, Join;
    MnemonicFound(opcode);
    JoinPlain(ops);
    var m, t := Mnemonic(opcode), Join(ops);
    assert m[0] in m;
    forall c | c in Line(opcode, ops)
      ensures IsPlain(c)
    {
      assert c in m || c == ' ' || c in t;
    }
  }

  lemma DotWordPrinted(w: Word)
    ensures IsPrinted(DotWord(w))
  {
    WordFits(w);
    HexRoundTrip(w, 8);
    hide Hex;
    var h := Hex(w, 8);
    assert h[7] in h;
    assert DotWord(w)[|DotWord(w)| - 1] == h[7];
    forall c | c in DotWord(w)
      ensures IsPlain(c)
    {
      assert c in ".word 0x" || c in h;
    }
  }

  lemma FieldsPrinted(w: Word, opcode: int, rd: RegIndex, rs1: RegIndex, rs2: RegIndex,
                      low11: int, imm16: int, low21: int, imm26: int)
    requires 0 <= opcode < 64 && 0 <= imm16 < 0x1_0000 && 0 <= imm26 < 0x400_0000
    ensures IsPrinted(DisassembleFields(w, opcode, rd, rs1, rs2, low11, imm16, low21, imm26))
  {
    hide DotWord, Line, Join, Register, SignedDecimal, Hex, MemoryOperand, ParseRegister, ParseInt, ParseMemoryOperand,
      IsClean, IsPrinted, Mnemonic;
    DotWordPrinted(w);
    BarePrinted();
    TokensParse(rd, imm16, imm26);
    TokensParse(rs1, imm16, imm26);
    TokensParse(rs2, imm16, imm26);
    if 1 <= opcode <= 8 && low11 == 0 {
      LinePrinted(opcode, [Register(rd), Register(rs1), Register(rs2)]);
    } else if opcode == 0x16 && low21 == 0 {
      LinePrinted(opcode, [Register(rd)]);
    } else if opcode == 0x0D && rs1 == 0 {
      LinePrinted(opcode, [Register(rd), "0x" + Hex(imm16, 4)]);
    } else if opcode == 0x09 || 0x10 <= opcode <= 0x13 {
      LinePrinted(opcode, [Register(rd), Register(rs1), SignedDecimal(Sext16(imm16))]);
    } else if opcode == 0x0E || opcode == 0x0F {
      LinePrinted(opcode, [Register(rd), MemoryOperand(Sext16(imm16), rs1)]);
    } else if 0x0A <= opcode <= 0x0C {
      LinePrinted(opcode, [Register(rd), Register(rs1), "0x" + Hex(imm16, 4)]);
    } else if opcode == 0x14 || opcode == 0x15 {
      LinePrinted(opcode, [SignedDecimal(Sext26(imm26))]);
    }
  }

  lemma BarePrinted()
    ensures IsPrinted("NOP") && IsPrinted("HALT")
  {
  }

  lemma {:induction false} LabelNeedsColon(s: string)
    ensures MatchLabel(s).Some? ==> ':' in s
  {
    var k := IdentLength(s);
    StripLeftSuffix(s[k..]);
    var t := StripLeft(s[k..]);
    if MatchLabel(s).Some? {
      assert t[0] in s[k..];
    }
  }

  lemma {:induction false} StripLeftSuffix(s: string)
    ensures forall c :: c in StripLeft(s) ==> c in s
  {
    if s != "" && IsSpace(s[0]) {
      StripLeftSuffix(s[1..]);
    }
  }

  lemma PrintedLineParses(t: string, n: nat, p: Parsed)
    requires IsPrinted(t)
    ensures ParseLine(t, n, p) == Ok(Parsed(p.labels, p.statements + [Statement(n, t, 4 * |p.statements|)]))
  {
    hide Strip, MatchLabel, SplitOn;
    SplitFirst(t, '#', "");
    StripKeeps(t);
    LabelNeedsColon(t);
  }

  /** One statement per line, numbered and addressed in order. */
  function Numbered(lines: seq<string>, n: nat): (r: seq<Statement>)
    requires n <= |lines|
    ensures |r| == n && forall i :: 0 <= i < n ==> r[i] == Statement(i + 1, lines[i], 4 * i)
  {
    if n == 0 then [] else Numbered(lines, n - 1) + [Statement(n, lines[n - 1], 4 * (n - 1))]
  }

  lemma {:induction false} PrintedLinesParse(lines: seq<string>, n: nat)
    requires n <= |lines| && forall i :: 0 <= i < |lines| ==> IsPrinted(lines[i])
    ensures ParseLines(lines, n) == Ok(Parsed(map[], Numbered(lines, n)))
  {
    hide ParseLine, IsPrinted;
    if n > 0 {
      PrintedLinesParse(lines, n - 1);
      PrintedLineParses(lines[n - 1], n, Parsed(map[], Numbered(lines, n - 1)));
    }
  }

  // ---- Images ----

  function WordAt(image: seq<Byte>): Word
    requires |image| >= 4
  {
    S.LittleEndian(image[0], image[1], image[2], image[3])
  }

  function ImageWords(image: seq<Byte>): seq<Word> {
    if |image| < 4 then [] else [WordAt(image)] + ImageWords(image[4..])
  }

  function WordBytes(w: int): seq<Byte> {
    [w % 0x100, w / 0x100 % 0x100, w / 0x1_0000 % 0x100, w / 0x100_0000 % 0x100]
  }

  function ImageBytes(words: seq<int>): seq<Byte> {
    if words == [] then [] else WordBytes(words[0]) + ImageBytes(words[1..])
  }

  function PrintWords(words: seq<Word>): seq<string> {
    seq(|words|, i requires 0 <= i < |words| => DisassembleWord(words[i]))
  }

  /** disassemble_bytes: None is the odd-size error. */
  function DisassembleBytes(image: seq<Byte>): Option<string> {
    if |image| % 4 != 0 then None else Some(Unlines(PrintWords(ImageWords(image))))
  }

  function AssembleText(source: string): Result<seq<Byte>> {
    var words :- AssembleWords(source);
    Ok(ImageBytes(words))
  }

  lemma BytesOfWord(image: seq<Byte>)
    requires |image| >= 4
    ensures WordBytes(WordAt(image)) == image[..4]
  {
    var w: int, b0: int, b1: int, b2: int, b3: int := WordAt(image), image[0], image[1], image[2], image[3];
    var q1 := b1 + 0x100 * b2 + 0x1_0000 * b3;
    var q2 := b2 + 0x100 * b3;
    assert w == 0x100 * q1 + b0 && q1 == 0x100 * q2 + b1;
    assert w / 0x100 == q1;
    assert w / 0x1_0000 == q2;
    assert w / 0x100_0000 == image[3];
  }

  lemma {:induction false} ImageRoundTrip(image: seq<Byte>)
    requires |image| % 4 == 0
    ensures ImageBytes(ImageWords(image)) == image
  {
    hide WordAt, WordBytes;
    if |image| >= 4 {
      BytesOfWord(image);
      ImageRoundTrip(image[4..]);
      assert image == image[..4] + image[4..];
    }
  }

  lemma {:induction false} EncodePrinted(words: seq<Word>, statements: seq<Statement>, n: nat)
    requires n <= |words| && |statements| == n
    requires forall i :: 0 <= i < n ==> statements[i].text == DisassembleWord(words[i])
    ensures EncodeAll(statements, map[]) == Ok(words[..n])
  {
    hide DisassembleWord, EncodeStatement;
    if n > 0 {
      EncodePrinted(words, statements[..n - 1], n - 1);
      var st := statements[n - 1];
      WordRoundTrip(words[n - 1], st.line, st.address, map[]);
      assert words[..n] == words[..n - 1] + [words[n - 1]];
    }
  }

  lemma WordPrinted(w: Word)
    ensures IsPrinted(DisassembleWord(w))
  {
    hide DisassembleFields, IsPrinted;
    FieldsPrinted(w, w / 0x400_0000, w / 0x20_0000 % 32, w / 0x1_0000 % 32, w / 0x800 % 32,
                  w % 0x800, w % 0x1_0000, w % 0x20_0000, w % 0x400_0000);
  }

  /** Text round trip: assembling the disassembly of any whole-word image returns it. */
  lemma TextRoundTrip(image: seq<Byte>)
    requires |image| % 4 == 0
    ensures AssembleText(DisassembleBytes(image).value) == Ok(image)
  {
    hide DisassembleWord, SplitLines, Unlines, EncodeAll, ParseLines, ImageWords, ImageBytes;
    var words := ImageWords(image);
    var lines := PrintWords(words);
    forall i | 0 <= i < |lines|
      ensures IsPrinted(lines[i])
    {
      WordPrinted(words[i]);
    }
    forall l | l in lines
      ensures IsLine(l)
    {
      var i :| 0 <= i < |lines| && l == lines[i];
    }
    LinesRoundTrip(lines);
    PrintedLinesParse(lines, |lines|);
    var statements := ParseLines(lines, |lines|).value.statements;
    EncodePrinted(words, statements, |words|);
    assert words[..|words|] == words;
    ImageRoundTrip(image);
  }

  // ---- .word marks exactly the rejected words ----

  lemma DotWordIffRejected(w: Word)
    ensures DisassembleWord(w) == DotWord(w) <==> !I.Decode(w).Ok?
    ensures StartsWithDot(DisassembleWord(w)) <==> !I.Decode(w).Ok?
  {
    hide StartsWithDot, DotWord, Line, Join, Register, SignedDecimal, Hex, MemoryOperand, Sext16, Sext26;
    FieldOverlap(w);
    BareWords(w);
    DotWordStarts(w);
    BareStarts();
    forall opcode: nat, ops: seq<string> | opcode <= 0x17
      ensures !StartsWithDot(Line(opcode, ops))
    {
      LineStarts(opcode, ops);
    }
  }

  predicate StartsWithDot(s: string) { |s| > 0 && s[0] == '.' }

  lemma DotWordStarts(w: Word)
    ensures StartsWithDot(DotWord(w))
  {
  }

  lemma BareStarts()
    ensures !StartsWithDot("NOP") && !StartsWithDot("HALT")
  {
  }

  lemma LineStarts(opcode: nat, ops: seq<string>)
    requires opcode <= 0x17
    ensures !StartsWithDot(Line(opcode, ops))
  {
    SignatureOf(opcode);
    assert Line(opcode, ops)[0] == Mnemonic(opcode)[0];
  }

  lemma BareWords(w: Word)
    ensures w / 0x400_0000 == 0 ==> (w == 0 <==> w % 0x400_0000 == 0)
    ensures w / 0x400_0000 == 0x17 ==> (w == 0x17 * 0x400_0000 <==> w % 0x400_0000 == 0)
  {
  }
}
