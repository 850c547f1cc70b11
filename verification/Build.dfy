/** From source text to a running machine: what assemble_text returns, once in
    ROM, is the program whose statements and labels the parser saw. */
module Build {
  import opened Words
  import opened Text
  import opened Assembler
  import opened Linking
  import I = Isa
  import S = Simulator
  import SI = SimulatorIsa
  import D = Disassembler
  import R = Refinement
  import Image

  // ---- Words to bytes and back ----

  lemma WordOfBytes(w: Word)
    ensures D.WordAt(D.WordBytes(w)) == w
  {
    var q1, q2, q3 := w / 0x100, w / 0x1_0000, w / 0x100_0000;
    assert q1 / 0x100 == q2 && q2 / 0x100 == q3;
    assert w == 0x100 * q1 + w % 0x100 && q1 == 0x100 * q2 + q1 % 0x100 && q2 == 0x100 * q3 + q2 % 0x100;
  }

  predicate AllWords(words: seq<int>) { forall i :: 0 <= i < |words| ==> 0 <= words[i] < 0x1_0000_0000 }

  /** Serializing words and reading them back loses nothing. */
  lemma {:induction false} WordsRoundTrip(words: seq<int>)
    requires AllWords(words)
    ensures |D.ImageBytes(words)| == 4 * |words| && D.ImageWords(D.ImageBytes(words)) == words
  {
    hide D.WordAt;
    if words != [] {
      WordsRoundTrip(words[1..]);
      WordOfBytes(words[0]);
      var head, image := D.WordBytes(words[0]), D.ImageBytes(words);
      hide D.WordBytes;
      assert image[..4] == head && image[4..] == D.ImageBytes(words[1..]);
      assert D.WordAt(image) == D.WordAt(image[..4]) by { FirstWord(image); }
    }
  }

  lemma FirstWord(image: seq<Byte>)
    requires |image| >= 4
    ensures D.WordAt(image) == D.WordAt(image[..4])
  {
  }

  /** Every word the encoder returns fits 32 bits, .word values included. */
  lemma EncodedFits(st: Statement, labels: Labels)
    requires EncodeStatement(st, labels).Ok?
    ensures 0 <= EncodeStatement(st, labels).value < 0x1_0000_0000
  {
    hide SplitMnemonic, Upper, FindOpcode, EncodeOpcode, Written, I.Decode, ParseNumber, Strip;
    var (name, operands) := SplitMnemonic(st.text);
    if Upper(name) == "RET" {
      ReturnDenotes(st.address, labels);
    } else if Upper(name) != ".WORD" {
      FoundIsNamed(Upper(name), 0);
      StatementDenotes(FindOpcode(Upper(name), 0).value, operands, st.address, labels);
    }
  }

  lemma EncodedWordsFit(statements: seq<Statement>, labels: Labels)
    requires EncodeAll(statements, labels).Ok?
    ensures AllWords(EncodeAll(statements, labels).value)
  {
    hide EncodeStatement, EncodeAll;
    forall k | 0 <= k < |statements|
      ensures 0 <= EncodeAll(statements, labels).value[k] < 0x1_0000_0000
    {
      EncodedAt(statements, labels, k);
      EncodedFits(statements[k], labels);
    }
  }

  // ---- The image in ROM is the program ----

  function LoadedRom(image: seq<Byte>): S.Bytes64K
    requires |image| <= 65536
  {
    Image.LoadBytes(Image.ZeroBytes(), 0, image).value
  }

  /** What assemble_text returns is a whole number of words, one for each
      statement, and loading it at zero puts exactly those words in ROM. */
  lemma AssembledIsLoaded(source: string, image: seq<Byte>, gpioIn: Word) returns (p: Parsed, words: seq<int>)
    requires D.AssembleText(source) == Ok(image) && |image| <= 65536
    ensures Assembles(source, p, words) && |image| == 4 * |words| == 4 * |p.statements|
    ensures Loaded(I.Env(SI.WordsOf(LoadedRom(image)), gpioIn), words)
  {
    hide SplitLines, ParseLines, EncodeAll, SI.WordsOf, Image.LoadBytes, D.ImageBytes, D.ImageWords;
    words := AssembleWords(source).value;
    AssemblesIff(source, words);
    p :| Assembles(source, p, words);
    EncodedWordsFit(p.statements, p.labels);
    WordsRoundTrip(words);
    Image.LoadedView(image);
  }

  /** Both machines run that program: the RTL's ROM, read from the converted
      image, holds the same words. */
  lemma BothRomsHoldProgram(source: string, image: seq<Byte>, gpioIn: Word) returns (p: Parsed, words: seq<int>)
    requires D.AssembleText(source) == Ok(image) && |image| <= 65536
    ensures Assembles(source, p, words) && Loaded(I.Env(SI.WordsOf(LoadedRom(image)), gpioIn), words)
    ensures Image.ConvertImage(image).Converted?
    ensures var m := Image.ReadMem(Image.ConvertImage(image).text);
            && |m| == 16384
            && (forall i :: 0 <= i < 16384 ==> m[i] == Some(if i < |words| then words[i] else 0))
  {
    hide SplitLines, ParseLines, EncodeAll, SI.WordsOf, Image.LoadBytes, Image.ConvertImage, Image.ReadMem,
      D.ImageBytes, D.ImageWords;
    p, words := AssembledIsLoaded(source, image, gpioIn);
    EncodedWordsFit(p.statements, p.labels);
    WordsRoundTrip(words);
    Image.SameRom(image);
    Image.LoadedView(image);
    AssemblesIff(source, words);
  }

  /** Label meaning over whole runs of assembled text: whenever a run of the
      simulator from reset is about to execute a taken branch or jump written
      with a label, its next step() leaves the PC at the label's address, which
      is that of the first statement after the line defining it. */
  lemma RunReachesLabels(source: string, image: seq<Byte>, ram: S.Bytes64K, gpioIn: Word, n: nat, k: nat, name: string)
      returns (p: Parsed, words: seq<int>, line: nat)
    requires D.AssembleText(source) == Ok(image) && |image| <= 65536
    ensures Assembles(source, p, words)
    ensures var env, c := I.Env(SI.WordsOf(LoadedRom(image)), gpioIn), SI.ResetSim(LoadedRom(image), ram, gpioIn);
            var m := I.Run(env, I.Running(I.ResetArch(SI.WordsOf(ram))), n);
            && S.WellFormed(c.core)
            && (m.Running? && k < |p.statements| && m.arch.pc == 4 * k && TargetLabel(p.statements[k]) == Some(name) ==>
                  && k < |words| && 0 <= words[k] < 0x1_0000_0000 && I.Decode(words[k]).Ok?
                  && (IsTaken(I.Decode(words[k]).instr, m.arch) ==>
                        && var pc := SI.StepN(c, n + 1).core.pc;
                        && name in p.labels && pc == p.labels[name] && PointsPast(source, p, name, pc, line)))
  {
    hide SplitLines, ParseLines, EncodeAll, EncodeStatement, TargetLabel, I.Decode, I.Step, I.Run, SI.Step, SI.StepN,
      SI.EnvOf, SI.ArchOf, SI.WordsOf, PointsPast, LoadedRom, I.ResetArch, IsTaken;
    p, words := AssembledIsLoaded(source, image, gpioIn);
    line := 0;
    var env, c := I.Env(SI.WordsOf(LoadedRom(image)), gpioIn), SI.ResetSim(LoadedRom(image), ram, gpioIn);
    var m0 := I.Running(I.ResetArch(SI.WordsOf(ram)));
    SI.ResetDenotes(LoadedRom(image), ram, gpioIn);
    SI.RunDenotes(c, env, m0, n);
    var m := I.Run(env, m0, n);
    if m.Running? && k < |p.statements| && m.arch.pc == 4 * k && TargetLabel(p.statements[k]) == Some(name) {
      EncodedAt(p.statements, p.labels, k);
      TargetDenotes(p.statements[k], p.labels);
      if IsTaken(I.Decode(words[k]).instr, m.arch) {
        line := LabelMeaning(source, p, words, env, SI.StepN(c, n), m.arch, k, name);
        R.StepNSucc(c, n);
      }
    }
  }
}
