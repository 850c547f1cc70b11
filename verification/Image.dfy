/** One memory, two representations: little-endian byte arrays in the simulator,
    14-bit-indexed word arrays in the RTL, and the image files that fill them. */
module Image {
  import opened Words
  import opened Text
  import I = Isa
  import S = Simulator
  import SI = SimulatorIsa
  import RtlIsa
  import D = Disassembler

  // ---- Loading ----

  /** Rom::load_bytes; None is the out_of_range exception. */
  function LoadBytes(bytes: S.Bytes64K, address: Word, image: seq<Byte>): Option<S.Bytes64K> {
    if address > 0xFFFF || |image| > 0x1_0000 - address then None
    else Some(bytes[..address] + image + bytes[address + |image|..])
  }

  /** Rom::load32; None is either exception. */
  function LoadWord(bytes: S.Bytes64K, address: Word, w: Word): Option<S.Bytes64K> {
    if address % 4 != 0 then None else LoadBytes(bytes, address, D.WordBytes(w))
  }

  function ZeroBytes(): S.Bytes64K { seq(65536, i => 0) }

  lemma {:induction false} ImageWordAt(image: seq<Byte>, i: nat)
    requires |image| % 4 == 0 && 4 * i < |image|
    ensures |D.ImageWords(image)| == |image| / 4
    ensures D.ImageWords(image)[i] == S.LittleEndian(image[4 * i], image[4 * i + 1], image[4 * i + 2], image[4 * i + 3])
  {
    hide S.LittleEndian;
    var tail := image[4..];
    var rest := D.ImageWords(tail);
    assert D.ImageWords(image) == [D.WordAt(image)] + rest;
    if |image| > 4 {
      var j := if i == 0 then 0 else i - 1;
      ImageWordAt(tail, j);
      assert i > 0 ==> tail[4 * j] == image[4 * i] && tail[4 * j + 1] == image[4 * i + 1]
                       && tail[4 * j + 2] == image[4 * i + 2] && tail[4 * j + 3] == image[4 * i + 3];
    }
  }

  lemma ImageWordCount(image: seq<Byte>)
    requires |image| % 4 == 0
    ensures |D.ImageWords(image)| == |image| / 4
  {
    if |image| > 0 {
      ImageWordAt(image, 0);
    }
  }

  /** The word view of a zero-padded image. */
  function PaddedWords(image: seq<Byte>): (r: seq<Word>) {
    D.ImageWords(image) + seq(if |D.ImageWords(image)| <= 16384 then 16384 - |D.ImageWords(image)| else 0, i => 0)
  }

  /** Loading an image at zero makes the ROM's word view the padded image. */
  lemma LoadedView(image: seq<Byte>)
    requires |image| % 4 == 0 && |image| <= 65536
    ensures LoadBytes(ZeroBytes(), 0, image).Some?
    ensures SI.WordsOf(LoadBytes(ZeroBytes(), 0, image).value) == PaddedWords(image)
  {
    var rom := LoadBytes(ZeroBytes(), 0, image).value;
    ImageWordCount(image);
    forall i | 0 <= i < 16384
      ensures S.ReadWord(rom, 4 * i) == PaddedWords(image)[i]
    {
      if 4 * i < |image| {
        ImageWordAt(image, i);
      }
    }
    hide S.ReadWord;
    assert |PaddedWords(image)| == 16384;
  }

  /** A word load is a word update. */
  lemma LoadWordUpdates(bytes: S.Bytes64K, i: nat, w: Word)
    requires i < 16384
    ensures LoadWord(bytes, 4 * i, w).Some?
    ensures SI.WordsOf(LoadWord(bytes, 4 * i, w).value) == SI.WordsOf(bytes)[i := w]
  {
    hide SI.WordsOf;
    assert LoadWord(bytes, 4 * i, w).value == S.WriteWord(bytes, 4 * i, w);
    SI.ByteWriteIsWordWrite(bytes, i, w);
  }

  /** The loads and the conversion refuse exactly what does not fit: a misaligned
      word, bytes past the end, a partial word, an oversized image. */
  lemma LoadGuards(bytes: S.Bytes64K, address: Word, w: Word, image: seq<Byte>)
    ensures LoadBytes(bytes, address, image).Some? <==> address <= 0xFFFF && address + |image| <= 0x1_0000
    ensures LoadWord(bytes, address, w).Some? <==> address % 4 == 0 && address <= 0xFFFC
    ensures ConvertImage(image).OddSize? <==> |image| % 4 != 0
    ensures ConvertImage(image).TooLarge? <==> |image| % 4 == 0 && |image| > 0x1_0000
  {
    hide D.ImageWords, Unlines;
  }

  // ---- bin_to_mem.py and $readmemh ----

  datatype Conversion = Converted(text: string) | OddSize | TooLarge

  function HexLines(words: seq<Word>): seq<string> {
    seq(|words|, i requires 0 <= i < |words| => Hex(words[i], 8))
  }

  /** convert_image: upper-case hexadecimal words, one a line, padded to the full ROM. */
  function ConvertImage(image: seq<Byte>): Conversion {
    if |image| % 4 != 0 then OddSize
    else if |image| > 65536 then TooLarge
    else Converted(Unlines(HexLines(D.ImageWords(image)) + HexLines(seq(16384 - |image| / 4, i => 0))))
  }

  /** What $readmemh stores for one line, and for a file. */
  function ReadMemLine(line: string): Option<nat> { DigitsValue(line, 16) }

  function ReadMem(text: string): seq<Option<nat>> {
    var lines := SplitLines(text);
    seq(|lines|, i requires 0 <= i < |lines| => ReadMemLine(lines[i]))
  }

  lemma HexLine(w: Word)
    ensures ReadMemLine(Hex(w, 8)) == Some(w) && IsLine(Hex(w, 8))
  {
    hide Hex, DigitsValue;
    D.WordFits(w);
    HexRoundTrip(w, 8);
  }

  lemma HexLinesRead(words: seq<Word>)
    ensures var m := ReadMem(Unlines(HexLines(words)));
            |m| == |words| && forall i :: 0 <= i < |words| ==> m[i] == Some(words[i])
  {
    hide Hex, SplitLines, Unlines, ReadMemLine;
    var lines := HexLines(words);
    forall l | l in lines
      ensures IsLine(l)
    {
      var i :| 0 <= i < |lines| && l == lines[i];
      HexLine(words[i]);
    }
    LinesRoundTrip(lines);
    forall i | 0 <= i < |words|
      ensures ReadMemLine(lines[i]) == Some(words[i])
    {
      HexLine(words[i]);
    }
  }

  /** The RTL's ROM, initialized from the converted image, holds exactly the words
      the simulator's ROM holds after loading the same image. */
  lemma SameRom(image: seq<Byte>)
    requires |image| % 4 == 0 && |image| <= 65536
    ensures LoadBytes(ZeroBytes(), 0, image).Some? && ConvertImage(image).Converted?
    ensures var words, m := SI.WordsOf(LoadBytes(ZeroBytes(), 0, image).value), ReadMem(ConvertImage(image).text);
            |m| == 16384 && forall i :: 0 <= i < 16384 ==> m[i] == Some(words[i])
  {
    hide Hex, SplitLines, Unlines, ReadMemLine, SI.WordsOf, ReadMem, LoadBytes;
    LoadedView(image);
    ImageWordCount(image);
    var padding: seq<Word> := seq(16384 - |image| / 4, i => 0);
    assert HexLines(D.ImageWords(image)) + HexLines(padding) == HexLines(D.ImageWords(image) + padding);
    assert PaddedWords(image) == D.ImageWords(image) + padding;
    HexLinesRead(PaddedWords(image));
  }

  // ---- RAM under any sequence of writes ----

  datatype WordWrite = WordWrite(address: Word, value: Word)

  predicate InRam(address: Word) { address % 4 == 0 && 0x1000_0000 <= address <= 0x1000_FFFF }

  predicate InRom(address: Word) { address % 4 == 0 && address <= 0xFFFF }

  /** The index system_bus.sv hands to both memories: address bits 15 to 2. */
  function MemoryIndex(address: Word): nat { address / 4 % 16384 }

  function WriteBytes(ram: S.Bytes64K, ws: seq<WordWrite>): S.Bytes64K {
    if ws == [] then ram else
      var before, w := WriteBytes(ram, ws[..|ws| - 1]), ws[|ws| - 1];
      match S.RamWrite32(before, w.address, w.value)
      case Granted(after) => after
      case Denied(_) => before
  }

  function WriteWords(ram: I.Words16K, ws: seq<WordWrite>): I.Words16K {
    if ws == [] then ram else
      var before, w := WriteWords(ram, ws[..|ws| - 1]), ws[|ws| - 1];
      if InRam(w.address) then before[MemoryIndex(w.address) := w.value] else before
  }

  /** Bytes and words hold the same contents after any sequence of writes,
      misaligned and out-of-range attempts included. */
  lemma {:induction false} SameRam(ram: S.Bytes64K, ws: seq<WordWrite>)
    ensures SI.WordsOf(WriteBytes(ram, ws)) == WriteWords(SI.WordsOf(ram), ws)
  {
    hide SI.WordsOf, S.WriteWord;
    if ws != [] {
      var w := ws[|ws| - 1];
      SameRam(ram, ws[..|ws| - 1]);
      if InRam(w.address) {
        RtlIsa.WordIndex(w.address);
        var i := (w.address - 0x1000_0000) / 4;
        assert 4 * i == w.address - 0x1000_0000;
        SI.ByteWriteIsWordWrite(WriteBytes(ram, ws[..|ws| - 1]), i, w.value);
      }
    }
  }

  /** Within either memory the index determines the word address. */
  lemma NoAliasing(x: Word, y: Word)
    requires (InRam(x) && InRam(y)) || (InRom(x) && InRom(y))
    ensures MemoryIndex(x) == MemoryIndex(y) <==> x == y
    ensures var i := MemoryIndex(x);
            x == (if InRam(x) then 0x1000_0000 else 0) + 4 * i
  {
    if InRam(x) {
      RtlIsa.WordIndex(x);
      RtlIsa.WordIndex(y);
    }
  }
}
