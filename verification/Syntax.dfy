/** What source text means, from its characters: comments, blank lines and labels
    on a line, and every mnemonic by name with the operands it takes. */
module Syntax {
  import opened Words
  import opened Text
  import opened Assembler
  import opened Linking
  import I = Isa
  import D = Disassembler

  // ---- Stripping ----

  predicate AllSpace(s: string) { forall c :: c in s ==> IsSpace(c) }

  lemma {:induction false} StripLeftSkips(blank: string, s: string)
    requires AllSpace(blank)
    ensures StripLeft(blank + s) == StripLeft(s)
  {
    if blank == "" {
      assert blank + s == s;
    } else {
      assert (blank + s)[1..] == blank[1..] + s && blank[0] in blank;
      assert forall c :: c in blank[1..] ==> c in blank;
      StripLeftSkips(blank[1..], s);
    }
  }

  lemma {:induction false} StripRightKeepsPrefix(front: string, s: string)
    requires front != "" && !IsSpace(front[|front| - 1])
    ensures StripRight(front + s) == front + StripRight(s)
  {
    if s == "" {
      assert front + s == front;
    } else {
      var n := |s| - 1;
      assert (front + s)[..|front + s| - 1] == front + s[..n];
      if IsSpace(s[n]) {
        StripRightKeepsPrefix(front, s[..n]);
      }
    }
  }

  lemma {:induction false} StripRightCons(x: char, s: string)
    ensures StripRight([x] + s) == if StripRight(s) == "" && IsSpace(x) then "" else [x] + StripRight(s)
  {
    if s == "" {
      assert [x] + s == [x] && [x][..0] == "";
    } else {
      var n := |s| - 1;
      assert ([x] + s)[..n + 1] == [x] + s[..n];
      if IsSpace(s[n]) {
        StripRightCons(x, s[..n]);
      }
    }
  }

  /** The two ends are stripped independently. */
  lemma {:induction false} StripCommutes(s: string)
    ensures StripLeft(StripRight(s)) == Strip(s)
  {
    if s != "" {
      assert s == [s[0]] + s[1..];
      StripRightCons(s[0], s[1..]);
      if IsSpace(s[0]) {
        StripCommutes(s[1..]);
        assert ([s[0]] + StripRight(s[1..]))[1..] == StripRight(s[1..]);
        if StripRight(s[1..]) == "" {
          assert StripLeft("") == "";
        }
      }
    }
  }

  lemma {:induction false} StripRightTwice(s: string)
    ensures StripRight(StripRight(s)) == StripRight(s)
  {
    if s != "" && IsSpace(s[|s| - 1]) {
      StripRightTwice(s[..|s| - 1]);
    }
  }

  /** Stripping again, or stripping one more space, changes nothing. */
  lemma StripLaws(s: string, c: char)
    requires IsSpace(c)
    ensures Strip([c] + s) == Strip(s) && Strip(s + [c]) == Strip(s) && Strip(StripRight(s)) == Strip(s)
  {
    assert ([c] + s)[1..] == s;
    assert (s + [c])[..|s|] == s;
    StripCommutes(s);
    StripCommutes(s + [c]);
    StripRightTwice(s);
    StripCommutes(StripRight(s));
  }

  lemma {:induction false} BlankStrips(s: string)
    requires AllSpace(s)
    ensures Strip(s) == ""
  {
    if s != "" {
      assert s[0] in s && forall c :: c in s[1..] ==> c in s;
      BlankStrips(s[1..]);
    }
  }

  // ---- One source line ----

  lemma {:induction false} CodePrefix(front: string, s: string)
    requires '#' !in front
    ensures SplitOn(front + s, '#')[0] == front + SplitOn(s, '#')[0]
  {
    if front == "" {
      assert front + s == s;
    } else {
      assert (front + s)[1..] == front[1..] + s && front[0] in front;
      CodePrefix(front[1..], s);
      assert front == [front[0]] + front[1..];
    }
  }

  lemma CodeEnds(code: string, comment: string)
    requires '#' !in code
    ensures SplitOn(code, '#')[0] == code && SplitOn(code + "#" + comment, '#')[0] == code
  {
    SplitFirst(code, '#', comment);
  }

  /** A comment runs from the first # to the end of the line and is ignored. */
  lemma CommentIgnored(code: string, comment: string, n: nat, p: Parsed)
    requires '#' !in code
    ensures ParseLine(code + "#" + comment, n, p) == ParseLine(code, n, p)
  {
    hide LeadingLabels;
    CodeEnds(code, comment);
  }

  /** A blank or comment-only line changes nothing. */
  lemma BlankLineIgnored(blank: string, comment: string, n: nat, p: Parsed)
    requires AllSpace(blank)
    ensures ParseLine(blank, n, p) == Ok(p) && ParseLine(blank + "#" + comment, n, p) == Ok(p)
  {
    assert '#' !in blank;
    CommentIgnored(blank, comment, n, p);
    CodeEnds(blank, comment);
    BlankStrips(blank);
    assert MatchLabel("").None?;
    assert LeadingLabels("") == ([], "");
  }

  /** Indentation and trailing space are ignored. */
  lemma SpaceIgnored(c: char, s: string, n: nat, p: Parsed)
    requires IsSpace(c)
    ensures ParseLine([c] + s, n, p) == ParseLine(s, n, p) && ParseLine(s + [c], n, p) == ParseLine(s, n, p)
  {
    SpacedBody(c, s);
    hide LineBody, LeadingLabels;
  }

  lemma SpacedBody(c: char, s: string)
    requires IsSpace(c)
    ensures LineBody([c] + s) == LineBody(s) == LineBody(s + [c])
  {
    hide Strip, SplitOn;
    CodePrefix([c], s);
    TrailingCode(c, s);
    StripLaws(SplitOn(s, '#')[0], c);
  }

  lemma TrailingCode(c: char, s: string)
    requires IsSpace(c)
    ensures var code := SplitOn(s, '#')[0];
            SplitOn(s + [c], '#')[0] == code || SplitOn(s + [c], '#')[0] == code + [c]
  {
    hide SplitOn;
    if '#' in s {
      var k := CommentAt(s);
      assert s == s[..k] + "#" + s[k + 1..];
      assert s + [c] == s[..k] + "#" + (s[k + 1..] + [c]);
      CodeEnds(s[..k], s[k + 1..]);
      CodeEnds(s[..k], s[k + 1..] + [c]);
    } else {
      assert '#' !in s + [c];
      CodeEnds(s, "");
      CodeEnds(s + [c], "");
    }
  }

  lemma {:induction false} CommentAt(s: string) returns (k: nat)
    requires '#' in s
    ensures k < |s| && s[k] == '#' && '#' !in s[..k]
  {
    if s[0] == '#' {
      k := 0;
    } else {
      var j := CommentAt(s[1..]);
      k := j + 1;
      assert s[..k] == [s[0]] + s[1..][..j];
    }
  }

  /** A statement on its own: no comment, no colon, no space at either end. */
  predicate IsStatement(t: string) {
    t != "" && !IsSpace(t[0]) && !IsSpace(t[|t| - 1]) && '#' !in t && ':' !in t
  }

  /** A statement is recorded as written, at the next word address. */
  lemma StatementLine(t: string, n: nat, p: Parsed)
    requires IsStatement(t)
    ensures ParseLine(t, n, p) == Ok(Parsed(p.labels, p.statements + [Statement(n, t, 4 * |p.statements|)]))
  {
    hide Strip, MatchLabel, SplitOn;
    CodeEnds(t, "");
    StripKeeps(t);
    D.LabelNeedsColon(t);
  }

  predicate IsIdentChar(c: char) { IsLower(c) || IsUpper(c) || IsDigit(c) || c == '_' }

  predicate IsIdentifier(l: string) {
    l != "" && !IsDigit(l[0]) && forall i :: 0 <= i < |l| ==> IsIdentChar(l[i])
  }

  lemma {:induction false} IdentEnds(l: string, rest: string)
    requires forall i :: 0 <= i < |l| ==> IsIdentChar(l[i])
    requires rest == "" || !IsIdentChar(rest[0])
    ensures IdentLength(l + rest) == |l|
  {
    if l == "" {
      assert l + rest == rest;
    } else {
      assert (l + rest)[1..] == l[1..] + rest;
      IdentEnds(l[1..], rest);
    }
  }

  lemma LabelMatches(l: string, gap: string, rest: string)
    requires IsIdentifier(l) && AllSpace(gap)
    ensures MatchLabel(l + gap + ":" + rest) == Some((l, rest))
  {
    var tail := gap + ":" + rest;
    var s := l + gap + ":" + rest;
    assert s == l + tail;
    assert tail[0] == ':' || (tail[0] == gap[0] && gap[0] in gap);
    IdentEnds(l, tail);
    assert s[|l|..] == tail && s[..|l|] == l && s[0] == l[0];
    assert tail == gap + (":" + rest);
    StripLeftSkips(gap, ":" + rest);
    assert (":" + rest)[1..] == rest;
  }

  /** A label in front of anything: a name already defined is the duplicate error;
      otherwise the rest of the line is parsed with the name bound to the next
      word address. Repeated, this covers any number of labels. */
  lemma LabelPrefix(l: string, gap: string, rest: string, n: nat, p: Parsed)
    requires IsIdentifier(l) && AllSpace(gap)
    ensures ParseLine(l + gap + ":" + rest, n, p) ==
            if l in p.labels then Err(DuplicateLabel)
            else ParseLine(rest, n, Parsed(p.labels[l := 4 * |p.statements|], p.statements))
  {
    hide Strip, MatchLabel, SplitOn;
    var front, code := l + gap + ":", SplitOn(rest, '#')[0];
    LabelClean(l, gap);
    CodePrefix(front, rest);
    StripFront(front, code);
    LabelMatches(l, gap, StripRight(code));
    StripLaws(code, ' ');
    var (more, body) := LeadingLabels(LineBody(rest));
    assert LeadingLabels(LineBody(front + rest)) == ([l] + more, body);
    assert ([l] + more)[0] == l && ([l] + more)[1..] == more;
  }

  lemma LabelClean(l: string, gap: string)
    requires IsIdentifier(l) && AllSpace(gap)
    ensures var front := l + gap + ":";
            front != "" && '#' !in front && !IsSpace(front[0]) && !IsSpace(front[|front| - 1])
  {
    var front := l + gap + ":";
    assert front[0] == l[0];
    forall i | 0 <= i < |front|
      ensures front[i] != '#'
    {
      if i < |l| {
        assert front[i] == l[i];
      } else if i < |l| + |gap| {
        assert front[i] == gap[i - |l|] && gap[i - |l|] in gap;
      }
    }
  }

  lemma StripFront(front: string, s: string)
    requires front != "" && !IsSpace(front[0]) && !IsSpace(front[|front| - 1])
    ensures Strip(front + s) == front + StripRight(s)
  {
    assert (front + s)[0] == front[0];
    StripRightKeepsPrefix(front, s);
  }

  /** A colon that closes no label is the label-syntax error. */
  lemma StrayColon(t: string, n: nat, p: Parsed)
    requires t != "" && !IsSpace(t[0]) && !IsSpace(t[|t| - 1]) && '#' !in t && ':' in t
    requires IsDigit(t[0]) || !IsIdentChar(t[0])
    ensures ParseLine(t, n, p) == Err(InvalidLabelSyntax)
  {
    hide Strip, SplitOn;
    CodeEnds(t, "");
    StripKeeps(t);
  }

  // ---- Splitting the source into lines ----

  /** The characters that separate lines, and those that count as space. */
  lemma Separators(c: char)
    ensures IsLineBreak(c) <==>
              c in {'\n', '\U{0B}', '\U{0C}', '\r', '\U{1C}', '\U{1D}', '\U{1E}', '\U{85}', '\U{2028}', '\U{2029}'}
    ensures IsSpace(c) <==>
              c in {' ', '\t', '\n', '\U{0B}', '\U{0C}', '\r', '\U{1C}', '\U{1D}', '\U{1E}', '\U{1F}', '\U{85}',
                    '\U{A0}'}
  {
  }

  /** A line ends at its first break; carriage return and line feed together are one. */
  lemma FirstLineSplits(l: string, b: char, rest: string)
    requires IsLine(l) && IsLineBreak(b)
    ensures SplitLines(l) == if l == "" then [] else [l]
    ensures !(b == '\r' && rest != "" && rest[0] == '\n') ==> SplitLines(l + [b] + rest) == [l] + SplitLines(rest)
    ensures SplitLines(l + "\r\n" + rest) == [l] + SplitLines(rest)
  {
    hide SplitLines;
    LastLine(l);
    if !(b == '\r' && rest != "" && rest[0] == '\n') {
      BrokenLine(l, b, rest);
    }
    PairBrokenLine(l, rest);
  }

  lemma LastLine(l: string)
    requires IsLine(l)
    ensures SplitLines(l) == if l == "" then [] else [l]
  {
    LineEnds(l, "");
    assert l + "" == l;
  }

  lemma BrokenLine(l: string, b: char, rest: string)
    requires IsLine(l) && IsLineBreak(b) && !(b == '\r' && rest != "" && rest[0] == '\n')
    ensures SplitLines(l + [b] + rest) == [l] + SplitLines(rest)
  {
    hide SplitLines, LineLength;
    LineEnds(l, [b] + rest);
    var s := l + [b] + rest;
    assert s == l + ([b] + rest);
    SplitAtBreak(s, |l|);
    assert s[|l|] == b && s[..|l|] == l && s[|l| + 1..] == rest;
    assert rest != "" ==> s[|l| + 1] == rest[0];
  }

  lemma SplitAtBreak(s: string, k: nat)
    requires k < |s| && LineLength(s) == k
    ensures SplitLines(s) == if s[k] == '\r' && k + 1 < |s| && s[k + 1] == '\n' then [s[..k]] + SplitLines(s[k + 2..])
                             else [s[..k]] + SplitLines(s[k + 1..])
  {
    hide LineLength;
  }

  lemma PairBrokenLine(l: string, rest: string)
    requires IsLine(l)
    ensures SplitLines(l + "\r\n" + rest) == [l] + SplitLines(rest)
  {
    hide SplitLines, LineLength;
    LineEnds(l, "\r\n" + rest);
    var t := l + "\r\n" + rest;
    assert t == l + ("\r\n" + rest);
    SplitAtBreak(t, |l|);
    assert t[|l|] == '\r' && t[|l| + 1] == '\n' && t[..|l|] == l && t[|l| + 2..] == rest;
  }

  lemma LineEnds(l: string, rest: string)
    requires IsLine(l) && (rest == "" || IsLineBreak(rest[0]))
    ensures LineLength(l + rest) == |l|
  {
    var s := l + rest;
    assert forall i :: 0 <= i < |l| ==> s[i] == l[i] && s[i] in l;
    assert rest != "" ==> s[|l|] == rest[0];
  }

  // ---- Letters, digits and tokens ----

  lemma LetterCase(k: nat, s: string)
    requires k < 26
    ensures ToUpper('a' + k as char) == 'A' + k as char == ToUpper('A' + k as char)
    ensures ToLower('A' + k as char) == 'a' + k as char == ToLower('a' + k as char)
    ensures |Upper(s)| == |s| == |Lower(s)|
    ensures forall i :: 0 <= i < |s| ==> Upper(s)[i] == ToUpper(s[i]) && Lower(s)[i] == ToLower(s[i])
    ensures forall c :: !IsLower(c) && !IsUpper(c) ==> ToUpper(c) == c == ToLower(c)
  {
  }

  /** Numerals are written most significant digit first. */
  lemma Numerals(n: nat, width: nat)
    ensures n < 10 ==> Decimal(n) == ['0' + n as char]
    ensures n >= 10 ==> Decimal(n) == Decimal(n / 10) + Decimal(n % 10)
    ensures Hex(n, 0) == ""
    ensures n % 16 < 10 ==> Hex(n, width + 1) == Hex(n / 16, width) + ['0' + (n % 16) as char]
    ensures n % 16 >= 10 ==> Hex(n, width + 1) == Hex(n / 16, width) + ['A' + (n % 16 - 10) as char]
  {
  }

  lemma Signs(n: nat)
    ensures SignedDecimal(n) == Decimal(n)
    ensures n > 0 ==> SignedDecimal(0 - n) == "-" + Decimal(n)
  {
    hide Decimal;
  }

  /** How printed operands and lines are laid out. */
  lemma Layout(x: string, y: string, z: string)
    ensures D.Join([x]) == x && D.Join([x, y]) == x + ", " + y && D.Join([x, y, z]) == x + ", " + y + ", " + z
    ensures Unlines([]) == "" && Unlines([x, y]) == x + "\n" + y + "\n"
  {
    JoinFront(y, [z]);
    JoinFront(x, [y]);
    JoinFront(x, [y, z]);
    hide D.Join;
    assert [x] + [y] == [x, y] && [y] + [z] == [y, z] && [x] + [y, z] == [x, y, z];
    assert x + ", " + (y + ", " + z) == x + ", " + y + ", " + z;
    assert [x, y][1..] == [y] && [y][1..] == [];
    assert Unlines([x, y]) == x + "\n" + Unlines([y]);
    assert x + "\n" + (y + "\n" + "") == x + "\n" + y + "\n";
  }

  lemma JoinFront(x: string, rest: seq<string>)
    requires rest != []
    ensures D.Join([x] + rest) == x + ", " + D.Join(rest) && D.Join([x]) == x
    ensures |rest| == 1 ==> D.Join(rest) == rest[0]
  {
    assert ([x] + rest)[1..] == rest;
  }

  lemma TokenLayout(r: RegIndex, offset: int)
    ensures D.Register(r) == "r" + Decimal(r)
    ensures D.MemoryOperand(offset, r) == SignedDecimal(offset) + "(" + D.Register(r) + ")"
  {
    hide Decimal;
  }

  /** Register names in either case: the aliases, and r followed by a number up to 31. */
  lemma RegisterNames(n: nat)
    ensures ParseRegister("zero") == Ok(0) && ParseRegister("sp") == Ok(30) && ParseRegister("ra") == Ok(31)
    ensures ParseRegister("ZERO") == Ok(0) && ParseRegister("SP") == Ok(30) && ParseRegister("RA") == Ok(31)
    ensures ParseRegister("r" + Decimal(n)) == (if n <= 31 then Ok(n) else Err(RegisterOutOfRange))
    ensures ParseRegister("R" + Decimal(n)) == ParseRegister("r" + Decimal(n))
    ensures ParseRegister("r") == Err(InvalidRegister) && ParseRegister("") == Err(InvalidRegister)
  {
    hide ParseRegister, Decimal;
    AliasNames();
    NumberedRegister(n, 'r');
    NumberedRegister(n, 'R');
    BadRegisters();
  }

  lemma BadRegisters()
    ensures ParseRegister("r") == Err(InvalidRegister) && ParseRegister("") == Err(InvalidRegister)
  {
    hide DigitsValue;
    assert Strip("") == "" && Strip("r") == "r" by { StripKeeps(""); StripKeeps("r"); }
  }

  lemma AliasNames()
    ensures ParseRegister("zero") == Ok(0) && ParseRegister("sp") == Ok(30) && ParseRegister("ra") == Ok(31)
    ensures ParseRegister("ZERO") == Ok(0) && ParseRegister("SP") == Ok(30) && ParseRegister("RA") == Ok(31)
  {
    hide Strip, DigitsValue;
    StripKeeps("zero");
    StripKeeps("sp");
    StripKeeps("ra");
    StripKeeps("ZERO");
    StripKeeps("SP");
    StripKeeps("RA");
    assert Lower("zero") == "zero" == Lower("ZERO") && Lower("sp") == "sp" == Lower("SP");
    assert Lower("ra") == "ra" == Lower("RA");
    assert "sp"[0] != "zero"[0] && "ra"[0] != "zero"[0] && "sp"[0] != "ra"[0];
  }

  lemma NumberedRegister(n: nat, r: char)
    requires r == 'r' || r == 'R'
    ensures ParseRegister([r] + Decimal(n)) == (if n <= 31 then Ok(n) else Err(RegisterOutOfRange))
  {
    hide Strip, Decimal, DigitsValue;
    DecimalRoundTrip(n);
    var digits, s := Decimal(n), [r] + Decimal(n);
    assert s[|s| - 1] == digits[|digits| - 1] && digits[|digits| - 1] in digits && digits[0] in digits;
    StripKeeps(s);
    var lowered := Lower(s);
    forall i | 1 <= i < |s|
      ensures lowered[i] == digits[i - 1]
    {
      assert s[i] == digits[i - 1] && digits[i - 1] in digits;
    }
    assert lowered[0] == 'r' && lowered[1..] == digits;
    assert "zero"[0] != 'r' && "sp"[0] != 'r' && "ra"[1] == 'a' && IsDigit(lowered[1]);
  }

  /** Signed, prefixed and superfluously zeroed literals. */
  lemma NumberForms(n: nat, width: nat)
    requires n < Pow16(width) && width > 0
    ensures ParseInt("+" + Decimal(n)) == Some(n) && ParseInt("-" + Decimal(n)) == Some(0 - n)
    ensures ParseInt("0X" + Hex(n, width)) == Some(n) && ParseInt("-0x" + Hex(n, width)) == Some(0 - n)
    ensures n > 0 ==> ParseInt("0" + Decimal(n)) == None
    ensures ParseInt("") == None
  {
    SignedForms(n);
    PrefixedForms(n, width);
    if n > 0 {
      LeadingZero(n);
    }
    assert Strip("") == "";
  }

  lemma SignedForms(n: nat)
    ensures ParseInt("+" + Decimal(n)) == Some(n) && ParseInt("-" + Decimal(n)) == Some(0 - n)
  {
    hide Strip, Decimal, UnsignedLiteral;
    DecimalRoundTrip(n);
    UnsignedDecimal(n);
    var digits, plus, minus := Decimal(n), "+" + Decimal(n), "-" + Decimal(n);
    assert digits[|digits| - 1] in digits;
    StripKeeps(plus);
    StripKeeps(minus);
    assert plus[1..] == digits && minus[1..] == digits;
  }

  lemma PrefixedForms(n: nat, width: nat)
    requires n < Pow16(width) && width > 0
    ensures ParseInt("0X" + Hex(n, width)) == Some(n) && ParseInt("-0x" + Hex(n, width)) == Some(0 - n)
  {
    HexRoundTrip(n, width);
    hide Hex, DigitsValue, ParseInt;
    var h := Hex(n, width);
    assert h[width - 1] in h;
    UpperPrefix(h, n);
    NegativePrefix(h, n);
  }

  lemma UpperPrefix(h: string, n: nat)
    requires h != "" && DigitsValue(h, 16) == Some(n) && !IsSpace(h[|h| - 1])
    ensures ParseInt("0X" + h) == Some(n)
  {
    hide DigitsValue, Strip, AllZeros;
    var s := "0X" + h;
    assert s[0] == '0' && s[1] == 'X' && s[2..] == h && s[|s| - 1] == h[|h| - 1];
    StripKeeps(s);
  }

  lemma NegativePrefix(h: string, n: nat)
    requires h != "" && DigitsValue(h, 16) == Some(n) && !IsSpace(h[|h| - 1])
    ensures ParseInt("-0x" + h) == Some(0 - n)
  {
    hide DigitsValue, Strip, AllZeros;
    var s, t := "-0x" + h, "0x" + h;
    assert s[0] == '-' && s[1..] == t && s[|s| - 1] == h[|h| - 1];
    assert t[0] == '0' && t[1] == 'x' && t[2..] == h;
    StripKeeps(s);
  }

  lemma CaseOfDigit(c: char)
    ensures DigitValue(ToLower(c)) == DigitValue(c)
  {
  }

  lemma {:induction false} CaseOfDigits(s: string)
    ensures DigitsValue(Lower(s), 16) == DigitsValue(s, 16)
  {
    if s != "" {
      var n := |s| - 1;
      CaseOfDigits(s[..n]);
      assert Lower(s)[..n] == Lower(s[..n]) && Lower(s)[n] == ToLower(s[n]);
      CaseOfDigit(s[n]);
      hide DigitValue, ToLower, Lower;
    }
  }

  /** Hexadecimal digits may be written in lower case. */
  lemma LowerHexForm(n: nat, width: nat)
    requires n < Pow16(width) && width > 0
    ensures ParseInt("0x" + Lower(Hex(n, width))) == Some(n)
  {
    HexRoundTrip(n, width);
    hide Hex, DigitsValue, ParseInt;
    var h := Hex(n, width);
    CaseOfDigits(h);
    assert h[width - 1] in h && Lower(h)[width - 1] == ToLower(h[width - 1]);
    PrefixedHexValue(Lower(h), n);
  }

  lemma LeadingZero(n: nat)
    requires n > 0
    ensures ParseInt("0" + Decimal(n)) == None
  {
    hide Strip, Decimal, DigitsValue;
    DecimalRoundTrip(n);
    var digits, s := Decimal(n), "0" + Decimal(n);
    assert digits[|digits| - 1] in digits && digits[0] in digits && s[1] == digits[0];
    StripKeeps(s);
    assert digits[0] in s;
  }

  /** Too few or too many operands, or an empty one, is the operand-count error. */
  lemma OperandCounts(ops: seq<string>, count: nat)
    requires ops != [] && D.AllClean(ops) && count != |ops|
    ensures SplitOperands(D.Join(ops), count) == Err(OperandCount)
    ensures SplitOperands(D.Join(ops), |ops|) == Ok(ops)
    ensures SplitOperands("", 0) == Ok([]) && SplitOperands("", count + 1) == Err(OperandCount)
  {
    D.OperandsRoundTrip(ops);
    assert Strip("") == "";
  }

  lemma StripPadded(g: string, x: string, h: string)
    requires AllSpace(g) && IsClean(x) && AllSpace(h)
    ensures Strip(g + x + h) == x
  {
    assert g + x + h == g + (x + h) && x[0] in x && x[|x| - 1] in x;
    StripLeftSkips(g, x + h);
    assert (x + h)[0] == x[0];
    StripRightKeepsPrefix(x, h);
    BlankStripsRight(h);
  }

  lemma {:induction false} BlankStripsRight(s: string)
    requires AllSpace(s)
    ensures StripRight(s) == ""
  {
    if s != "" {
      var n := |s| - 1;
      assert s[n] in s && forall c :: c in s[..n] ==> c in s;
      BlankStripsRight(s[..n]);
    }
  }

  /** Any space around operands and commas is ignored. */
  lemma OperandSpacing(g: string, x: string, h: string, i: string, y: string, j: string)
    requires AllSpace(g) && AllSpace(h) && AllSpace(i) && AllSpace(j) && IsClean(x) && IsClean(y)
    ensures SplitOperands(g + x + h + "," + (i + y + j), 2) == Ok([x, y])
  {
    hide Strip, SplitOn;
    var a, b := g + x + h, i + y + j;
    PaddedPlain(g, x, h);
    PaddedPlain(i, y, j);
    SplitFirst(a, ',', b);
    SplitFirst(b, ',', "");
    StripPadded(g, x, h);
    StripPadded(i, y, j);
    StripPair(a, b);
    PaddedStays(g, x, h + "," + b);
    assert a + "," + b == g + x + (h + "," + b);
  }

  lemma PaddedPlain(g: string, x: string, h: string)
    requires AllSpace(g) && IsClean(x) && AllSpace(h)
    ensures ',' !in g + x + h
  {
  }

  lemma StripPair(a: string, b: string)
    ensures StripAll([a] + [b]) == [Strip(a), Strip(b)]
  {
    hide Strip;
    assert ([a] + [b])[1..] == [b] && [b][1..] == [];
    assert StripAll([b]) == [Strip(b)] + StripAll([]);
  }

  lemma PaddedStays(g: string, x: string, rest: string)
    requires AllSpace(g) && IsClean(x)
    ensures Strip(g + x + rest) != ""
  {
    assert g + x + rest == g + (x + rest) && x[0] in x && (x + rest)[0] == x[0];
    StripLeftSkips(g, x + rest);
    D.StripNonempty(x + rest);
  }

  lemma EmptyOperand(x: string, rest: string, count: nat)
    requires ',' !in x && AllSpace(x)
    ensures SplitOperands(x + "," + rest, count) == Err(OperandCount)
  {
    hide Strip;
    var s := x + "," + rest;
    SplitFirst(x, ',', rest);
    BlankStrips(x);
    assert s == x + [','] + rest;
    var parts := SplitOn(s, ',');
    assert StripAll(parts)[0] == "";
    CommaStays(x, rest);
  }

  lemma CommaStays(x: string, rest: string)
    requires AllSpace(x)
    ensures Strip(x + "," + rest) != ""
  {
    assert x + "," + rest == x + ("," + rest);
    StripLeftSkips(x, "," + rest);
    D.StripNonempty("," + rest);
  }

  // ---- Statements by name ----

  /** Encoding this text gives a word that decodes to the instruction, or the error. */
  ghost predicate Means(text: string, line: nat, address: int, labels: Labels, meaning: Result<I.Instr>) {
    Denotes(EncodeStatement(Statement(line, text, address), labels), meaning)
  }

  lemma ByOpcode(opcode: nat, ops: seq<string>, line: nat, address: int, labels: Labels)
    requires opcode <= 0x17 && ops != [] && D.AllClean(ops)
    ensures Means(Mnemonic(opcode) + " " + D.Join(ops), line, address, labels,
                  Written(opcode, D.Join(ops), address, labels))
    ensures SplitOperands(D.Join(ops), |ops|) == Ok(ops)
  {
    hide EncodeStatement, EncodeOpcode, Written, SplitOperands, D.Join;
    D.Encodes(opcode, ops, line, address, labels);
    StatementDenotes(opcode, D.Join(ops), address, labels);
  }

  /** The eight register instructions: destination first, then the two sources. */
  lemma RegisterStatements(x: string, y: string, z: string, a: RegIndex, b: RegIndex, c: RegIndex,
                           line: nat, address: int, labels: Labels)
    requires D.AllClean([x, y, z])
    requires ParseRegister(x) == Ok(a) && ParseRegister(y) == Ok(b) && ParseRegister(z) == Ok(c)
    ensures var ops := " " + D.Join([x, y, z]);
            && Means("ADD" + ops, line, address, labels, Ok(I.Reg(I.Add, a, b, c)))
            && Means("SUB" + ops, line, address, labels, Ok(I.Reg(I.Sub, a, b, c)))
            && Means("AND" + ops, line, address, labels, Ok(I.Reg(I.And, a, b, c)))
            && Means("OR" + ops, line, address, labels, Ok(I.Reg(I.Or, a, b, c)))
            && Means("XOR" + ops, line, address, labels, Ok(I.Reg(I.Xor, a, b, c)))
            && Means("SLT" + ops, line, address, labels, Ok(I.Reg(I.Slt, a, b, c)))
            && Means("SHL" + ops, line, address, labels, Ok(I.Reg(I.Shl, a, b, c)))
            && Means("SHR" + ops, line, address, labels, Ok(I.Reg(I.Shr, a, b, c)))
  {
    hide Means, ParseRegister, SplitOperands, D.Join;
    forall opcode: nat | 1 <= opcode <= 8
      ensures Means(Mnemonic(opcode) + (" " + D.Join([x, y, z])), line, address, labels,
                    Ok(I.Reg(I.RegOp(opcode), a, b, c)))
    {
      hide Mnemonic;
      ByOpcode(opcode, [x, y, z], line, address, labels);
      assert Mnemonic(opcode) + (" " + D.Join([x, y, z])) == Mnemonic(opcode) + " " + D.Join([x, y, z]);
    }
    assert Mnemonic(1) == "ADD" && Mnemonic(2) == "SUB" && Mnemonic(3) == "AND" && Mnemonic(4) == "OR";
    assert Mnemonic(5) == "XOR" && Mnemonic(6) == "SLT" && Mnemonic(7) == "SHL" && Mnemonic(8) == "SHR";
  }

  function Ranged(v: int, low: int, high: int, i: I.Instr): Result<I.Instr> {
    if low <= v <= high then Ok(i) else Err(ValueOutOfRange)
  }

  /** ADDI takes a signed immediate, the logical ones an unsigned one, LUI an unsigned one and no source. */
  lemma ImmediateStatements(x: string, y: string, t: string, a: RegIndex, b: RegIndex, v: int,
                            line: nat, address: int, labels: Labels)
    requires D.AllClean([x, y, t]) && ParseRegister(x) == Ok(a) && ParseRegister(y) == Ok(b) && ParseInt(t) == Some(v)
    ensures var ops := " " + D.Join([x, y, t]);
            && Means("ADDI" + ops, line, address, labels, Ranged(v, -32768, 32767, I.Imm(I.Add, a, b, v)))
            && Means("ANDI" + ops, line, address, labels, Ranged(v, 0, 65535, I.Imm(I.And, a, b, v)))
            && Means("ORI" + ops, line, address, labels, Ranged(v, 0, 65535, I.Imm(I.Or, a, b, v)))
            && Means("XORI" + ops, line, address, labels, Ranged(v, 0, 65535, I.Imm(I.Xor, a, b, v)))
    ensures Means("LUI" + (" " + D.Join([x, t])), line, address, labels, Ranged(v, 0, 65535, I.Lui(a, v)))
  {
    hide Means, ParseRegister, ParseInt, SplitOperands, D.Join;
    forall opcode: nat | 9 <= opcode <= 12
      ensures Means(Mnemonic(opcode) + (" " + D.Join([x, y, t])), line, address, labels,
                    Written(opcode, D.Join([x, y, t]), address, labels))
    {
      hide Mnemonic, Written;
      ByOpcode(opcode, [x, y, t], line, address, labels);
      assert Mnemonic(opcode) + (" " + D.Join([x, y, t])) == Mnemonic(opcode) + " " + D.Join([x, y, t]);
    }
    D.OperandsRoundTrip([x, y, t]);
    assert D.AllClean([x, t]) by { assert [x, y, t][0] == x && [x, y, t][2] == t; }
    ByOpcode(0x0D, [x, t], line, address, labels);
    assert Mnemonic(0x0D) + (" " + D.Join([x, t])) == Mnemonic(0x0D) + " " + D.Join([x, t]);
    assert Mnemonic(9) == "ADDI" && Mnemonic(10) == "ANDI" && Mnemonic(11) == "ORI" && Mnemonic(12) == "XORI";
    assert Mnemonic(13) == "LUI";
  }

  /** LW and SW name the transferred register first, then offset(base). */
  lemma MemoryStatements(x: string, t: string, y: string, a: RegIndex, v: int, b: RegIndex,
                         line: nat, address: int, labels: Labels)
    requires D.AllClean([x, t, y]) && D.IsField(t) && D.IsField(y)
    requires ParseRegister(x) == Ok(a) && ParseInt(t) == Some(v) && ParseRegister(y) == Ok(b)
    ensures var ops := " " + D.Join([x, t + "(" + y + ")"]);
            && Means("LW" + ops, line, address, labels, Ranged(v, -32768, 32767, I.Lw(a, b, v)))
            && Means("SW" + ops, line, address, labels, Ranged(v, -32768, 32767, I.Sw(a, b, v)))
  {
    hide Means, ParseRegister, ParseInt, SplitOperands, D.Join, MatchMemory;
    var m := t + "(" + y + ")";
    D.MemoryMatches(t, y);
    assert D.AllClean([x, m]) by { MemoryClean(x, t, y); }
    ByOpcode(0x0E, [x, m], line, address, labels);
    ByOpcode(0x0F, [x, m], line, address, labels);
    assert Mnemonic(0x0E) + (" " + D.Join([x, m])) == Mnemonic(0x0E) + " " + D.Join([x, m]);
    assert Mnemonic(0x0F) + (" " + D.Join([x, m])) == Mnemonic(0x0F) + " " + D.Join([x, m]);
    assert Mnemonic(0x0E) == "LW" && Mnemonic(0x0F) == "SW";
  }

  /** A token that is no number, or has no parenthesized base, is its own error. */
  lemma BadTokens(x: string, y: string, t: string, line: nat, address: int, labels: Labels)
    requires D.AllClean([x, y, t]) && D.IsField(t) && ParseInt(t) == None
    ensures Means("ADDI" + (" " + D.Join([x, y, t])), line, address, labels, Err(InvalidNumber))
    ensures Means("LW" + (" " + D.Join([x, t])), line, address, labels, Err(InvalidMemoryOperand))
  {
    hide Means, ParseRegister, ParseInt, SplitOperands, D.Join, MatchMemory;
    assert IsClean([x, y, t][0]) && IsClean([x, y, t][2]);
    ByOpcode(0x09, [x, y, t], line, address, labels);
    ByOpcode(0x0E, [x, t], line, address, labels);
    NoBase(t);
    assert Mnemonic(0x09) + (" " + D.Join([x, y, t])) == Mnemonic(0x09) + " " + D.Join([x, y, t]);
    assert Mnemonic(0x0E) + (" " + D.Join([x, t])) == Mnemonic(0x0E) + " " + D.Join([x, t]);
    OthersNamed();
  }

  lemma NoBase(t: string)
    requires D.IsField(t)
    ensures MatchMemory(t) == None
  {
    assert t + "" == t && t[0] in t;
    FieldStops(t, "");
    assert t[|t|..] == "";
  }

  lemma {:induction false} FieldStops(s: string, rest: string)
    requires forall c :: c in s ==> !IsSpace(c) && c != '(' && c != ')'
    requires rest == "" || IsSpace(rest[0]) || rest[0] == '(' || rest[0] == ')'
    ensures FieldLength(s + rest) == |s|
  {
    if s == "" {
      assert s + rest == rest;
    } else {
      assert (s + rest)[1..] == s[1..] + rest && s[0] in s;
      assert forall c :: c in s[1..] ==> c in s;
      FieldStops(s[1..], rest);
    }
  }

  /** Space is allowed around both fields of a memory operand and after it, and
      nothing else may follow the closing parenthesis. */
  lemma MemorySpacing(g0: string, t: string, g1: string, g2: string, y: string, g3: string, after: string)
    requires D.IsField(t) && D.IsField(y) && AllSpace(g0) && AllSpace(g1) && AllSpace(g2) && AllSpace(g3)
    ensures MatchMemory(g0 + (t + (g1 + ("(" + (g2 + (y + (g3 + (")" + after)))))))) ==
            if StripLeft(after) == "" then Some((t, y)) else None
  {
    var v := ")" + after;
    var u := y + (g3 + v);
    var w := "(" + (g2 + u);
    var s := t + (g1 + w);
    StripLeftSkips(g0, s);
    assert s[0] == t[0] && t[0] in t && u[0] == y[0] && y[0] in y;
    FieldThen(t, g1, w);
    assert w[1..] == g2 + u;
    StripLeftSkips(g2, u);
    FieldThen(y, g3, v);
    assert v[1..] == after;
  }

  lemma FieldThen(t: string, gap: string, w: string)
    requires D.IsField(t) && AllSpace(gap) && w != "" && (w[0] == '(' || w[0] == ')')
    ensures var s := t + (gap + w);
            && FieldLength(s) == |t| && s[..|t|] == t && StripLeft(s[|t|..]) == w
  {
    assert gap != "" ==> gap[0] in gap && (gap + w)[0] == gap[0];
    assert gap == "" ==> gap + w == w;
    FieldStops(t, gap + w);
    assert (t + (gap + w))[|t|..] == gap + w;
    StripLeftSkips(gap, w);
  }

  lemma MemoryClean(x: string, t: string, y: string)
    requires D.AllClean([x, t, y])
    ensures D.AllClean([x, t + "(" + y + ")"])
  {
    assert IsClean([x, t, y][0]) && IsClean([x, t, y][1]) && IsClean([x, t, y][2]);
    var m := t + "(" + y + ")";
    forall c | c in m
      ensures !IsSpace(c) && !IsLineBreak(c) && c != ',' && c != '#' && c != ':'
    {
      assert c in t || c in y || c == '(' || c == ')';
    }
  }

  /** A target is a literal word displacement, or a label an exact number of words
      from the next instruction; either must fit the field. */
  lemma Targets(t: string, address: int, labels: Labels, d: int)
    requires ParseInt(t) == Some(d) || (ParseInt(t) == None && t in labels && labels[t] == address + 4 + 4 * d)
    ensures ResolveDisplacement(t, 16, address, labels) ==
            (if -32768 <= d <= 32767 then Ok(d) else Err(ValueOutOfRange))
    ensures ResolveDisplacement(t, 26, address, labels) ==
            (if -33554432 <= d <= 33554431 then Ok(d) else Err(ValueOutOfRange))
  {
    hide ParseInt;
  }

  lemma BadTargets(t: string, bits: nat, address: int, labels: Labels)
    requires ParseInt(t) == None
    ensures t !in labels ==> ResolveDisplacement(t, bits, address, labels) == Err(UndefinedLabel)
    ensures t in labels && (labels[t] - address) % 4 != 0 ==>
              ResolveDisplacement(t, bits, address, labels) == Err(MisalignedLabel)
  {
    hide ParseInt;
  }

  /** The branches compare their two registers in the order written; JAL links, J does not. */
  lemma ControlStatements(x: string, y: string, t: string, a: RegIndex, b: RegIndex, d: int,
                          line: nat, address: int, labels: Labels)
    requires D.AllClean([x, y, t]) && ParseRegister(x) == Ok(a) && ParseRegister(y) == Ok(b)
    requires ParseInt(t) == Some(d) || (ParseInt(t) == None && t in labels && labels[t] == address + 4 + 4 * d)
    ensures var ops := " " + D.Join([x, y, t]);
            && Means("BEQ" + ops, line, address, labels, Ranged(d, -32768, 32767, I.Branch(I.Equal, a, b, d)))
            && Means("BNE" + ops, line, address, labels, Ranged(d, -32768, 32767, I.Branch(I.NotEqual, a, b, d)))
            && Means("BLT" + ops, line, address, labels, Ranged(d, -32768, 32767, I.Branch(I.LessThan, a, b, d)))
            && Means("BGE" + ops, line, address, labels, Ranged(d, -32768, 32767, I.Branch(I.GreaterEqual, a, b, d)))
    ensures Means("J" + (" " + D.Join([t])), line, address, labels, Ranged(d, -33554432, 33554431, I.Jump(d)))
    ensures Means("JAL" + (" " + D.Join([t])), line, address, labels, Ranged(d, -33554432, 33554431, I.Jal(d)))
    ensures Means("JR" + (" " + D.Join([x])), line, address, labels, Ok(I.Jr(a)))
  {
    hide Means, ParseRegister, ParseInt, SplitOperands, D.Join, ResolveDisplacement;
    Targets(t, address, labels, d);
    assert IsClean([x, y, t][0]) && IsClean([x, y, t][2]);
    forall opcode: nat | 0x10 <= opcode <= 0x13
      ensures Means(Mnemonic(opcode) + (" " + D.Join([x, y, t])), line, address, labels,
                    Ranged(d, -32768, 32767, I.Branch(I.BranchCond(opcode), a, b, d)))
    {
      hide Mnemonic;
      ByOpcode(opcode, [x, y, t], line, address, labels);
      assert Mnemonic(opcode) + (" " + D.Join([x, y, t])) == Mnemonic(opcode) + " " + D.Join([x, y, t]);
    }
    ByOpcode(0x14, [t], line, address, labels);
    ByOpcode(0x15, [t], line, address, labels);
    ByOpcode(0x16, [x], line, address, labels);
    assert Mnemonic(0x14) + (" " + D.Join([t])) == Mnemonic(0x14) + " " + D.Join([t]);
    assert Mnemonic(0x15) + (" " + D.Join([t])) == Mnemonic(0x15) + " " + D.Join([t]);
    assert Mnemonic(0x16) + (" " + D.Join([x])) == Mnemonic(0x16) + " " + D.Join([x]);
    assert Mnemonic(0x10) == "BEQ" && Mnemonic(0x11) == "BNE" && Mnemonic(0x12) == "BLT" && Mnemonic(0x13) == "BGE";
    assert Mnemonic(0x14) == "J" && Mnemonic(0x15) == "JAL" && Mnemonic(0x16) == "JR";
  }

  /** The statements without operands. */
  lemma BareStatements(line: nat, address: int, labels: Labels)
    ensures Means("NOP", line, address, labels, Ok(I.Nop)) && Means("HALT", line, address, labels, Ok(I.Halt))
    ensures Means("RET", line, address, labels, Ok(I.Jr(31)))
  {
    hide Means, EncodeNamed;
    BareByOpcode(0x00, line, address, labels);
    BareByOpcode(0x17, line, address, labels);
    D.BareNames();
    ReturnMeans(line, address, labels);
  }

  lemma BareByOpcode(opcode: nat, line: nat, address: int, labels: Labels)
    requires opcode == 0x00 || opcode == 0x17
    ensures Means(Mnemonic(opcode), line, address, labels, Ok(if opcode == 0x00 then I.Nop else I.Halt))
  {
    hide EncodeStatement, I.Decode, Mnemonic;
    D.BareEncodes(opcode, line, address, labels);
    UnpackJ(opcode, 0);
  }

  lemma ReturnMeans(line: nat, address: int, labels: Labels)
    ensures Means("RET", line, address, labels, Ok(I.Jr(31)))
  {
    hide EncodeStatement, EncodeNamed, I.Decode;
    ReturnEncodes(line, address, labels);
    ReturnDenotes(address, labels);
  }

  lemma ReturnEncodes(line: nat, address: int, labels: Labels)
    ensures EncodeStatement(Statement(line, "RET", address), labels) == EncodeNamed("JR", "r31", address, labels)
  {
    hide SplitMnemonic, EncodeNamed;
    D.MnemonicSplits("RET", "x");
    assert Upper("RET") == "RET";
  }

  /** .word stores any 32-bit value, whether or not it decodes. */
  lemma WordStatement(t: string, v: int, line: nat, address: int, labels: Labels)
    requires IsClean(t) && ParseInt(t) == Some(v)
    ensures EncodeStatement(Statement(line, ".word" + " " + t, address), labels) ==
            (if 0 <= v <= 4294967295 then Ok(v) else Err(ValueOutOfRange))
  {
    hide SplitMnemonic, ParseInt, FindOpcode;
    assert t[0] in t;
    D.MnemonicSplits(".word", t);
    assert Upper(".word") == ".WORD";
    assert ".WORD"[0] != "RET"[0];
    D.CleanStrips(t);
  }

  const MNEMONICS: set<string> :=
    {"NOP", "ADD", "SUB", "AND", "OR", "XOR", "SLT", "SHL", "SHR", "ADDI", "ANDI", "ORI", "XORI", "LUI", "LW", "SW",
     "BEQ", "BNE", "BLT", "BGE", "J", "JAL", "JR", "HALT"}

  /** Any other name is the unknown-mnemonic error, whatever follows it. */
  lemma UnknownName(name: string, operands: string, line: nat, address: int, labels: Labels)
    requires IsClean(name) && operands != "" && !IsSpace(operands[0])
    requires Upper(name) !in MNEMONICS + {"RET", ".WORD"}
    ensures EncodeStatement(Statement(line, name + " " + operands, address), labels) == Err(UnknownMnemonic)
    ensures EncodeStatement(Statement(line, name, address), labels) == Err(UnknownMnemonic)
  {
    hide SplitMnemonic, Upper, FindOpcode;
    D.MnemonicSplits(name, operands);
    NamesListed(Upper(name));
    FoundIsNamed(Upper(name), 0);
  }

  lemma NamesListed(name: string)
    requires name !in MNEMONICS
    ensures forall opcode: nat :: opcode <= 0x17 ==> name != Mnemonic(opcode)
  {
  }

  lemma SplitsAtSpace(name: string, gap: string, operands: string)
    requires IsClean(name) && gap != "" && AllSpace(gap) && operands != "" && !IsSpace(operands[0])
    ensures SplitMnemonic(name + gap + operands) == (name, operands)
  {
    var s := name + gap + operands;
    assert s == name + (gap + operands) && name[0] in name && s[0] == name[0] && gap[0] in gap;
    D.WordEnds(name, gap + operands);
    assert s[|name|..] == gap + operands && s[..|name|] == name;
    StripLeftSkips(gap, operands);
  }

  /** The case of the mnemonic and the space after it do not matter. */
  lemma MnemonicCase(name: string, other: string, gap: string, operands: string,
                     line: nat, address: int, labels: Labels)
    requires IsClean(name) && IsClean(other) && Upper(name) == Upper(other)
    requires gap != "" && AllSpace(gap) && operands != "" && !IsSpace(operands[0])
    ensures EncodeStatement(Statement(line, name + gap + operands, address), labels) ==
            EncodeStatement(Statement(line, other + " " + operands, address), labels)
  {
    hide SplitMnemonic, Upper, EncodeNamed;
    SplitsAtSpace(name, gap, operands);
    D.MnemonicSplits(other, operands);
  }

  // ---- What the disassembler prints ----

  function OperationName(op: I.AluOp): string {
    match op
    case Add => "ADD" case Sub => "SUB" case And => "AND" case Or => "OR"
    case Xor => "XOR" case Slt => "SLT" case Shl => "SHL" case Shr => "SHR"
  }

  function BranchName(c: I.Cond): string {
    match c
    case Equal => "BEQ" case NotEqual => "BNE" case LessThan => "BLT" case GreaterEqual => "BGE"
  }

  /** The canonical text of an instruction: logical and upper immediates in four
      hexadecimal digits, everything else in decimal. */
  function Printed(i: I.Instr): string
    requires i.Imm? && i.op != I.Add ==> i.imm >= 0
    requires i.Lui? ==> i.imm >= 0
  {
    match i
    case Nop => "NOP"
    case Halt => "HALT"
    case Reg(op, a, b, c) => OperationName(op) + " " + D.Join([D.Register(a), D.Register(b), D.Register(c)])
    case Imm(op, a, b, v) =>
      if op == I.Add then "ADDI" + " " + D.Join([D.Register(a), D.Register(b), SignedDecimal(v)])
      else OperationName(op) + "I" + " " + D.Join([D.Register(a), D.Register(b), "0x" + Hex(v, 4)])
    case Lui(a, v) => "LUI" + " " + D.Join([D.Register(a), "0x" + Hex(v, 4)])
    case Lw(a, b, v) => "LW" + " " + D.Join([D.Register(a), SignedDecimal(v) + "(" + D.Register(b) + ")"])
    case Sw(a, b, v) => "SW" + " " + D.Join([D.Register(a), SignedDecimal(v) + "(" + D.Register(b) + ")"])
    case Branch(c, a, b, d) => BranchName(c) + " " + D.Join([D.Register(a), D.Register(b), SignedDecimal(d)])
    case Jump(d) => "J" + " " + D.Join([SignedDecimal(d)])
    case Jal(d) => "JAL" + " " + D.Join([SignedDecimal(d)])
    case Jr(a) => "JR" + " " + D.Join([D.Register(a)])
  }

  lemma OperationsNamed(opcode: nat)
    requires 1 <= opcode <= 8
    ensures Mnemonic(opcode) == OperationName(I.RegOp(opcode))
  {
    if opcode == 1 {} else if opcode == 2 {} else if opcode == 3 {} else if opcode == 4 {}
    else if opcode == 5 {} else if opcode == 6 {} else if opcode == 7 {} else {}
  }

  lemma BranchesNamed(opcode: nat)
    requires 0x10 <= opcode <= 0x13
    ensures Mnemonic(opcode) == BranchName(I.BranchCond(opcode))
  {
    if opcode == 0x10 {} else if opcode == 0x11 {} else if opcode == 0x12 {} else {}
  }

  lemma OthersNamed()
    ensures Mnemonic(0x09) == "ADDI" && Mnemonic(0x0A) == "ANDI" && Mnemonic(0x0B) == "ORI" && Mnemonic(0x0C) == "XORI"
    ensures Mnemonic(0x0D) == "LUI" && Mnemonic(0x0E) == "LW" && Mnemonic(0x0F) == "SW"
    ensures Mnemonic(0x14) == "J" && Mnemonic(0x15) == "JAL" && Mnemonic(0x16) == "JR"
  {
  }

  lemma FieldsPrint(w: Word, opcode: int, rd: RegIndex, rs1: RegIndex, rs2: RegIndex,
                    low11: int, imm16: int, low21: int, imm26: int)
    requires 0 <= opcode < 64 && 0 <= imm16 < 0x1_0000
    requires low21 == 0 <==> rs1 == 0 && imm16 == 0
    requires opcode == 0 || opcode == 0x17 ==> (imm26 == 0 <==> w == opcode * 0x400_0000)
    ensures D.DisassembleFields(w, opcode, rd, rs1, rs2, low11, imm16, low21, imm26) ==
            match I.DecodeFields(opcode, rd, rs1, rs2, low11, imm16, imm26)
            case Ok(i) => Printed(i)
            case _ => ".word 0x" + Hex(w, 8)
  {
    hide Mnemonic, OperationName, BranchName, D.Join, D.Register, SignedDecimal, Hex, I.RegOp, I.BranchCond, Sext16,
      Sext26;
    OthersNamed();
    LogicalNames();
    if 1 <= opcode <= 8 {
      OperationsNamed(opcode);
    } else if 0x10 <= opcode <= 0x13 {
      BranchesNamed(opcode);
    }
  }

  lemma LogicalNames()
    ensures OperationName(I.And) + "I" == "ANDI" && OperationName(I.Or) + "I" == "ORI"
    ensures OperationName(I.Xor) + "I" == "XORI"
  {
  }

  /** Every legal word prints as its instruction's canonical text, every other as .word. */
  lemma WordPrints(w: Word)
    ensures D.DisassembleWord(w) ==
            match I.Decode(w)
            case Ok(i) => Printed(i)
            case _ => ".word 0x" + Hex(w, 8)
  {
    hide D.DisassembleFields, I.DecodeFields, Printed, Hex;
    FieldOverlap(w);
    D.SplitAt(w);
    FieldsPrint(w, w / 0x400_0000, w / 0x20_0000 % 32, w / 0x1_0000 % 32, w / 0x800 % 32,
                w % 0x800, w % 0x1_0000, w % 0x20_0000, w % 0x400_0000);
  }
}
