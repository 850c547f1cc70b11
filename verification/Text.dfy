/** The string operations the toolchain is built from: whitespace, splitting,
    number formatting and number parsing. */
module Text {
  import opened Words

  // ---- Characters ----

  predicate IsSpace(c: char) {
    c == ' ' || '\t' <= c <= '\r' || '\U{1C}' <= c <= '\U{1F}' || c == '\U{85}' || c == '\U{A0}'
  }

  predicate IsLineBreak(c: char) {
    '\n' <= c <= '\r' || '\U{1C}' <= c <= '\U{1E}' || c == '\U{85}' || c == '\U{2028}' || c == '\U{2029}'
  }

  predicate IsDigit(c: char) { '0' <= c <= '9' }
  predicate IsLower(c: char) { 'a' <= c <= 'z' }
  predicate IsUpper(c: char) { 'A' <= c <= 'Z' }

  function ToUpper(c: char): char { if IsLower(c) then c - 'a' + 'A' else c }
  function ToLower(c: char): char { if IsUpper(c) then c - 'A' + 'a' else c }

  function Upper(s: string): string { seq(|s|, i requires 0 <= i < |s| => ToUpper(s[i])) }
  function Lower(s: string): string { seq(|s|, i requires 0 <= i < |s| => ToLower(s[i])) }

  // ---- Whitespace ----

  function StripLeft(s: string): string {
    if s != "" && IsSpace(s[0]) then StripLeft(s[1..]) else s
  }

  function StripRight(s: string): string {
    if s != "" && IsSpace(s[|s| - 1]) then StripRight(s[..|s| - 1]) else s
  }

  function Strip(s: string): string { StripRight(StripLeft(s)) }

  /** Nonempty, with nothing in it that a stripper, splitter or comment would act on. */
  predicate IsClean(s: string) {
    |s| > 0 && forall c :: c in s ==> !IsSpace(c) && !IsLineBreak(c) && c != ',' && c != '#' && c != ':'
  }

  lemma StripKeeps(s: string)
    requires s == "" || (!IsSpace(s[0]) && !IsSpace(s[|s| - 1]))
    ensures Strip(s) == s
  {
  }

  // ---- Splitting ----

  /** str.split(sep) for a one-character separator: always at least one part. */
  function SplitOn(s: string, sep: char): (r: seq<string>)
    ensures |r| >= 1
  {
    if s == "" then [""]
    else
      var rest := SplitOn(s[1..], sep);
      if s[0] == sep then [""] + rest else [[s[0]] + rest[0]] + rest[1..]
  }

  lemma {:induction false} SplitFirst(p: string, sep: char, rest: string)
    requires sep !in p
    ensures SplitOn(p, sep) == [p]
    ensures SplitOn(p + [sep] + rest, sep) == [p] + SplitOn(rest, sep)
  {
    if p == "" {
      assert p + [sep] + rest == [sep] + rest;
      assert ([sep] + rest)[1..] == rest;
    } else {
      var s := p + [sep] + rest;
      assert s[1..] == p[1..] + [sep] + rest;
      SplitFirst(p[1..], sep, rest);
      assert [p[0]] + p[1..] == p;
      assert ([p[1..]] + SplitOn(rest, sep))[1..] == SplitOn(rest, sep);
    }
  }

  /** str.splitlines(): a trailing break adds no line; CR LF is one break. */
  function SplitLines(s: string): seq<string> {
    if s == "" then [] else
      var k := LineLength(s);
      if k == |s| then [s]
      else if s[k] == '\r' && k + 1 < |s| && s[k + 1] == '\n' then [s[..k]] + SplitLines(s[k + 2..])
      else [s[..k]] + SplitLines(s[k + 1..])
  }

  function LineLength(s: string): (k: nat)
    ensures k <= |s| && (k < |s| ==> IsLineBreak(s[k])) && forall i :: 0 <= i < k ==> !IsLineBreak(s[i])
  {
    if s == "" || IsLineBreak(s[0]) then 0 else 1 + LineLength(s[1..])
  }

  predicate IsLine(s: string) { forall c :: c in s ==> !IsLineBreak(c) }

  function Unlines(lines: seq<string>): string {
    if lines == [] then "" else lines[0] + "\n" + Unlines(lines[1..])
  }

  lemma {:induction false} LinesRoundTrip(lines: seq<string>)
    requires forall l :: l in lines ==> IsLine(l)
    ensures SplitLines(Unlines(lines)) == lines
  {
    if lines != [] {
      var l, rest := lines[0], Unlines(lines[1..]);
      LinesRoundTrip(lines[1..]);
      FirstLine(l, rest);
      var s := l + "\n" + rest;
      assert s[..|l|] == l && s[|l| + 1..] == rest && s[|l|] == '\n';
    }
  }

  lemma FirstLine(l: string, rest: string)
    requires IsLine(l)
    ensures LineLength(l + "\n" + rest) == |l|
  {
    var s := l + "\n" + rest;
    assert s[|l|] == '\n';
    assert forall i :: 0 <= i < |l| ==> s[i] in l;
  }

  // ---- Numbers ----

  function DigitChar(d: nat): char
    requires d < 16
  {
    if d < 10 then '0' + d as char else 'A' + (d - 10) as char
  }

  function DigitValue(c: char): Option<nat> {
    if '0' <= c <= '9' then Some((c - '0') as nat)
    else if 'A' <= c <= 'F' then Some((c - 'A') as nat + 10)
    else if 'a' <= c <= 'f' then Some((c - 'a') as nat + 10)
    else None
  }

  /** str(n) for a natural number. */
  function Decimal(n: nat): (s: string)
    ensures s != ""
  {
    if n < 10 then [DigitChar(n)] else Decimal(n / 10) + [DigitChar(n % 10)]
  }

  function SignedDecimal(i: int): string { if i < 0 then "-" + Decimal(-i) else Decimal(i) }

  /** Hexadecimal in exactly `width` upper-case digits, for values that fit. */
  function Hex(n: nat, width: nat): string {
    if width == 0 then "" else Hex(n / 16, width - 1) + [DigitChar(n % 16)]
  }

  /** The value of a nonempty digit string, most significant first. */
  function DigitsValue(s: string, base: nat): Option<nat> {
    if s == "" then None
    else
      match DigitValue(s[|s| - 1])
      case None => None
      case Some(d) =>
        if d >= base then None
        else if |s| == 1 then Some(d)
        else
          match DigitsValue(s[..|s| - 1], base)
          case None => None
          case Some(v) => Some(v * base + d)
  }

  predicate AllZeros(s: string) { forall c :: c in s ==> c == '0' }

  /** An unsigned literal of int(token, 0): 0x hexadecimal, or decimal without a superfluous leading zero. */
  function UnsignedLiteral(s: string): Option<nat> {
    if |s| >= 2 && s[0] == '0' && (s[1] == 'x' || s[1] == 'X') then DigitsValue(s[2..], 16)
    else if |s| >= 2 && s[0] == '0' && !AllZeros(s) then None
    else DigitsValue(s, 10)
  }

  function ParseInt(token: string): Option<int> {
    var s := Strip(token);
    if s == "" then None
    else if s[0] == '-' || s[0] == '+' then
      match UnsignedLiteral(s[1..])
      case None => None
      case Some(v) => Some(if s[0] == '-' then 0 - v else v)
    else
      match UnsignedLiteral(s)
      case None => None
      case Some(v) => Some(v)
  }

  lemma DigitRoundTrip(d: nat)
    requires d < 16
    ensures DigitValue(DigitChar(d)) == Some(d)
    ensures IsDigit(DigitChar(d)) || IsUpper(DigitChar(d))
    ensures DigitChar(d) == '0' <==> d == 0
  {
  }

  lemma {:induction false} DecimalRoundTrip(n: nat)
    ensures DigitsValue(Decimal(n), 10) == Some(n)
    ensures forall c :: c in Decimal(n) ==> IsDigit(c)
    ensures Decimal(n)[0] == '0' <==> n == 0
    ensures n == 0 ==> Decimal(n) == "0"
  {
    if n < 10 {
      DigitRoundTrip(n);
    } else {
      DecimalRoundTrip(n / 10);
      DigitRoundTrip(n % 10);
      var s := Decimal(n);
      assert s[..|s| - 1] == Decimal(n / 10);
    }
  }

  function Pow16(k: nat): nat { if k == 0 then 1 else 16 * Pow16(k - 1) }

  lemma {:induction false} HexRoundTrip(n: nat, width: nat)
    requires n < Pow16(width)
    ensures |Hex(n, width)| == width
    ensures width > 0 ==> DigitsValue(Hex(n, width), 16) == Some(n)
    ensures forall c :: c in Hex(n, width) ==> IsDigit(c) || IsUpper(c)
  {
    if width > 0 {
      HexRoundTrip(n / 16, width - 1);
      DigitRoundTrip(n % 16);
      var s := Hex(n, width);
      assert s[..|s| - 1] == Hex(n / 16, width - 1);
    }
  }

  lemma SignedDecimalRoundTrip(i: int)
    ensures ParseInt(SignedDecimal(i)) == Some(i)
    ensures IsClean(SignedDecimal(i))
    ensures forall c :: c in SignedDecimal(i) ==> c != '(' && c != ')'
  {
    hide Decimal, UnsignedLiteral, Strip;
    var s := SignedDecimal(i);
    var n: nat := if i < 0 then -i else i;
    DecimalRoundTrip(n);
    assert forall c :: c in s ==> IsDigit(c) || c == '-';
    assert s[0] in s && s[|s| - 1] in s;
    StripKeeps(s);
    if i < 0 {
      assert s[1..] == Decimal(n);
    }
    UnsignedDecimal(n);
  }

  lemma UnsignedDecimal(n: nat)
    ensures UnsignedLiteral(Decimal(n)) == Some(n)
  {
    DecimalRoundTrip(n);
    var s := Decimal(n);
    if |s| >= 2 {
      assert s[1] in s;
    }
  }

  lemma PrefixedHexValue(h: string, n: nat)
    requires h != "" && DigitsValue(h, 16) == Some(n) && !IsSpace(h[|h| - 1])
    ensures ParseInt("0x" + h) == Some(n)
  {
    hide DigitsValue, Strip, AllZeros;
    var s := "0x" + h;
    assert s[0] == '0' && s[1] == 'x' && s[2..] == h && s[|s| - 1] == h[|h| - 1];
    StripKeeps(s);
  }

  lemma PrefixedHexClean(h: string)
    requires forall c :: c in h ==> IsDigit(c) || IsUpper(c)
    ensures IsClean("0x" + h)
  {
    forall c | c in "0x" + h
      ensures !IsSpace(c) && !IsLineBreak(c) && c != ',' && c != '#' && c != ':'
    {
      assert c in h || c == '0' || c == 'x';
    }
  }

  lemma HexLiteralRoundTrip(n: nat, width: nat)
    requires n < Pow16(width) && width > 0
    ensures ParseInt("0x" + Hex(n, width)) == Some(n)
    ensures IsClean("0x" + Hex(n, width))
  {
    HexRoundTrip(n, width);
    hide Hex, DigitsValue, ParseInt, IsClean;
    var h := Hex(n, width);
    assert h[width - 1] in h;
    PrefixedHexValue(h, n);
    PrefixedHexClean(h);
  }
}
