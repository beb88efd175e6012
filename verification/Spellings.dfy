/** What the assembler accepts beyond what the printer writes, and what it refuses. */
module Spellings {
  import opened Basics
  import opened Codec
  import Container
  import opened Text
  import opened Assembly

  type Version = Container.Version

  // --- Blanks, lines and words ---

  lemma WhiteMeans(c: char)
    ensures IsWhite(c) <==>
              c as int in {9, 10, 11, 12, 13, 32, 133, 160, 5760, 8192, 8193, 8194, 8195, 8196, 8197, 8198, 8199,
                           8200, 8201, 8202, 8232, 8233, 8239, 8287, 12288}
  {
  }

  /** The last line needs no line end, and then keeps a carriage return; an empty one
      does not count. A line end is "\n", with at most one "\r" before it. */
  lemma LineEnds(s: string, rest: string)
    requires '\n' !in s
    ensures Lines(s) == if s == "" then [] else [s]
    ensures (s == "" || s[|s| - 1] != '\r') ==> Lines(s + "\n" + rest) == [s] + Lines(rest)
    ensures Lines(s + "\r" + "\n" + rest) == [s] + Lines(rest)
  {
    FindIs(s, '\n', |s|);
    FirstLine(s + "\n" + rest, s, rest);
    FirstLine(s + "\r" + "\n" + rest, s + "\r", rest);
    assert (s + "\r")[..|s|] == s;
  }

  /** Blanks of any kind around a line do not matter. */
  lemma OuterBlanksIgnored(s: string, c: char)
    requires IsWhite(c)
    ensures Content([c] + s) == Content(s) && Content(s + [c]) == Content(s)
  {
    var n := Find(s, ';');
    FindIs([c] + s, ';', n + 1);
    assert ([c] + s)[..n + 1] == [c] + s[..n];
    assert ([c] + s[..n])[1..] == s[..n];
    var t := s + [c];
    if n < |s| {
      FindIs(t, ';', n);
      assert t[..n] == s[..n];
    } else {
      FindIs(t, ';', |t|);
      assert t[..|t|] == t && s[..n] == s;
      TrimIgnoresLastBlank(s, c);
    }
  }

  /** Tokens are the maximal runs without blanks: a blank in front does not count, */
  lemma BlankFirst(c: char, s: string)
    requires IsWhite(c)
    ensures Tokens("") == [] && Tokens([c] + s) == Tokens(s)
  {
    assert ([c] + s)[1..] == s;
  }

  /** and a run that a blank or the end follows is the first. */
  lemma WordFirst(w: string, rest: string)
    requires w != "" && (forall k :: 0 <= k < |w| ==> !IsWhite(w[k])) && (rest != "" ==> IsWhite(rest[0]))
    ensures Tokens(w + rest) == [w] + Tokens(rest)
  {
    var s := w + rest;
    assert s[0] == w[0];
    WordThenBlank(w, rest);
    assert s[..|w|] == w && s[|w|..] == rest;
  }

  // --- Digits ---

  /** Decimal digits, and hexadecimal ones in either case, by their value. */
  lemma DigitMeans(c: char, d: nat)
    ensures DigitValue(c, 10) == Some(d) <==> d < 10 && "0123456789"[d] == c
    ensures DigitValue(c, 16) == Some(d) <==> d < 16 && ("0123456789abcdef"[d] == c || "0123456789ABCDEF"[d] == c)
  {
  }

  function Power(radix: nat, k: nat): nat {
    if k == 0 then 1 else Power(radix, k - 1) * radix
  }

  /** Place values: a numeral in two parts. */
  lemma {:induction false} ValueMeans(a: string, b: string, radix: Radix, x: nat, y: nat)
    requires Value(a, radix) == Some(x) && Value(b, radix) == Some(y)
    ensures Value(a + b, radix) == Some(x * Power(radix, |b|) + y)
    decreases |b|
  {
    if b == "" {
      assert a + b == a;
    } else {
      var init, c := b[..|b| - 1], b[|b| - 1];
      assert (a + b)[..|a + b| - 1] == a + init;
      var v, d := Value(init, radix).value, DigitValue(c, radix).value;
      ValueMeans(a, init, radix, x, v);
      Horner(x, Power(radix, |init|), radix, v, d);
    }
  }

  lemma Horner(x: int, p: int, radix: int, v: int, d: int)
    ensures (x * p + v) * radix + d == x * (p * radix) + (v * radix + d)
  {
  }

  lemma OneDigit(c: char, radix: Radix)
    ensures Value("", radix) == Some(0) && Value([c], radix) == DigitValue(c, radix)
  {
    assert [c][..0] == "";
  }

  /** A numeral is digits only. */
  lemma {:induction false} ValueNeedsDigits(s: string, radix: Radix)
    ensures Value(s, radix).Some? <==> forall k :: 0 <= k < |s| ==> DigitValue(s[k], radix).Some?
  {
    if s != "" {
      ValueNeedsDigits(s[..|s| - 1], radix);
    }
  }

  // --- Numbers ---

  /** An unsigned number is one or more digits, after one plus at most, of a value below
      the bound. */
  lemma UnsignedMeans(s: string, radix: Radix, bound: nat, n: nat)
    ensures ParseUnsigned(s, radix, bound) == Some(n)
       <==> n < bound && exists d :: d != "" && (s == d || s == "+" + d) && Value(d, radix) == Some(n)
  {
    var digits := if s != "" && s[0] == '+' then s[1..] else s;
    assert s == digits || s == "+" + digits;
    forall d | d != "" && (s == d || s == "+" + d) && Value(d, radix) == Some(n) ensures d == digits {
      ValueNeedsDigits(d, radix);
      assert DigitValue(d[0], radix).Some?;
      assert s == "+" + d ==> s[1..] == d;
    }
  }

  /** The widths of the decimal operands. */
  lemma DecimalWidths(n: nat)
    ensures ParseU8(Decimal(n)) == if n < 256 then Some(n) else None
    ensures ParseU16(Decimal(n)) == if n < 65536 then Some(n) else None
    ensures ParseU32(Decimal(n)) == if n < 4294967296 then Some(n) else None
  {
    DigitsValue(n, 10);
    assert Decimal(n)[0] != '+';
  }

  /** Hexadecimal operands with "0x", with "0X" or with no prefix are the same. */
  lemma HexPrefixOptional(s: string)
    requires !HexPrefixed(s)
    ensures ParseHexU64("0x" + s) == ParseHexU64("0X" + s) == ParseHexU64(s)
    ensures ParseHexU32("0x" + s) == ParseHexU32("0X" + s) == ParseHexU32(s)
  {
    assert ("0x" + s)[2..] == s && ("0X" + s)[2..] == s;
  }

  lemma HexWidths(n: nat)
    ensures ParseHexU64(Digits(n, 16)) == if n < 0x1_0000_0000_0000_0000 then Some(n) else None
    ensures ParseHexU32(Digits(n, 16)) == if n < 0x1_0000_0000 then Some(n) else None
  {
    DigitsValue(n, 16);
    var d := Digits(n, 16);
    assert IsDigit(d[0]) && (|d| >= 2 ==> IsDigit(d[1]));
  }

  function Upper(s: string): string {
    seq(|s|, i requires 0 <= i < |s| => if 'a' <= s[i] <= 'z' then s[i] - 'a' + 'A' else s[i])
  }

  /** Upper-case hexadecimal digits are worth what lower-case ones are. */
  lemma {:induction false} UpperCaseSame(s: string)
    requires IsNumeral(s) || s == ""
    ensures Value(Upper(s), 16) == Value(s, 16)
  {
    if s != "" {
      var init := s[..|s| - 1];
      UpperCaseSame(init);
      assert Upper(s)[..|s| - 1] == Upper(init);
      assert IsDigit(s[|s| - 1]);
    }
  }

  /** `const_int` reads hexadecimal as a 64-bit pattern, whose upper half is negative. */
  lemma HexIntegers(bits: u64)
    ensures ParseI64("0x" + Digits(bits, 16)) == ParseI64("0X" + Digits(bits, 16))
         == Some(if bits < 0x8000_0000_0000_0000 then bits else bits - 0x1_0000_0000_0000_0000)
  {
    DigitsValue(bits, 16);
    var d := Digits(bits, 16);
    assert ("0x" + d)[2..] == d && ("0X" + d)[2..] == d;
    NumeralIsUnsigned(d, 16, bits, TWO_64);
  }

  /** Without that prefix it reads a decimal, from -2^63 to 2^63 - 1. */
  lemma DecimalIntegers(n: int)
    ensures ParseI64(SignedDecimal(n))
         == if -0x8000_0000_0000_0000 <= n < 0x8000_0000_0000_0000 then Some(n) else None
    ensures 0 <= n ==> ParseI64("+" + SignedDecimal(n)) == ParseI64(SignedDecimal(n))
  {
    var m: nat := if n < 0 then -n else n;
    DigitsValue(m, 10);
    DecimalHasNoX(m);
    if n < 0 {
      assert SignedDecimal(n)[1..] == Digits(m, 10);
    } else {
      assert ("+" + SignedDecimal(n))[1..] == Digits(m, 10);
    }
  }

  // --- Versions and directives ---

  /** A version is "major.minor", or "major" alone, which has minor 0. */
  lemma VersionMeans(s: string, v: Version)
    ensures ParseVersion(s) == Some(v)
       <==> || ('.' !in s && ParseU16(s) == Some(v.major) && v.minor == 0)
            || exists a, b :: s == a + "." + b && '.' !in a
                 && ParseU16(a) == Some(v.major) && ParseU16(b) == Some(v.minor)
  {
    var i := Find(s, '.');
    if i < |s| {
      assert s == s[..i] + "." + s[i + 1..] && s[i] in s;
    } else {
      assert s[..i] == s && '.' !in s;
    }
    forall a, b | s == a + "." + b && '.' !in a ensures i == |a| && s[..i] == a && s[i + 1..] == b {
      assert s[|a|] == '.';
      FindIs(s, '.', |a|);
    }
  }

  lemma BareVersion(n: u16)
    ensures ParseVersion(Decimal(n)) == Some(Container.Version(n, 0))
  {
    DecimalWidths(n);
    DecimalHasNoX(n);
    VersionMeans(Decimal(n), Container.Version(n, 0));
  }

  lemma NumeralWord(s: string)
    requires IsNumeral(s)
    ensures IsWord(s)
  {
    assert forall k :: 0 <= k < |s| ==> IsDigit(s[k]) ==> !IsWhite(s[k]) && s[k] != ';';
  }

  /** A source that starts with ".version" and a bare number has that version, minor 0. */
  lemma BareVersionLine(f: FloatText, n: u16, rest: string)
    ensures Parse(f, ".version " + Decimal(n) + "\n" + rest)
         == Finish(ParseLines(f, Lines(rest), 2, Parsed(Some(Container.Version(n, 0)), [])))
  {
    BareVersion(n);
    DigitsValue(n, 10);
    NumeralWord(Decimal(n));
    VersionLineRead(f, Decimal(n), Container.Version(n, 0), rest);
  }

  /** What the first line sets when it is a version directive. */
  lemma VersionLineRead(f: FloatText, text: string, v: Version, rest: string)
    requires IsWord(text) && ParseVersion(text) == Some(v)
    ensures Parse(f, ".version " + text + "\n" + rest) == Finish(ParseLines(f, Lines(rest), 2, Parsed(Some(v), [])))
  {
    var line, source := ".version " + text, ".version " + text + "\n" + rest;
    DirectiveIsTidy("version", text);
    assert line == "." + ("version" + " " + text);
    TidyContent(line);
    FirstLine(source, line, rest);
    Directive(f, line, "version", text, 1, START);
    assert ([line] + Lines(rest))[1..] == Lines(rest);
  }

  lemma DirectiveIsTidy(word: string, text: string)
    requires IsWord(word) && IsWord(text)
    ensures IsTidy("." + (word + " " + text)) && Tokens(word + " " + text) == [word, text]
  {
    var ws := [word, text];
    assert ws[1..] == [text];
    assert Spaced(ws) == word + " " + text;
    SpacedIsTidy(ws);
    TokensOfSpaced(ws);
    var s := Spaced(ws);
    var t := "." + s;
    assert t[|t| - 1] == s[|s| - 1];
    assert forall k :: 0 < k < |t| ==> t[k] == s[k - 1];
    assert !IsWhite('.');
  }

  /** A directive other than `.version` adds nothing; `.version` sets the version, in place
      of an earlier one, or is refused. */
  lemma Directive(f: FloatText, raw: string, word: string, text: string, line: nat, st: Parsed)
    requires raw == "." + (word + " " + text) && IsWord(word) && IsWord(text)
    ensures word != "version" ==> ParseLine(f, raw, line, st) == Ok(st)
    ensures word == "version" ==>
              ParseLine(f, raw, line, st)
              == match ParseVersion(text) case Some(v) => Ok(st.(version := Some(v))) case None => Err(InvalidVersion)
  {
    DirectiveIsTidy(word, text);
    TidyContent(raw);
    assert raw[1..] == word + " " + text;
  }

  /** A version directive without a value is refused. */
  lemma BareDirective(f: FloatText, word: string, line: nat, st: Parsed)
    requires IsWord(word)
    ensures ParseLine(f, "." + word, line, st) == if word == "version" then Err(InvalidVersion) else Ok(st)
  {
    var raw := "." + word;
    assert forall k :: 0 < k < |raw| ==> raw[k] == word[k - 1];
    WordLine(raw);
    assert raw[1..] == word;
    OneToken(word);
  }

  lemma OneToken(w: string)
    requires IsWord(w)
    ensures Tokens(w) == [w]
  {
    WordFirst(w, "");
    assert w + "" == w && [w] + [] == [w];
  }

  /** A source without lines, or of an instruction alone, lacks its version. */
  lemma VersionRequired(f: FloatText, m: string)
    requires IsWord(m) && m[0] != '.' && ParseInstruction(f, m, []).Ok?
    ensures Parse(f, "") == Err(MissingVersion) && Parse(f, m) == Err(MissingVersion)
  {
    LineEnds("", "");
    assert '\n' !in m by {
      TidyContent(m);
    }
    LineEnds(m, "");
    BareInstruction(f, m, 1, START);
    OnlyLine(f, m);
  }

  lemma OnlyLine(f: FloatText, m: string)
    requires Lines(m) == [m] && ParseLine(f, m, 1, START).Ok? && ParseLine(f, m, 1, START).value.version == None
    ensures Parse(f, m) == Err(MissingVersion)
  {
    var lines := [m];
    assert lines[1..] == [];
    assert ParseLines(f, lines, 1, START) == ParseLine(f, m, 1, START);
  }

  lemma BareInstruction(f: FloatText, m: string, line: nat, st: Parsed)
    requires IsWord(m) && m[0] != '.' && ParseInstruction(f, m, []).Ok?
    ensures ParseLine(f, m, line, st)
         == Ok(st.(instructions := st.instructions + [ParseInstruction(f, m, []).value]))
  {
    WordLine(m);
    OneToken(m);
    assert [m][1..] == [];
  }

  lemma WordLine(w: string)
    requires IsWord(w)
    ensures Content(w) == w
  {
    TidyContent(w);
  }

  // --- Instructions ---

  /** The names of the instructions that take one unsigned 32-bit operand. */
  predicate TakesArity(m: string) {
    m == "initial_fill" || m == "fill" || m == "move" || m == "local_r" || m == "local_rz" || m == "measure"
  }

  predicate TakesNothing(m: string) {
    || m == "pop" || m == "dup" || m == "swap" || m == "return" || m == "halt" || m == "global_r" || m == "global_rz"
    || m == "cz" || m == "await_measure" || m == "set_detector" || m == "set_observable"
  }

  predicate TakesConstant(m: string) {
    m == "const_float" || m == "const_int" || m == "const_loc" || m == "const_lane" || m == "const_zone"
  }

  /** Exactly these names are known. */
  lemma KnownNames(f: FloatText, m: string, ops: seq<string>)
    ensures ParseInstruction(f, m, ops) == Err(UnknownMnemonic(m))
       <==> !TakesArity(m) && !TakesNothing(m) && !TakesConstant(m) && m != "new_array" && m != "get_item"
  {
  }

  /** A name that takes an operand asks for it by name; one that takes none does not. */
  lemma OperandRequired(f: FloatText, m: string)
    ensures TakesArity(m) || TakesConstant(m) || m == "new_array" || m == "get_item" ==>
              ParseInstruction(f, m, []) == Err(MissingOperand(m))
    ensures TakesNothing(m) ==> ParseInstruction(f, m, []).Ok?
  {
  }

  /** Operands beyond those an instruction takes are ignored. */
  lemma MoreOperandsIgnored(f: FloatText, m: string, ops: seq<string>, more: seq<string>)
    ensures TakesNothing(m) ==> ParseInstruction(f, m, more) == ParseInstruction(f, m, [])
    ensures (TakesArity(m) || TakesConstant(m) || m == "get_item") && |ops| == 1 ==>
              ParseInstruction(f, m, ops + more) == ParseInstruction(f, m, ops)
    ensures m == "new_array" && |ops| == 3 ==> ParseInstruction(f, m, ops + more) == ParseInstruction(f, m, ops)
  {
  }

  /** An operand out of its range, or not a number, is an invalid operand. */
  lemma BadOperandRefused(f: FloatText, m: string, op: string)
    ensures TakesArity(m) && ParseU32(op).None? ==> ParseInstruction(f, m, [op]) == Err(InvalidOperand)
    ensures m == "get_item" && ParseU16(op).None? ==> ParseInstruction(f, m, [op]) == Err(InvalidOperand)
    ensures m == "const_zone" && ParseHexU32(op).None? ==> ParseInstruction(f, m, [op]) == Err(InvalidOperand)
    ensures (m == "const_loc" || m == "const_lane") && ParseHexU64(op).None? ==>
              ParseInstruction(f, m, [op]) == Err(InvalidOperand)
    ensures m == "const_int" && ParseI64(op).None? ==> ParseInstruction(f, m, [op]) == Err(InvalidOperand)
    ensures m == "const_float" && f.parse(op).None? ==> ParseInstruction(f, m, [op]) == Err(InvalidOperand)
  {
  }

  /** `new_array` reads a tag of 8 bits and one or two dimensions of 16 bits; the first
      operand at fault decides, and a missing first dimension is reported by its own name. */
  lemma ArrayOperands(f: FloatText, a: string, b: string, c: string)
    ensures var tag, dim0, dim1 := ParseU8(a), ParseU16(b), ParseU16(c);
            && ParseInstruction(f, "new_array", [a])
                 == (if tag.None? then Err(InvalidOperand) else Err(MissingOperand("new_array dim0")))
            && ParseInstruction(f, "new_array", [a, b])
                 == (if tag.None? || dim0.None? then Err(InvalidOperand) else Ok(NewArray(tag.value, dim0.value, 0)))
            && ParseInstruction(f, "new_array", [a, b, c])
                 == (if tag.None? || dim0.None? || dim1.None? then Err(InvalidOperand)
                     else Ok(NewArray(tag.value, dim0.value, dim1.value)))
  {
    var one, two, three := [a], [a, b], [a, b, c];
    assert one[0] == a && two[0] == a && two[1] == b && three[0] == a && three[1] == b && three[2] == c;
  }
}
