/** Text as the assembler sees it: lines, comments and tokens; numbers. */
module Text {
  import opened Basics
  import opened Codec

  // --- Characters and lines ---

  /** Unicode White_Space. */
  predicate IsWhite(c: char) {
    var x := c as int;
    || 9 <= x <= 13 || x == 0x20 || x == 0x85 || x == 0xA0 || x == 0x1680
    || 0x2000 <= x <= 0x200A || x == 0x2028 || x == 0x2029 || x == 0x202F || x == 0x205F || x == 0x3000
  }

  /** The position of the first `c`, or the length. */
  function Find(s: string, c: char): (i: nat)
    ensures i <= |s|
    ensures forall k :: 0 <= k < i ==> s[k] != c
    ensures i < |s| ==> s[i] == c
  {
    if s == "" || s[0] == c then 0
    else
      var i := Find(s[1..], c);
      assert forall k :: 0 < k <= i ==> s[k] == s[1..][k - 1];
      i + 1
  }

  lemma FindIs(s: string, c: char, i: nat)
    requires i <= |s| && (forall k :: 0 <= k < i ==> s[k] != c) && (i < |s| ==> s[i] == c)
    ensures Find(s, c) == i
  {
  }

  function StripCr(s: string): string {
    if s != "" && s[|s| - 1] == '\r' then s[..|s| - 1] else s
  }

  /** Line ends are "\n" or "\r\n"; a last line needs none, and an empty one does not count. */
  function Lines(s: string): seq<string> {
    var i := Find(s, '\n');
    if s == "" then []
    else if i == |s| then [s]
    else [StripCr(s[..i])] + Lines(s[i + 1..])
  }

  predicate EndsLine(s: string) {
    s == "" || s[|s| - 1] == '\n'
  }

  lemma FirstLine(s: string, line: string, rest: string)
    requires s == line + "\n" + rest && '\n' !in line
    ensures Lines(s) == [StripCr(line)] + Lines(rest)
  {
    FindIs(s, '\n', |line|);
    assert s[..|line|] == line && s[|line| + 1..] == rest;
  }

  lemma CutFirstLine(s: string) returns (line: string, rest: string)
    requires s != "" && EndsLine(s)
    ensures s == line + "\n" + rest && '\n' !in line && EndsLine(rest)
  {
    var i := Find(s, '\n');
    line, rest := s[..i], s[i + 1..];
    assert rest != "" ==> rest[|rest| - 1] == s[|s| - 1];
  }

  lemma Associate<T>(x: seq<T>, y: seq<T>, z: seq<T>)
    ensures x + y + z == x + (y + z)
  {
  }

  lemma FirstLineThenTail(s: string, first: string, rest: string, tail: string)
    requires s == first + "\n" + rest && '\n' !in first
    requires Lines(rest + tail) == Lines(rest) + Lines(tail)
    ensures Lines(s + tail) == Lines(s) + Lines(tail)
  {
    FirstLine(s, first, rest);
    Associate(first + "\n", rest, tail);
    FirstLine(s + tail, first, rest + tail);
    Associate([StripCr(first)], Lines(rest), Lines(tail));
  }

  /** Splitting after a line end splits the lines. */
  lemma {:induction false} LinesAppend(before: string, tail: string)
    requires EndsLine(before)
    ensures Lines(before + tail) == Lines(before) + Lines(tail)
    decreases |before|
  {
    if before == "" {
      assert before + tail == tail;
    } else {
      var first, rest := CutFirstLine(before);
      LinesAppend(rest, tail);
      FirstLineThenTail(before, first, rest, tail);
    }
  }

  function TrimStart(s: string): (r: string)
    ensures |r| <= |s|
    ensures r != "" ==> !IsWhite(r[0])
  {
    if s == "" || !IsWhite(s[0]) then s else TrimStart(s[1..])
  }

  function TrimEnd(s: string): (r: string)
    ensures r <= s
    ensures r != "" ==> !IsWhite(r[|r| - 1])
  {
    if s == "" || !IsWhite(s[|s| - 1]) then s else TrimEnd(s[..|s| - 1])
  }

  function Trim(s: string): (r: string)
    ensures r != "" ==> !IsWhite(r[0]) && !IsWhite(r[|r| - 1])
  {
    TrimEnd(TrimStart(s))
  }

  /** What is left of a line without its comment and outer blanks. */
  function Content(raw: string): (r: string)
    ensures r != "" ==> !IsWhite(r[0])
  {
    Trim(raw[..Find(raw, ';')])
  }

  function WordLength(s: string): (n: nat)
    ensures n <= |s|
  {
    if s == "" || IsWhite(s[0]) then 0 else 1 + WordLength(s[1..])
  }

  /** Maximal runs without blanks. */
  function Tokens(s: string): seq<string>
    decreases |s|
  {
    var t := TrimStart(s);
    if t == "" then []
    else
      var n := WordLength(t);
      [t[..n]] + Tokens(t[n..])
  }

  lemma FirstTokenExists(s: string)
    requires s != "" && !IsWhite(s[0])
    ensures Tokens(s) != []
  {
  }

  /** A carriage return at the end of a line never matters. */
  lemma ContentIgnoresCr(s: string)
    ensures Content(StripCr(s)) == Content(s)
  {
    var n := Find(s, ';');
    var t := StripCr(s);
    if t != s {
      if n < |s| {
        FindIs(t, ';', n);
        assert t[..n] == s[..n];
      } else {
        FindIs(t, ';', |t|);
        assert s[..n] == t + "\r";
        assert t[..|t|] == t;
        TrimIgnoresLastBlank(t, '\r');
      }
    }
  }

  lemma TrimIgnoresLastBlank(s: string, c: char)
    requires IsWhite(c)
    ensures Trim(s + [c]) == Trim(s)
  {
    TrimStartAppend(s, c);
    var t := TrimStart(s);
    if t != "" {
      assert (t + [c])[..|t|] == t;
    }
  }

  lemma {:induction false} TrimStartAppend(s: string, c: char)
    requires IsWhite(c)
    ensures TrimStart(s + [c]) == if TrimStart(s) == "" then "" else TrimStart(s) + [c]
  {
    if s == "" {
      assert ("" + [c])[1..] == "";
    } else if IsWhite(s[0]) {
      assert (s + [c])[1..] == s[1..] + [c];
      TrimStartAppend(s[1..], c);
    }
  }

  /** What follows a semicolon never matters. */
  lemma ContentIgnoresComment(s: string, note: string)
    ensures Content(s + ";" + note) == Content(s)
  {
    var t := s + ";" + note;
    var n := Find(s, ';');
    FindIs(t, ';', n);
    assert t[..n] == s[..n];
  }

  // --- Words put side by side ---

  predicate IsWord(w: string) {
    w != "" && forall k :: 0 <= k < |w| ==> !IsWhite(w[k]) && w[k] != ';'
  }

  ghost predicate AreWords(ws: seq<string>) {
    forall i :: 0 <= i < |ws| ==> IsWord(ws[i])
  }

  function Spaced(ws: seq<string>): string {
    if ws == [] then ""
    else if |ws| == 1 then ws[0]
    else ws[0] + " " + Spaced(ws[1..])
  }

  lemma {:induction false} WordThenBlank(w: string, rest: string)
    requires forall k :: 0 <= k < |w| ==> !IsWhite(w[k])
    requires rest != "" ==> IsWhite(rest[0])
    ensures WordLength(w + rest) == |w|
  {
    if w == "" {
      assert w + rest == rest;
    } else {
      assert (w + rest)[1..] == w[1..] + rest;
      WordThenBlank(w[1..], rest);
    }
  }

  lemma TokensStep(w: string, rest: string)
    requires IsWord(w) && (rest != "" ==> IsWhite(rest[0]))
    ensures Tokens(w + rest) == [w] + Tokens(rest)
  {
    var s := w + rest;
    assert s[0] == w[0];
    WordThenBlank(w, rest);
    assert s[..|w|] == w && s[|w|..] == rest;
  }

  lemma TokensAfterBlank(s: string)
    ensures Tokens(" " + s) == Tokens(s)
  {
    assert (" " + s)[1..] == s;
  }

  lemma {:induction false} TokensOfSpaced(ws: seq<string>)
    requires AreWords(ws)
    ensures Tokens(Spaced(ws)) == ws
  {
    if |ws| == 1 {
      TokensStep(ws[0], "");
      assert ws[0] + "" == ws[0] && [ws[0]] + [] == ws;
    } else if |ws| > 1 {
      var rest := Spaced(ws[1..]);
      TokensOfSpaced(ws[1..]);
      TokensAfterBlank(rest);
      TokensStep(ws[0], " " + rest);
      assert ws[0] + " " + rest == ws[0] + (" " + rest);
      assert [ws[0]] + ws[1..] == ws;
    }
  }

  /** A line that reading leaves as it is. */
  predicate IsTidy(s: string) {
    && s != "" && !IsWhite(s[0]) && !IsWhite(s[|s| - 1])
    && forall k :: 0 <= k < |s| ==> s[k] != '\n' && s[k] != ';'
  }

  lemma {:induction false} SpacedIsTidy(ws: seq<string>)
    requires ws != [] && AreWords(ws)
    ensures IsTidy(Spaced(ws)) && Spaced(ws)[0] == ws[0][0]
  {
    if |ws| > 1 {
      SpacedIsTidy(ws[1..]);
    }
  }

  lemma TidyContent(s: string)
    requires IsTidy(s)
    ensures Content(s) == s && StripCr(s) == s && '\n' !in s
  {
    FindIs(s, ';', |s|);
    assert s[..|s|] == s;
  }

  // --- Numbers ---

  type Radix = r: nat | r == 10 || r == 16 witness 10

  function DigitValue(c: char, radix: Radix): Option<nat> {
    if '0' <= c <= '9' then Some(c as int - '0' as int)
    else if radix == 16 && 'a' <= c <= 'f' then Some(c as int - 'a' as int + 10)
    else if radix == 16 && 'A' <= c <= 'F' then Some(c as int - 'A' as int + 10)
    else None
  }

  function Value(s: string, radix: Radix): Option<nat> {
    if s == "" then Some(0)
    else
      match Value(s[..|s| - 1], radix)
      case None => None
      case Some(v) =>
        match DigitValue(s[|s| - 1], radix)
        case None => None
        case Some(d) => Some(v * radix + d)
  }

  /** An unsigned integer below `bound`, with an optional leading plus. */
  function ParseUnsigned(s: string, radix: Radix, bound: nat): (r: Option<nat>)
    ensures r.Some? ==> r.value < bound
  {
    var digits := if s != "" && s[0] == '+' then s[1..] else s;
    if digits == "" then None
    else
      match Value(digits, radix)
      case Some(n) => if n < bound then Some(n) else None
      case None => None
  }

  function ParseU8(s: string): Option<u8> {
    match ParseUnsigned(s, 10, 0x100) case Some(n) => Some(n) case None => None
  }

  function ParseU16(s: string): Option<u16> {
    match ParseUnsigned(s, 10, 0x1_0000) case Some(n) => Some(n) case None => None
  }

  function ParseU32(s: string): Option<u32> {
    match ParseUnsigned(s, 10, 0x1_0000_0000) case Some(n) => Some(n) case None => None
  }

  predicate HexPrefixed(s: string) {
    |s| >= 2 && s[0] == '0' && (s[1] == 'x' || s[1] == 'X')
  }

  function StripHexPrefix(s: string): string {
    if HexPrefixed(s) then s[2..] else s
  }

  function ParseHexU32(s: string): Option<u32> {
    match ParseUnsigned(StripHexPrefix(s), 16, 0x1_0000_0000) case Some(n) => Some(n) case None => None
  }

  function ParseHexU64(s: string): Option<u64> {
    match ParseUnsigned(StripHexPrefix(s), 16, 0x1_0000_0000_0000_0000) case Some(n) => Some(n) case None => None
  }

  /** Signed decimal, or hexadecimal digits read as the 64-bit pattern. */
  function ParseI64(s: string): Option<i64> {
    if HexPrefixed(s) then
      match ParseUnsigned(s[2..], 16, 0x1_0000_0000_0000_0000)
      case Some(bits) => Some(BitsI64(bits))
      case None => None
    else if s != "" && s[0] == '-' then
      if s[1..] == "" then None
      else
        match Value(s[1..], 10)
        case Some(m) =>
          var n: int := m;
          if n <= 0x8000_0000_0000_0000 then Some(-n) else None
        case None => None
    else
      match ParseUnsigned(s, 10, 0x8000_0000_0000_0000)
      case Some(n) => Some(n)
      case None => None
  }

  function DigitChar(d: nat): char
    requires d < 16
  {
    if d < 10 then (d + '0' as int) as char else (d - 10 + 'a' as int) as char
  }

  function Digits(n: nat, radix: Radix): string {
    if n < radix then [DigitChar(n)] else Digits(n / radix, radix) + [DigitChar(n % radix)]
  }

  function Zeros(k: nat): string {
    seq(k, _ => '0')
  }

  /** "0x" and lower-case digits, at least `width` of them. */
  function Hex(n: nat, width: nat): string {
    var d := Digits(n, 16);
    "0x" + Zeros(if |d| < width then width - |d| else 0) + d
  }

  function Decimal(n: nat): string {
    Digits(n, 10)
  }

  function SignedDecimal(n: int): string {
    if n < 0 then "-" + Digits(-n, 10) else Digits(n, 10)
  }

  /** What printed numbers are made of. */
  predicate IsDigit(c: char) {
    '0' <= c <= '9' || 'a' <= c <= 'f'
  }

  ghost predicate IsNumeral(s: string) {
    s != "" && forall k :: 0 <= k < |s| ==> IsDigit(s[k])
  }

  lemma DivideSmaller(n: nat, radix: Radix)
    requires n >= radix
    ensures n / radix * radix + n % radix == n && 0 < n / radix < n
  {
    if radix == 10 {
    } else {
      assert radix == 16;
    }
  }

  lemma {:induction false} DigitsValue(n: nat, radix: Radix)
    ensures Value(Digits(n, radix), radix) == Some(n)
    ensures IsNumeral(Digits(n, radix))
  {
    if n < radix {
      DigitBack(n, radix);
      DigitAppended("", 0, n, DigitChar(n), radix);
      assert "" + [DigitChar(n)] == [DigitChar(n)];
    } else {
      DivideSmaller(n, radix);
      DigitsValue(n / radix, radix);
      DigitBack(n % radix, radix);
      DigitAppended(Digits(n / radix, radix), n / radix, n % radix, DigitChar(n % radix), radix);
    }
  }

  lemma DigitBack(d: nat, radix: Radix)
    requires d < radix
    ensures DigitValue(DigitChar(d), radix) == Some(d) && IsDigit(DigitChar(d))
  {
  }

  lemma DigitAppended(s: string, v: nat, d: nat, c: char, radix: Radix)
    requires Value(s, radix) == Some(v) && forall k :: 0 <= k < |s| ==> IsDigit(s[k])
    requires DigitValue(c, radix) == Some(d) && IsDigit(c)
    ensures Value(s + [c], radix) == Some(v * radix + d) && IsNumeral(s + [c])
  {
    assert (s + [c])[..|s|] == s;
  }

  lemma {:induction false} LeadingZeros(k: nat, s: string, radix: Radix)
    ensures Value(Zeros(k) + s, radix) == Value(s, radix)
    decreases |s| + k
  {
    if s != "" {
      assert (Zeros(k) + s)[..k + |s| - 1] == Zeros(k) + s[..|s| - 1];
      LeadingZeros(k, s[..|s| - 1], radix);
    } else if k > 0 {
      assert (Zeros(k) + s)[..k - 1] == Zeros(k - 1) + "";
      LeadingZeros(k - 1, "", radix);
    }
  }

  lemma UnsignedRoundTrip(n: nat, bound: nat)
    requires n < bound
    ensures ParseUnsigned(Decimal(n), 10, bound) == Some(n)
    ensures IsNumeral(Decimal(n))
  {
    DigitsValue(n, 10);
    NumeralIsUnsigned(Decimal(n), 10, n, bound);
  }

  lemma PaddedValue(k: nat, d: string, n: nat)
    requires IsNumeral(d) && Value(d, 16) == Some(n)
    ensures IsNumeral(Zeros(k) + d) && Value(Zeros(k) + d, 16) == Some(n)
  {
    LeadingZeros(k, d, 16);
  }

  lemma NumeralIsUnsigned(s: string, radix: Radix, n: nat, bound: nat)
    requires IsNumeral(s) && Value(s, radix) == Some(n) && n < bound
    ensures ParseUnsigned(s, radix, bound) == Some(n)
  {
    assert IsDigit(s[0]);
  }

  lemma HexDigits(n: nat, width: nat) returns (s: string)
    ensures Hex(n, width) == "0x" + s && IsNumeral(s) && Value(s, 16) == Some(n)
  {
    var d := Digits(n, 16);
    var k := if |d| < width then width - |d| else 0;
    s := Zeros(k) + d;
    Associate("0x", Zeros(k), d);
    assert IsNumeral(s) && Value(s, 16) == Some(n) by {
      DigitsValue(n, 16);
      PaddedValue(k, d, n);
    }
  }

  lemma HexRoundTrip(n: nat, width: nat, bound: nat)
    requires n < bound
    ensures ParseUnsigned(StripHexPrefix(Hex(n, width)), 16, bound) == Some(n)
  {
    var s := HexDigits(n, width);
    assert ("0x" + s)[2..] == s;
    NumeralIsUnsigned(s, 16, n, bound);
  }

  lemma SignedRoundTrip(n: i64)
    ensures ParseI64(SignedDecimal(n)) == Some(n)
  {
    var v: int := n;
    var m: nat := if v < 0 then -v else v;
    DigitsValue(m, 10);
    DecimalHasNoX(m);
    if n < 0 {
      assert SignedDecimal(n)[1..] == Digits(m, 10);
    }
  }

  lemma {:induction false} DecimalHasNoX(n: nat)
    ensures forall k :: 0 <= k < |Decimal(n)| ==> '0' <= Decimal(n)[k] <= '9'
  {
    var d := Decimal(n);
    if n >= 10 {
      DecimalHasNoX(n / 10);
      assert d == Decimal(n / 10) + [DigitChar(n % 10)];
    }
  }
}
