/** The text printer, and the round trip through text. */
module Disassembly {
  import opened Basics
  import opened Codec
  import Container
  import opened Text
  import opened Assembly

  type Version = Container.Version
  type Program = Container.Program

  // --- Printing ---

  /** The display form, with a decimal point forced into it. */
  function FormatFloat(f: FloatText, bits: u64): string {
    var s := f.display(bits);
    if '.' in s || 'e' in s || 'E' in s then s else s + ".0"
  }

  function Mnemonic(i: Instruction): string {
    match i
    case ConstFloat(_) => "const_float"
    case ConstInt(_) => "const_int"
    case Pop => "pop"
    case Dup => "dup"
    case Swap => "swap"
    case Return => "return"
    case Halt => "halt"
    case ConstLoc(_) => "const_loc"
    case ConstLane(_, _) => "const_lane"
    case ConstZone(_) => "const_zone"
    case InitialFill(_) => "initial_fill"
    case Fill(_) => "fill"
    case MoveAtoms(_) => "move"
    case LocalR(_) => "local_r"
    case LocalRz(_) => "local_rz"
    case GlobalR => "global_r"
    case GlobalRz => "global_rz"
    case CZ => "cz"
    case Measure(_) => "measure"
    case AwaitMeasure => "await_measure"
    case NewArray(_, _, _) => "new_array"
    case GetItem(_) => "get_item"
    case SetDetector => "set_detector"
    case SetObservable => "set_observable"
  }

  function Operands(f: FloatText, i: Instruction): seq<string> {
    match i
    case ConstFloat(bits) => [FormatFloat(f, bits)]
    case ConstInt(n) => [SignedDecimal(n)]
    case ConstLoc(n) => [Hex(n, 8)]
    case ConstLane(d0, d1) => [Hex(Join(d0, d1), 16)]
    case ConstZone(n) => [Hex(n, 8)]
    case InitialFill(n) => [Decimal(n)]
    case Fill(n) => [Decimal(n)]
    case MoveAtoms(n) => [Decimal(n)]
    case LocalR(n) => [Decimal(n)]
    case LocalRz(n) => [Decimal(n)]
    case Measure(n) => [Decimal(n)]
    case NewArray(tag, dim0, dim1) =>
      if dim1 == 0 then [Decimal(tag), Decimal(dim0)] else [Decimal(tag), Decimal(dim0), Decimal(dim1)]
    case GetItem(n) => [Decimal(n)]
    case _ => []
  }

  function PrintInstruction(f: FloatText, i: Instruction): string {
    Spaced([Mnemonic(i)] + Operands(f, i))
  }

  function VersionText(v: Version): string {
    Decimal(v.major) + "." + Decimal(v.minor)
  }

  function PrintVersion(v: Version): string {
    ".version " + VersionText(v)
  }

  function InstructionLines(f: FloatText, instructions: seq<Instruction>): (r: seq<string>)
    ensures |r| == |instructions|
    ensures forall i :: 0 <= i < |r| ==> r[i] == PrintInstruction(f, instructions[i])
  {
    seq(|instructions|, i requires 0 <= i < |instructions| => PrintInstruction(f, instructions[i]))
  }

  /** Every line, each ended by a line feed. */
  function TextOf(lines: seq<string>): string {
    if lines == [] then "" else TextOf(lines[..|lines| - 1]) + lines[|lines| - 1] + "\n"
  }

  function Print(f: FloatText, p: Program): string {
    TextOf([PrintVersion(p.version)] + InstructionLines(f, p.instructions))
  }

  method PrintText(f: FloatText, p: Program) returns (out: string)
    ensures out == Print(f, p)
  {
    out := PrintVersion(p.version) + "\n";
    ghost var lines := [PrintVersion(p.version)] + InstructionLines(f, p.instructions);
    assert lines[..1] == [PrintVersion(p.version)];
    for i := 0 to |p.instructions|
      invariant out == TextOf(lines[..i + 1])
    {
      assert lines[..i + 2][..i + 1] == lines[..i + 1];
      out := out + PrintInstruction(f, p.instructions[i]);
      out := out + "\n";
    }
    assert lines[..|lines|] == lines;
  }

  // --- Round trip ---

  lemma {:induction false} LinesOfText(lines: seq<string>)
    requires forall i :: 0 <= i < |lines| ==> IsTidy(lines[i])
    ensures Lines(TextOf(lines)) == lines && EndsLine(TextOf(lines))
  {
    if lines != [] {
      var n := |lines| - 1;
      LinesOfText(lines[..n]);
      TidyContent(lines[n]);
      LinesAround(TextOf(lines[..n]), lines[n], "");
      Associate(TextOf(lines[..n]), lines[n], "\n");
      assert lines[n] + "\n" + "" == lines[n] + "\n";
      assert [lines[n]] + [] == [lines[n]] && lines[..n] + [lines[n]] == lines;
    }
  }

  lemma NumeralIsWord(s: string)
    requires IsNumeral(s)
    ensures IsWord(s)
  {
    assert forall k :: 0 <= k < |s| ==> IsDigit(s[k]) ==> !IsWhite(s[k]) && s[k] != ';';
  }

  lemma NumbersAreWords(n: nat, width: nat)
    ensures IsWord(Decimal(n)) && IsWord("-" + Decimal(n)) && IsWord(Hex(n, width))
  {
    DigitsValue(n, 10);
    NumeralIsWord(Decimal(n));
    var s := HexDigits(n, width);
    NumeralIsWord(s);
  }

  lemma OperandsAreWords(f: FloatText, i: Instruction)
    requires DisplaysWords(f)
    ensures AreWords(Operands(f, i))
  {
    match i
    case ConstFloat(bits) =>
      assert IsWord(f.display(bits));
    case ConstInt(v) =>
      var n: int := v;
      NumbersAreWords(if n < 0 then -n else n, 0);
    case ConstLoc(n) => NumbersAreWords(n, 8);
    case ConstLane(d0, d1) => NumbersAreWords(Join(d0, d1), 16);
    case ConstZone(n) => NumbersAreWords(n, 8);
    case InitialFill(n) => NumbersAreWords(n, 0);
    case Fill(n) => NumbersAreWords(n, 0);
    case MoveAtoms(n) => NumbersAreWords(n, 0);
    case LocalR(n) => NumbersAreWords(n, 0);
    case LocalRz(n) => NumbersAreWords(n, 0);
    case Measure(n) => NumbersAreWords(n, 0);
    case NewArray(tag, dim0, dim1) =>
      NumbersAreWords(tag, 0);
      NumbersAreWords(dim0, 0);
      NumbersAreWords(dim1, 0);
    case GetItem(n) => NumbersAreWords(n, 0);
    case _ =>
  }

  lemma MnemonicIsWord(i: Instruction)
    ensures IsWord(Mnemonic(i)) && Mnemonic(i)[0] != '.'
  {
    if IsBareCpu(i) || IsBareGate(i) {
      BareMnemonicIsWord(i);
    } else if IsConstant(i) {
      ConstantMnemonicIsWord(i);
    } else if IsBareOther(i) {
      BareOtherMnemonicIsWord(i);
    } else {
      OtherMnemonicIsWord(i);
    }
  }

  predicate IsBareCpu(i: Instruction) {
    i.Pop? || i.Dup? || i.Swap? || i.Return? || i.Halt?
  }

  predicate IsBareGate(i: Instruction) {
    i.GlobalR? || i.GlobalRz? || i.CZ?
  }

  predicate IsBareOther(i: Instruction) {
    i.AwaitMeasure? || i.SetDetector? || i.SetObservable?
  }

  predicate IsConstant(i: Instruction) {
    i.ConstFloat? || i.ConstInt? || i.ConstLoc? || i.ConstLane? || i.ConstZone?
  }

  lemma BareMnemonicIsWord(i: Instruction)
    requires IsBareCpu(i) || IsBareGate(i)
    ensures IsWord(Mnemonic(i)) && Mnemonic(i)[0] != '.'
  {
  }

  lemma ConstantMnemonicIsWord(i: Instruction)
    requires IsConstant(i)
    ensures IsWord(Mnemonic(i)) && Mnemonic(i)[0] != '.'
  {
  }

  lemma BareOtherMnemonicIsWord(i: Instruction)
    requires IsBareOther(i)
    ensures IsWord(Mnemonic(i)) && Mnemonic(i)[0] != '.'
  {
  }

  lemma OtherMnemonicIsWord(i: Instruction)
    requires !IsBareCpu(i) && !IsBareGate(i) && !IsBareOther(i) && !IsConstant(i)
    ensures IsWord(Mnemonic(i)) && Mnemonic(i)[0] != '.'
  {
  }

  /** The instruction that reading a printed one gives. */
  function Reread(f: FloatText, i: Instruction): Result<Instruction, Problem> {
    if i.ConstFloat? then
      match f.parse(FormatFloat(f, i.bits))
      case Some(bits) => Ok(ConstFloat(bits))
      case None => Err(InvalidOperand)
    else Ok(i)
  }

  lemma BareCpuRoundTrip(f: FloatText, i: Instruction)
    requires IsBareCpu(i)
    ensures ParseInstruction(f, Mnemonic(i), Operands(f, i)) == Reread(f, i)
  {
  }

  lemma BareGateRoundTrip(f: FloatText, i: Instruction)
    requires IsBareGate(i)
    ensures ParseInstruction(f, Mnemonic(i), Operands(f, i)) == Reread(f, i)
  {
  }

  lemma BareOtherRoundTrip(f: FloatText, i: Instruction)
    requires IsBareOther(i)
    ensures ParseInstruction(f, Mnemonic(i), Operands(f, i)) == Reread(f, i)
  {
  }

  lemma ConstantRoundTrip(f: FloatText, i: Instruction)
    requires IsConstant(i)
    ensures ParseInstruction(f, Mnemonic(i), Operands(f, i)) == Reread(f, i)
  {
    match i
    case ConstFloat(_) =>
    case ConstInt(n) => SignedRoundTrip(n);
    case ConstLoc(n) => HexRoundTrip(n, 8, TWO_64);
    case ConstLane(d0, d1) =>
      HexRoundTrip(Join(d0, d1), 16, TWO_64);
      JoinSplits(d0, d1);
    case ConstZone(n) => HexRoundTrip(n, 8, TWO_32);
  }

  lemma ArityRoundTrip(f: FloatText, i: Instruction)
    requires i.InitialFill? || i.Fill? || i.MoveAtoms? || i.LocalR? || i.LocalRz? || i.Measure?
    ensures ParseInstruction(f, Mnemonic(i), Operands(f, i)) == Reread(f, i)
  {
    UnsignedRoundTrip(i.arity, TWO_32);
  }

  lemma NewArrayRoundTrip(f: FloatText, i: Instruction)
    requires i.NewArray?
    ensures ParseNewArray(Operands(f, i)) == Ok(i)
  {
    UnsignedRoundTrip(i.typeTag, TWO_8);
    UnsignedRoundTrip(i.dim0, TWO_16);
    UnsignedRoundTrip(i.dim1, TWO_16);
  }

  lemma ArrayRoundTrip(f: FloatText, i: Instruction)
    requires i.NewArray? || i.GetItem?
    ensures ParseInstruction(f, Mnemonic(i), Operands(f, i)) == Reread(f, i)
  {
    if i.NewArray? {
      NewArrayRoundTrip(f, i);
    } else {
      UnsignedRoundTrip(i.ndims, TWO_16);
    }
  }

  lemma InstructionRoundTrip(f: FloatText, i: Instruction)
    ensures ParseInstruction(f, Mnemonic(i), Operands(f, i)) == Reread(f, i)
  {
    if IsBareCpu(i) {
      BareCpuRoundTrip(f, i);
    } else if IsBareGate(i) {
      BareGateRoundTrip(f, i);
    } else if IsBareOther(i) {
      BareOtherRoundTrip(f, i);
    } else if IsConstant(i) {
      ConstantRoundTrip(f, i);
    } else if i.NewArray? || i.GetItem? {
      ArrayRoundTrip(f, i);
    } else {
      ArityRoundTrip(f, i);
    }
  }

  lemma PrintedInstructionIsTidy(f: FloatText, i: Instruction)
    requires DisplaysWords(f)
    ensures IsTidy(PrintInstruction(f, i)) && PrintInstruction(f, i)[0] != '.'
    ensures AreWords([Mnemonic(i)] + Operands(f, i))
  {
    OperandsAreWords(f, i);
    MnemonicIsWord(i);
    SpacedIsTidy([Mnemonic(i)] + Operands(f, i));
  }

  lemma PrintedInstruction(f: FloatText, i: Instruction, line: nat, st: Parsed)
    requires DisplaysWords(f)
    ensures ParseLine(f, PrintInstruction(f, i), line, st) == Appended(st, line, Reread(f, i))
  {
    var ops := Operands(f, i);
    var words := [Mnemonic(i)] + ops;
    var text := PrintInstruction(f, i);
    PrintedInstructionIsTidy(f, i);
    TokensOfSpaced(words);
    TidyContent(text);
    assert words[1..] == ops;
    InstructionRoundTrip(f, i);
  }

  function Appended(st: Parsed, line: nat, r: Result<Instruction, Problem>): Result<Parsed, ParseError> {
    match r
    case Ok(i) => Ok(st.(instructions := st.instructions + [i]))
    case Err(problem) => Err(AtLine(line, problem))
  }

  lemma VersionRoundTrip(v: Version)
    ensures IsWord(VersionText(v)) && ParseVersion(VersionText(v)) == Some(v)
  {
    var s, a, b := VersionText(v), Decimal(v.major), Decimal(v.minor);
    UnsignedRoundTrip(v.major, TWO_16);
    UnsignedRoundTrip(v.minor, TWO_16);
    NumeralIsWord(a);
    NumeralIsWord(b);
    FindIs(s, '.', |a|);
    assert s[..|a|] == a && s[|a| + 1..] == b;
  }

  lemma VersionTokens(v: Version)
    ensures Tokens("version " + VersionText(v)) == ["version", VersionText(v)]
    ensures IsTidy("version " + VersionText(v))
  {
    VersionRoundTrip(v);
    var words := ["version", VersionText(v)];
    assert words[1..] == [VersionText(v)];
    assert Spaced(words) == "version " + VersionText(v);
    SpacedIsTidy(words);
    TokensOfSpaced(words);
  }

  lemma PrintedVersionIsTidy(v: Version)
    ensures IsTidy(PrintVersion(v))
    ensures PrintVersion(v)[0] == '.' && PrintVersion(v)[1..] == "version " + VersionText(v)
  {
    VersionTokens(v);
    var s := "version " + VersionText(v);
    var text := "." + s;
    assert PrintVersion(v) == text;
    assert text[|text| - 1] == s[|s| - 1];
    assert forall k :: 0 < k < |text| ==> text[k] == s[k - 1];
    assert !IsWhite('.');
  }

  lemma VersionLine(f: FloatText, raw: string, text: string, v: Version, line: nat, st: Parsed)
    requires raw != "" && Content(raw) == raw && raw[0] == '.'
    requires Tokens(raw[1..]) == ["version", text] && ParseVersion(text) == Some(v)
    ensures ParseLine(f, raw, line, st) == Ok(st.(version := Some(v)))
  {
  }

  lemma PrintedVersion(f: FloatText, v: Version, line: nat, st: Parsed)
    ensures ParseLine(f, PrintVersion(v), line, st) == Ok(st.(version := Some(v)))
  {
    PrintedVersionIsTidy(v);
    VersionTokens(v);
    VersionRoundTrip(v);
    TidyContent(PrintVersion(v));
    VersionLine(f, PrintVersion(v), VersionText(v), v, line, st);
  }

  /** All the instructions read again, or the first error with its line. */
  function RereadAll(f: FloatText, instructions: seq<Instruction>, line: nat): Result<seq<Instruction>, ParseError> {
    if instructions == [] then Ok([])
    else
      match Reread(f, instructions[0])
      case Err(problem) => Err(AtLine(line, problem))
      case Ok(i) =>
        match RereadAll(f, instructions[1..], line + 1)
        case Err(e) => Err(e)
        case Ok(rest) => Ok([i] + rest)
  }

  function AppendedAll(st: Parsed, r: Result<seq<Instruction>, ParseError>): Result<Parsed, ParseError> {
    match r
    case Ok(more) => Ok(st.(instructions := st.instructions + more))
    case Err(e) => Err(e)
  }

  lemma {:induction false} InstructionsReread(f: FloatText, instructions: seq<Instruction>, line: nat, st: Parsed)
    requires DisplaysWords(f)
    ensures ParseLines(f, InstructionLines(f, instructions), line, st)
         == AppendedAll(st, RereadAll(f, instructions, line))
  {
    if instructions == [] {
      assert st.instructions + [] == st.instructions;
    } else {
      var lines, i, rest := InstructionLines(f, instructions), instructions[0], instructions[1..];
      assert lines[1..] == InstructionLines(f, rest);
      PrintedInstruction(f, i, line, st);
      var again := Reread(f, i);
      if again.Ok? {
        InstructionsReread(f, rest, line + 1, Parsed(st.version, st.instructions + [again.value]));
        var more := RereadAll(f, rest, line + 1);
        if more.Ok? {
          Associate(st.instructions, [again.value], more.value);
        }
      }
    }
  }

  lemma PrintedLinesComeBack(f: FloatText, p: Program)
    requires DisplaysWords(f)
    ensures Lines(Print(f, p)) == [PrintVersion(p.version)] + InstructionLines(f, p.instructions)
  {
    var lines := [PrintVersion(p.version)] + InstructionLines(f, p.instructions);
    forall i | 0 <= i < |lines| ensures IsTidy(lines[i]) {
      if i == 0 {
        PrintedVersionIsTidy(p.version);
      } else {
        PrintedInstructionIsTidy(f, p.instructions[i - 1]);
      }
    }
    LinesOfText(lines);
  }

  lemma ParseFromVersion(f: FloatText, source: string, first: string, rest: seq<string>, st: Parsed)
    requires Lines(source) == [first] + rest && ParseLine(f, first, 1, START) == Ok(st)
    ensures Parse(f, source) == Finish(ParseLines(f, rest, 2, st))
  {
    assert ([first] + rest)[1..] == rest;
  }

  function WithVersion(v: Version, r: Result<seq<Instruction>, ParseError>): Result<Program, ParseError> {
    match r
    case Ok(instructions) => Ok(Container.Program(v, instructions))
    case Err(e) => Err(e)
  }

  /** For every program: parsing what it prints gives its version and its instructions
      with each float read again, or the error of the first float that is refused. */
  lemma ParsePrinted(f: FloatText, p: Program)
    requires DisplaysWords(f)
    ensures Parse(f, Print(f, p)) == WithVersion(p.version, RereadAll(f, p.instructions, 2))
  {
    var source, first, rest := Print(f, p), PrintVersion(p.version), InstructionLines(f, p.instructions);
    var st := Parsed(Some(p.version), []);
    PrintedLinesComeBack(f, p);
    PrintedVersion(f, p.version, 1, START);
    ParseFromVersion(f, source, first, rest, st);
    InstructionsReread(f, p.instructions, 2, st);
    FinishAppended(p.version, RereadAll(f, p.instructions, 2));
  }

  lemma FinishAppended(v: Version, r: Result<seq<Instruction>, ParseError>)
    ensures Finish(AppendedAll(Parsed(Some(v), []), r)) == WithVersion(v, r)
  {
    if r.Ok? {
      assert [] + r.value == r.value;
    }
  }

  predicate FloatsParseBack(f: FloatText, instructions: seq<Instruction>) {
    forall i :: 0 <= i < |instructions| && instructions[i].ConstFloat? ==>
      f.parse(FormatFloat(f, instructions[i].bits)) == Some(instructions[i].bits)
  }

  lemma {:induction false} RereadAllIff(f: FloatText, instructions: seq<Instruction>, line: nat)
    ensures RereadAll(f, instructions, line) == Ok(instructions) <==> FloatsParseBack(f, instructions)
  {
    if instructions != [] {
      var rest := instructions[1..];
      RereadAllIff(f, rest, line + 1);
      assert instructions == [instructions[0]] + rest;
      assert FloatsParseBack(f, instructions)
        <==> Reread(f, instructions[0]) == Ok(instructions[0]) && FloatsParseBack(f, rest);
      var more := RereadAll(f, rest, line + 1);
      if more.Ok? && RereadAll(f, instructions, line).Ok? {
        assert RereadAll(f, instructions, line).value[1..] == more.value;
      }
    }
  }

  /** Nothing but a float can be lost: printing and parsing give the program back
      exactly when every float's text parses to that float. */
  lemma TextRoundTripIff(f: FloatText, p: Program)
    requires DisplaysWords(f)
    ensures Parse(f, Print(f, p)) == Ok(p) <==> FloatsParseBack(f, p.instructions)
  {
    ParsePrinted(f, p);
    RereadAllIff(f, p.instructions, 2);
  }

  // --- Finite floats ---

  /** The exponent of the 64-bit pattern is not all ones. */
  predicate Finite(bits: u64) {
    bits / 0x10_0000_0000_0000 % 0x800 != 0x7FF
  }

  predicate IsFinite(i: Instruction) {
    i.ConstFloat? ==> Finite(i.bits)
  }

  function AfterSign(s: string): string {
    if s != "" && s[0] == '-' then s[1..] else s
  }

  predicate IsInteger(s: string) {
    var d := AfterSign(s);
    d != "" && forall k :: 0 <= k < |d| ==> '0' <= d[k] <= '9'
  }

  predicate IsDecimal(s: string) {
    var d := AfterSign(s);
    d != "" && forall k :: 0 <= k < |d| ==> '0' <= d[k] <= '9' || d[k] == '.'
  }

  /** What Rust documents of its floats: finite ones display without exponent and parse
      back, ".0" after an integer changes nothing, and the others display as words
      which do not parse with ".0" after them. */
  ghost predicate StandardFloats(f: FloatText) {
    FinitesParseBack(f) && OthersAreNames(f) && PointAddsNothing(f) && NamesWithPointFail(f)
  }

  ghost predicate FinitesParseBack(f: FloatText) {
    forall bits: u64 :: Finite(bits) ==> IsDecimal(f.display(bits)) && f.parse(f.display(bits)) == Some(bits)
  }

  ghost predicate OthersAreNames(f: FloatText) {
    forall bits: u64 :: !Finite(bits) ==>
      f.display(bits) == "NaN" || f.display(bits) == "inf" || f.display(bits) == "-inf"
  }

  ghost predicate PointAddsNothing(f: FloatText) {
    forall s :: IsInteger(s) ==> f.parse(s + ".0") == f.parse(s)
  }

  predicate NamesWithPointFail(f: FloatText) {
    f.parse("NaN.0") == None && f.parse("inf.0") == None && f.parse("-inf.0") == None
  }

  lemma StandardFloatsDisplayWords(f: FloatText)
    requires StandardFloats(f)
    ensures DisplaysWords(f)
  {
    forall bits: u64 ensures IsWord(f.display(bits)) {
      var s := f.display(bits);
      if Finite(bits) {
        assert IsDecimal(s);
        DecimalIsWord(s);
      }
    }
  }

  lemma DecimalIsWord(s: string)
    requires IsDecimal(s)
    ensures IsWord(s) && 'e' !in s && 'E' !in s
    ensures '.' !in s ==> IsInteger(s)
  {
    var d := AfterSign(s);
    assert forall k :: 0 <= k < |s| ==> (k == 0 && s[0] == '-') || s[k] in d;
  }

  /** The printed text of a float parses to it, or not at all. */
  lemma FloatRoundTrip(f: FloatText, bits: u64)
    requires StandardFloats(f)
    ensures f.parse(FormatFloat(f, bits)) == if Finite(bits) then Some(bits) else None
  {
    var s := f.display(bits);
    if Finite(bits) {
      DecimalIsWord(s);
    } else {
      assert '.' !in s && 'e' !in s && 'E' !in s;
      assert s + ".0" == "NaN.0" || s + ".0" == "inf.0" || s + ".0" == "-inf.0";
    }
  }

  /** The index of the first float that is not finite, or the length. */
  function FirstNonFinite(instructions: seq<Instruction>): (n: nat)
    ensures n <= |instructions|
    ensures forall i :: 0 <= i < n ==> IsFinite(instructions[i])
    ensures n < |instructions| ==> !IsFinite(instructions[n])
  {
    if instructions == [] || !IsFinite(instructions[0]) then 0 else FirstNonFinite(instructions[1..]) + 1
  }

  lemma {:induction false} RereadFinite(f: FloatText, instructions: seq<Instruction>, line: nat)
    requires StandardFloats(f)
    ensures RereadAll(f, instructions, line)
         == if FirstNonFinite(instructions) == |instructions| then Ok(instructions)
            else Err(AtLine(line + FirstNonFinite(instructions), InvalidOperand))
  {
    if instructions != [] {
      if instructions[0].ConstFloat? {
        FloatRoundTrip(f, instructions[0].bits);
      }
      RereadFinite(f, instructions[1..], line + 1);
      assert instructions == [instructions[0]] + instructions[1..];
    }
  }

  predicate AllFinite(instructions: seq<Instruction>) {
    forall i :: 0 <= i < |instructions| ==> IsFinite(instructions[i])
  }

  /** A program comes back from its text exactly when all its floats are finite.
      Otherwise the text is refused at the line of the first one that is not. */
  lemma FiniteRoundTrip(f: FloatText, p: Program)
    requires StandardFloats(f)
    ensures Parse(f, Print(f, p)) == Ok(p) <==> AllFinite(p.instructions)
    ensures !AllFinite(p.instructions) ==>
              Parse(f, Print(f, p)) == Err(AtLine(FirstNonFinite(p.instructions) + 2, InvalidOperand))
  {
    StandardFloatsDisplayWords(f);
    ParsePrinted(f, p);
    RereadFinite(f, p.instructions, 2);
    FiniteResult(p, Parse(f, Print(f, p)), RereadAll(f, p.instructions, 2));
  }

  lemma FiniteResult(p: Program, parsed: Result<Program, ParseError>, r: Result<seq<Instruction>, ParseError>)
    requires parsed == WithVersion(p.version, r)
    requires r == if FirstNonFinite(p.instructions) == |p.instructions| then Ok(p.instructions)
                  else Err(AtLine(2 + FirstNonFinite(p.instructions), InvalidOperand))
    ensures parsed == Ok(p) <==> AllFinite(p.instructions)
    ensures !AllFinite(p.instructions) ==>
              parsed == Err(AtLine(FirstNonFinite(p.instructions) + 2, InvalidOperand))
  {
  }

  /** A program of one NaN prints to text that does not parse. */
  lemma NanIsRefused(f: FloatText, v: Version)
    requires StandardFloats(f)
    ensures var p := Container.Program(v, [ConstFloat(0x7FF8_0000_0000_0000)]);
            Parse(f, Print(f, p)) == Err(AtLine(2, InvalidOperand))
  {
    var nan := ConstFloat(0x7FF8_0000_0000_0000);
    OneIsRefused(f, v, nan);
  }

  lemma OneIsRefused(f: FloatText, v: Version, i: Instruction)
    requires StandardFloats(f) && !IsFinite(i)
    ensures Parse(f, Print(f, Container.Program(v, [i]))) == Err(AtLine(2, InvalidOperand))
  {
    var p := Container.Program(v, [i]);
    assert !IsFinite(p.instructions[0]);
    FiniteRoundTrip(f, p);
  }

  function WithoutPoint(s: string): string {
    var n := |s| - 2;
    if n > 0 && s[n] == '.' && s[n + 1] == '0' then s[..n] else s
  }

  function ParseWithPoint(s: string): Option<u64> {
    match ParseUnsigned(WithoutPoint(s), 10, TWO_64)
    case Some(bits) => Some(bits)
    case None => None
  }

  lemma DecimalParsesWithPoint(bits: u64)
    ensures IsDecimal(Decimal(bits)) && ParseWithPoint(Decimal(bits)) == Some(bits)
  {
    UnsignedRoundTrip(bits, TWO_64);
    DecimalHasNoX(bits);
    assert AfterSign(Decimal(bits)) == Decimal(bits);
    assert WithoutPoint(Decimal(bits)) == Decimal(bits);
  }

  lemma PointIsIgnored(s: string)
    requires IsInteger(s)
    ensures ParseWithPoint(s + ".0") == ParseWithPoint(s)
  {
    assert AfterSign(s) == s || s == "-" + AfterSign(s);
    assert WithoutPoint(s) == s && WithoutPoint(s + ".0") == s;
  }

  lemma NotANumber(s: string)
    requires s != "" && !('0' <= s[|s| - 1] <= '9')
    ensures ParseWithPoint(s + ".0") == None
  {
    assert WithoutPoint(s + ".0") == s;
  }

  /** Integers for the finite patterns, and the parser above. */
  function PlainFloats(): FloatText {
    FloatText((bits: u64) => if Finite(bits) then Decimal(bits) else "NaN", ParseWithPoint)
  }

  lemma PlainFloatsAreNumbers()
    ensures FinitesParseBack(PlainFloats()) && PointAddsNothing(PlainFloats())
  {
    var f := PlainFloats();
    forall bits: u64 | Finite(bits) ensures IsDecimal(f.display(bits)) && f.parse(f.display(bits)) == Some(bits) {
      DecimalParsesWithPoint(bits);
    }
    forall s | IsInteger(s) ensures f.parse(s + ".0") == f.parse(s) {
      PointIsIgnored(s);
    }
  }

  lemma PlainFloatsRefuseNames()
    ensures NamesWithPointFail(PlainFloats())
  {
    NotANumber("NaN");
    NotANumber("inf");
    NotANumber("-inf");
    assert "NaN" + ".0" == "NaN.0" && "inf" + ".0" == "inf.0" && "-inf" + ".0" == "-inf.0";
  }

  /** The documented behaviour is consistent: some display and parser have it. */
  lemma StandardFloatsExist()
    ensures exists f :: StandardFloats(f)
  {
    PlainFloatsAreNumbers();
    PlainFloatsRefuseNames();
    var f := PlainFloats();
    assert StandardFloats(f);
  }
}
