/** The text assembler. */
module Assembly {
  import opened Basics
  import opened Codec
  import opened Container
  import opened Text

  datatype Problem = UnknownMnemonic(name: string) | MissingOperand(what: string) | InvalidOperand

  datatype ParseError = MissingVersion | InvalidVersion | AtLine(line: nat, problem: Problem)

  /** Rust's display form of a float and its float parser, on bit patterns. */
  datatype FloatText = FloatText(display: u64 -> string, parse: string -> Option<u64>)

  /** A display form holds no blank and no semicolon. */
  ghost predicate DisplaysWords(f: FloatText) {
    forall bits: u64 :: IsWord(f.display(bits))
  }

  // --- Parsing ---

  function OneOperand<T>(mnemonic: string, ops: seq<string>, read: string -> Option<T>, make: T -> Instruction)
    : Result<Instruction, Problem>
  {
    if ops == [] then Err(MissingOperand(mnemonic))
    else
      match read(ops[0])
      case Some(x) => Ok(make(x))
      case None => Err(InvalidOperand)
  }

  /** A missing second dimension is zero. */
  function ParseNewArray(ops: seq<string>): Result<Instruction, Problem> {
    if ops == [] then Err(MissingOperand("new_array"))
    else if ParseU8(ops[0]).None? then Err(InvalidOperand)
    else if |ops| == 1 then Err(MissingOperand("new_array dim0"))
    else if ParseU16(ops[1]).None? then Err(InvalidOperand)
    else if |ops| == 2 then Ok(NewArray(ParseU8(ops[0]).value, ParseU16(ops[1]).value, 0))
    else
      match ParseU16(ops[2])
      case Some(dim1) => Ok(NewArray(ParseU8(ops[0]).value, ParseU16(ops[1]).value, dim1))
      case None => Err(InvalidOperand)
  }

  /** Operands beyond those an instruction takes are ignored. */
  function ParseInstruction(f: FloatText, m: string, ops: seq<string>): Result<Instruction, Problem> {
    if m == "const_float" then OneOperand(m, ops, f.parse, bits => ConstFloat(bits))
    else if m == "const_int" then OneOperand(m, ops, ParseI64, n => ConstInt(n))
    else if m == "const_loc" then OneOperand(m, ops, ParseHexU64, n => ConstLoc(n))
    else if m == "const_lane" then OneOperand(m, ops, ParseHexU64, n => ConstLane(Low(n), High(n)))
    else if m == "const_zone" then OneOperand(m, ops, ParseHexU32, n => ConstZone(n))
    else if m == "pop" then Ok(Pop)
    else if m == "dup" then Ok(Dup)
    else if m == "swap" then Ok(Swap)
    else if m == "initial_fill" then OneOperand(m, ops, ParseU32, n => InitialFill(n))
    else if m == "fill" then OneOperand(m, ops, ParseU32, n => Fill(n))
    else if m == "move" then OneOperand(m, ops, ParseU32, n => MoveAtoms(n))
    else if m == "local_r" then OneOperand(m, ops, ParseU32, n => LocalR(n))
    else if m == "local_rz" then OneOperand(m, ops, ParseU32, n => LocalRz(n))
    else if m == "global_r" then Ok(GlobalR)
    else if m == "global_rz" then Ok(GlobalRz)
    else if m == "cz" then Ok(CZ)
    else if m == "measure" then OneOperand(m, ops, ParseU32, n => Measure(n))
    else if m == "await_measure" then Ok(AwaitMeasure)
    else if m == "new_array" then ParseNewArray(ops)
    else if m == "get_item" then OneOperand(m, ops, ParseU16, n => GetItem(n))
    else if m == "set_detector" then Ok(SetDetector)
    else if m == "set_observable" then Ok(SetObservable)
    else if m == "return" then Ok(Return)
    else if m == "halt" then Ok(Halt)
    else Err(UnknownMnemonic(m))
  }

  /** "major.minor", or just "major". */
  function ParseVersion(s: string): Option<Version> {
    var i := Find(s, '.');
    var major, minor := ParseU16(s[..i]), if i < |s| then ParseU16(s[i + 1..]) else Some(0);
    if major.Some? && minor.Some? then Some(Version(major.value, minor.value)) else None
  }

  datatype Parsed = Parsed(version: Option<Version>, instructions: seq<Instruction>)

  /** What one line adds; directives other than `.version` add nothing. */
  function ParseLine(f: FloatText, raw: string, line: nat, st: Parsed): Result<Parsed, ParseError> {
    var c := Content(raw);
    if c == "" then Ok(st)
    else if c[0] == '.' then
      var parts := Tokens(c[1..]);
      if parts == [] || parts[0] != "version" then Ok(st)
      else if |parts| == 1 then Err(InvalidVersion)
      else
        match ParseVersion(parts[1])
        case Some(v) => Ok(st.(version := Some(v)))
        case None => Err(InvalidVersion)
    else
      FirstTokenExists(c);
      var parts := Tokens(c);
      match ParseInstruction(f, parts[0], parts[1..])
      case Ok(i) => Ok(st.(instructions := st.instructions + [i]))
      case Err(problem) => Err(AtLine(line, problem))
  }

  function ParseLines(f: FloatText, lines: seq<string>, line: nat, st: Parsed): Result<Parsed, ParseError> {
    if lines == [] then Ok(st)
    else
      match ParseLine(f, lines[0], line, st)
      case Err(e) => Err(e)
      case Ok(next) => ParseLines(f, lines[1..], line + 1, next)
  }

  const START: Parsed := Parsed(None, [])

  function Finish(r: Result<Parsed, ParseError>): Result<Program, ParseError> {
    match r
    case Err(e) => Err(e)
    case Ok(st) => if st.version.None? then Err(MissingVersion) else Ok(Program(st.version.value, st.instructions))
  }

  function Parse(f: FloatText, source: string): Result<Program, ParseError> {
    Finish(ParseLines(f, Lines(source), 1, START))
  }

  method ParseText(f: FloatText, source: string) returns (r: Result<Program, ParseError>)
    ensures r == Parse(f, source)
  {
    var version: Option<Version> := None;
    var instructions: seq<Instruction> := [];
    var lines := Lines(source);
    for i := 0 to |lines|
      invariant ParseLines(f, lines, 1, START) == ParseLines(f, lines[i..], i + 1, Parsed(version, instructions))
    {
      assert lines[i..][1..] == lines[i + 1..];
      var step := ParseLine(f, lines[i], i + 1, Parsed(version, instructions));
      if step.Err? {
        return Err(step.error);
      }
      version, instructions := step.value.version, step.value.instructions;
    }
    if version.None? {
      return Err(MissingVersion);
    }
    return Ok(Program(version.value, instructions));
  }

  // --- Blank lines and comments ---

  /** The same result, with errors after the given line one line further down. */
  function Shifted<T>(r: Result<T, ParseError>, after: nat): Result<T, ParseError> {
    if r.Err? && r.error.AtLine? && r.error.line > after then Err(r.error.(line := r.error.line + 1)) else r
  }

  lemma OneLineLower(f: FloatText, raw: string, line: nat, st: Parsed, after: nat)
    ensures after < line ==> ParseLine(f, raw, line + 1, st) == Shifted(ParseLine(f, raw, line, st), after)
    ensures line <= after ==> ParseLine(f, raw, line, st) == Shifted(ParseLine(f, raw, line, st), after)
  {
  }

  lemma {:induction false} LinesLower(f: FloatText, lines: seq<string>, line: nat, st: Parsed, after: nat)
    requires after < line
    ensures ParseLines(f, lines, line + 1, st) == Shifted(ParseLines(f, lines, line, st), after)
  {
    if lines != [] {
      OneLineLower(f, lines[0], line, st, after);
      var step := ParseLine(f, lines[0], line, st);
      if step.Ok? {
        LinesLower(f, lines[1..], line + 1, step.value, after);
      }
    }
  }

  lemma {:induction false} BlankInList(
    f: FloatText, a: seq<string>, blank: string, b: seq<string>, line: nat, st: Parsed)
    requires Content(blank) == "" && line > 0
    ensures ParseLines(f, a + ([blank] + b), line, st) == Shifted(ParseLines(f, a + b, line, st), line + |a| - 1)
  {
    if a == [] {
      assert a + ([blank] + b) == [blank] + b && a + b == b && ([blank] + b)[1..] == b;
      LinesLower(f, b, line, st, line - 1);
    } else {
      assert (a + ([blank] + b))[1..] == a[1..] + ([blank] + b) && (a + b)[1..] == a[1..] + b;
      OneLineLower(f, a[0], line, st, line + |a| - 1);
      var step := ParseLine(f, a[0], line, st);
      if step.Ok? {
        BlankInList(f, a[1..], blank, b, line + 1, step.value);
      }
    }
  }

  lemma {:induction false} SameInList(
    f: FloatText, a: seq<string>, x: string, y: string, b: seq<string>, line: nat, st: Parsed)
    requires Content(x) == Content(y)
    ensures ParseLines(f, a + ([x] + b), line, st) == ParseLines(f, a + ([y] + b), line, st)
  {
    if a == [] {
      assert a + ([x] + b) == [x] + b && a + ([y] + b) == [y] + b;
      assert ([x] + b)[1..] == b && ([y] + b)[1..] == b;
    } else {
      assert (a + ([x] + b))[1..] == a[1..] + ([x] + b) && (a + ([y] + b))[1..] == a[1..] + ([y] + b);
      var step := ParseLine(f, a[0], line, st);
      if step.Ok? {
        SameInList(f, a[1..], x, y, b, line + 1, step.value);
      }
    }
  }

  lemma LinesAround(before: string, line: string, after: string)
    requires EndsLine(before) && '\n' !in line
    ensures Lines(before + (line + "\n" + after)) == Lines(before) + ([StripCr(line)] + Lines(after))
  {
    LinesAppend(before, line + "\n" + after);
    FirstLine(line + "\n" + after, line, after);
  }

  lemma FinishShifted(r: Result<Parsed, ParseError>, after: nat)
    ensures Finish(Shifted(r, after)) == Shifted(Finish(r), after)
  {
  }

  lemma ShiftedParse(f: FloatText, x: string, xs: seq<string>, y: string, ys: seq<string>, after: nat)
    requires Lines(x) == xs && Lines(y) == ys
    requires ParseLines(f, xs, 1, START) == Shifted(ParseLines(f, ys, 1, START), after)
    ensures Parse(f, x) == Shifted(Parse(f, y), after)
  {
    FinishShifted(ParseLines(f, ys, 1, START), after);
  }

  /** A blank or comment line anywhere changes nothing but the line numbers in later errors. */
  lemma BlankLineIgnored(f: FloatText, before: string, blank: string, after: string)
    requires EndsLine(before) && '\n' !in blank && Content(blank) == ""
    ensures Parse(f, before + (blank + "\n" + after)) == Shifted(Parse(f, before + after), |Lines(before)|)
  {
    LinesAround(before, blank, after);
    LinesAppend(before, after);
    ContentIgnoresCr(blank);
    BlankInside(f, before + (blank + "\n" + after), before + after, Lines(before), StripCr(blank), Lines(after));
  }

  lemma BlankInside(f: FloatText, x: string, y: string, a: seq<string>, blank: string, b: seq<string>)
    requires Lines(x) == a + ([blank] + b) && Lines(y) == a + b && Content(blank) == ""
    ensures Parse(f, x) == Shifted(Parse(f, y), |a|)
  {
    BlankInList(f, a, blank, b, 1, START);
    ShiftedParse(f, x, a + ([blank] + b), y, a + b, |a|);
  }

  /** Only what is left of a line after stripping its comment and outer blanks matters. */
  lemma OnlyContentMatters(f: FloatText, before: string, line: string, line': string, after: string)
    requires EndsLine(before) && '\n' !in line && '\n' !in line' && Content(line) == Content(line')
    ensures Parse(f, before + (line + "\n" + after)) == Parse(f, before + (line' + "\n" + after))
  {
    LinesAround(before, line, after);
    LinesAround(before, line', after);
    ContentIgnoresCr(line);
    ContentIgnoresCr(line');
    SameInList(f, Lines(before), StripCr(line), StripCr(line'), Lines(after), 1, START);
  }

  /** A comment at the end of a line changes nothing at all. */
  lemma CommentIgnored(f: FloatText, before: string, line: string, note: string, after: string)
    requires EndsLine(before) && '\n' !in line && '\n' !in note
    ensures Parse(f, before + (line + ";" + note + "\n" + after)) == Parse(f, before + (line + "\n" + after))
  {
    ContentIgnoresComment(line, note);
    OnlyContentMatters(f, before, line + ";" + note, line, after);
  }
}
