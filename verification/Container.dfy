/** The BLQD binary container of a program. */
module Container {
  import opened Basics
  import opened Codec

  datatype Version = Version(major: u16, minor: u16)

  datatype Program = Program(version: Version, instructions: seq<Instruction>)

  datatype ProgramError =
    | BadMagic
    | Truncated(expected: nat, got: nat)
    | UnknownSectionType(kind: u32)
    | InvalidCodeSectionLength(length: nat)
    | MissingMetadataSection
    | MissingCodeSection
    | BadInstruction(error: DecodeError)

  const MAGIC: seq<u8> := [0x42, 0x4C, 0x51, 0x44]
  const SECTION_TYPE_METADATA: u32 := 0
  const SECTION_TYPE_CODE: u32 := 1

  function VersionBits(v: Version): u32 {
    v.major * 0x1_0000 + v.minor
  }

  function VersionOf(bits: u32): Version {
    Version(bits / 0x1_0000, bits % 0x1_0000)
  }

  // --- Writing ---

  /** Blocks written one after another. */
  function Joined(blocks: seq<seq<u8>>): seq<u8> {
    if blocks == [] then [] else Joined(blocks[..|blocks| - 1]) + blocks[|blocks| - 1]
  }

  function Blocks(instructions: seq<Instruction>): (r: seq<seq<u8>>)
    ensures |r| == |instructions|
    ensures forall i :: 0 <= i < |r| ==> r[i] == BytesOf(instructions[i]) && |r[i]| == 16
  {
    seq(|instructions|, i requires 0 <= i < |instructions| => BytesOf(instructions[i]))
  }

  function CodeBytes(instructions: seq<Instruction>): seq<u8> {
    Joined(Blocks(instructions))
  }

  /** File header, metadata section and the header of the code section. */
  function Header(version: Version, codeLength: u32): (r: seq<u8>)
    ensures |r| == 28
  {
    MAGIC + LittleEndian(2)
    + LittleEndian(SECTION_TYPE_METADATA) + LittleEndian(4) + LittleEndian(VersionBits(version))
    + LittleEndian(SECTION_TYPE_CODE) + LittleEndian(codeLength)
  }

  /** The code length is cut to 32 bits, as the source casts it. */
  function Binary(p: Program): seq<u8> {
    Header(p.version, AsU32(16 * |p.instructions|)) + CodeBytes(p.instructions)
  }

  method ToBinary(p: Program) returns (buf: seq<u8>)
    ensures buf == Binary(p)
  {
    buf := MAGIC;
    buf := buf + LittleEndian(2);
    buf := buf + LittleEndian(SECTION_TYPE_METADATA) + LittleEndian(4);
    buf := buf + LittleEndian(VersionBits(p.version));
    buf := buf + LittleEndian(SECTION_TYPE_CODE) + LittleEndian(AsU32(16 * |p.instructions|));
    ghost var header := buf;
    assert header == Header(p.version, AsU32(16 * |p.instructions|));
    for i := 0 to |p.instructions|
      invariant buf == header + CodeBytes(p.instructions[..i])
    {
      var bytes := ToBytes(p.instructions[i]);
      assert Blocks(p.instructions[..i + 1])[..i] == Blocks(p.instructions[..i]);
      buf := buf + bytes[..];
    }
    assert p.instructions[..|p.instructions|] == p.instructions;
  }

  // --- Reading ---

  function WordAt(b: seq<u8>, o: nat): u32
    requires o + 4 <= |b|
  {
    FromLittleEndian(b[o..o + 4])
  }

  /** What the sections read so far have set; a later section replaces an earlier one. */
  datatype Partial = Partial(version: Option<Version>, code: Option<seq<Instruction>>)

  /** The 16-byte blocks from `o` on, each decoded. */
  function Decoded(b: seq<u8>, o: nat, count: nat): (r: seq<Result<Instruction, DecodeError>>)
    requires o + 16 * count <= |b|
    ensures |r| == count
  {
    seq(count, i requires 0 <= i < count => FromBytes(b[o + 16 * i..o + 16 * i + 16]))
  }

  /** All the instructions, or the first error. */
  function Collect(rs: seq<Result<Instruction, DecodeError>>): (r: Result<seq<Instruction>, ProgramError>)
    ensures r.Ok? ==> |r.value| == |rs|
    ensures r.Err? ==> r.error.BadInstruction?
  {
    if rs == [] then Ok([])
    else
      match Collect(rs[..|rs| - 1])
      case Err(e) => Err(e)
      case Ok(xs) =>
        match rs[|rs| - 1]
        case Err(e) => Err(BadInstruction(e))
        case Ok(i) => Ok(xs + [i])
  }

  function DecodeCode(b: seq<u8>, o: nat, count: nat): (r: Result<seq<Instruction>, ProgramError>)
    requires o + 16 * count <= |b|
    ensures r.Ok? ==> |r.value| == count
  {
    Collect(Decoded(b, o, count))
  }

  function ReadSection(b: seq<u8>, o: nat, kind: u32, length: nat, acc: Partial): Result<Partial, ProgramError>
    requires o + length <= |b|
  {
    if kind == SECTION_TYPE_METADATA then
      if length < 4 then Err(Truncated(4, length))
      else Ok(acc.(version := Some(VersionOf(WordAt(b, o)))))
    else if kind == SECTION_TYPE_CODE then
      if length % 16 != 0 then Err(InvalidCodeSectionLength(length))
      else
        match DecodeCode(b, o, length / 16)
        case Err(e) => Err(e)
        case Ok(code) => Ok(acc.(code := Some(code)))
    else Err(UnknownSectionType(kind))
  }

  function ReadSections(b: seq<u8>, o: nat, n: nat, acc: Partial): Result<Partial, ProgramError>
    decreases n
  {
    if n == 0 then Ok(acc)
    else if o + 8 > |b| then Err(Truncated(o + 8, |b|))
    else
      var kind, length := WordAt(b, o), WordAt(b, o + 4);
      if o + 8 + length > |b| then Err(Truncated(o + 8 + length, |b|))
      else
        match ReadSection(b, o + 8, kind, length, acc)
        case Err(e) => Err(e)
        case Ok(next) => ReadSections(b, o + 8 + length, n - 1, next)
  }

  function Parse(b: seq<u8>): Result<Program, ProgramError> {
    if |b| < 8 then Err(Truncated(8, |b|))
    else if b[0..4] != MAGIC then Err(BadMagic)
    else
      match ReadSections(b, 8, WordAt(b, 4), Partial(None, None))
      case Err(e) => Err(e)
      case Ok(acc) =>
        if acc.version.None? then Err(MissingMetadataSection)
        else if acc.code.None? then Err(MissingCodeSection)
        else Ok(Program(acc.version.value, acc.code.value))
  }

  method ReadCode(b: seq<u8>, o: nat, count: nat) returns (r: Result<seq<Instruction>, ProgramError>)
    requires o + 16 * count <= |b|
    ensures r == DecodeCode(b, o, count)
  {
    var instrs: seq<Instruction> := [];
    ghost var all := Decoded(b, o, count);
    for i := 0 to count
      invariant Collect(all[..i]) == Ok(instrs)
    {
      var start := o + i * 16;
      assert all[..i + 1][..i] == all[..i];
      var decoded := FromBytes(b[start..start + 16]);
      assert all[i] == decoded;
      match decoded {
        case Err(e) =>
          CollectStops(all, i + 1);
          return Err(BadInstruction(e));
        case Ok(instr) =>
          instrs := instrs + [instr];
      }
    }
    assert all[..count] == all;
    r := Ok(instrs);
  }

  lemma {:induction false} CollectStops(rs: seq<Result<Instruction, DecodeError>>, n: nat)
    requires n <= |rs| && Collect(rs[..n]).Err?
    ensures Collect(rs) == Collect(rs[..n])
  {
    if n == |rs| {
      assert rs[..n] == rs;
    } else {
      assert rs[..|rs| - 1][..n] == rs[..n];
      CollectStops(rs[..|rs| - 1], n);
    }
  }

  lemma {:induction false} CollectAll(rs: seq<Result<Instruction, DecodeError>>, xs: seq<Instruction>)
    requires |rs| <= |xs| && forall i :: 0 <= i < |rs| ==> rs[i] == Ok(xs[i])
    ensures Collect(rs) == Ok(xs[..|rs|])
  {
    if rs != [] {
      var n := |rs| - 1;
      CollectAll(rs[..n], xs);
      assert xs[..n + 1] == xs[..n] + [xs[n]];
    }
  }

  /** The payload of one section; the branches of the loop of `from_binary`. */
  method ReadOneSection(b: seq<u8>, offset: nat, sectionType: u32, sectionLength: nat, acc: Partial)
    returns (r: Result<Partial, ProgramError>)
    requires offset + sectionLength <= |b|
    ensures r == ReadSection(b, offset, sectionType, sectionLength, acc)
  {
    if sectionType == SECTION_TYPE_METADATA {
      if sectionLength < 4 {
        return Err(Truncated(4, sectionLength));
      }
      return Ok(acc.(version := Some(VersionOf(WordAt(b, offset)))));
    } else if sectionType == SECTION_TYPE_CODE {
      if sectionLength % 16 != 0 {
        return Err(InvalidCodeSectionLength(sectionLength));
      }
      var code := ReadCode(b, offset, sectionLength / 16);
      if code.Err? {
        return Err(code.error);
      }
      return Ok(acc.(code := Some(code.value)));
    } else {
      return Err(UnknownSectionType(sectionType));
    }
  }

  /** One turn of the loop below, with `n` sections still to read. */
  method ReadNextSection(b: seq<u8>, start: nat, acc: Partial, ghost n: nat)
    returns (r: Result<Partial, ProgramError>, offset: nat)
    requires n > 0 && start <= |b|
    ensures r.Err? ==> ReadSections(b, start, n, acc) == r
    ensures r.Ok? ==> start + 8 <= offset <= |b|
    ensures r.Ok? ==> ReadSections(b, start, n, acc) == ReadSections(b, offset, n - 1, r.value)
  {
    offset := start;
    if offset + 8 > |b| {
      return Err(Truncated(offset + 8, |b|)), offset;
    }
    var sectionType, sectionLength := WordAt(b, offset), WordAt(b, offset + 4);
    offset := offset + 8;
    if offset + sectionLength > |b| {
      return Err(Truncated(offset + sectionLength, |b|)), offset;
    }
    r := ReadOneSection(b, offset, sectionType, sectionLength, acc);
    offset := offset + sectionLength;
  }

  /** The loop over the sections. */
  method ReadEverySection(b: seq<u8>, sectionCount: nat) returns (r: Result<Partial, ProgramError>)
    requires |b| >= 8
    ensures r == ReadSections(b, 8, sectionCount, Partial(None, None))
  {
    var offset: nat := 8;
    r := Ok(Partial(None, None));
    ghost var all := ReadSections(b, 8, sectionCount, r.value);
    for s := 0 to sectionCount
      invariant r.Ok? && 8 + 8 * s <= offset <= |b|
      invariant all == ReadSections(b, offset, sectionCount - s, r.value)
    {
      r, offset := ReadNextSection(b, offset, r.value, sectionCount - s);
      if r.Err? {
        return;
      }
    }
  }

  method FromBinary(b: seq<u8>) returns (r: Result<Program, ProgramError>)
    ensures r == Parse(b)
  {
    if |b| < 8 {
      return Err(Truncated(8, |b|));
    }
    if b[0..4] != MAGIC {
      return Err(BadMagic);
    }
    var sectionCount := WordAt(b, 4);
    var sections := ReadEverySection(b, sectionCount);
    if sections.Err? {
      return Err(sections.error);
    }
    var version, instructions := sections.value.version, sections.value.code;
    if version.None? {
      return Err(MissingMetadataSection);
    }
    if instructions.None? {
      return Err(MissingCodeSection);
    }
    return Ok(Program(version.value, instructions.value));
  }

  // --- Round trip ---

  lemma HeaderWords(v: Version, length: u32, rest: seq<u8>)
    ensures var b := Header(v, length) + rest;
            && b[0..4] == MAGIC && WordAt(b, 4) == 2
            && WordAt(b, 8) == SECTION_TYPE_METADATA && WordAt(b, 12) == 4 && WordAt(b, 16) == VersionBits(v)
            && WordAt(b, 20) == SECTION_TYPE_CODE && WordAt(b, 24) == length
  {
    var b := Header(v, length) + rest;
    assert b[4..8] == LittleEndian(2) && b[8..12] == LittleEndian(SECTION_TYPE_METADATA);
    assert b[12..16] == LittleEndian(4) && b[16..20] == LittleEndian(VersionBits(v));
    assert b[20..24] == LittleEndian(SECTION_TYPE_CODE) && b[24..28] == LittleEndian(length);
    LittleEndianRoundTrip(2);
    LittleEndianRoundTrip(SECTION_TYPE_METADATA);
    LittleEndianRoundTrip(4);
    LittleEndianRoundTrip(VersionBits(v));
    LittleEndianRoundTrip(SECTION_TYPE_CODE);
    LittleEndianRoundTrip(length);
  }

  lemma {:induction false} BlockAt(blocks: seq<seq<u8>>, i: nat)
    requires i < |blocks| && forall k :: 0 <= k < |blocks| ==> |blocks[k]| == 16
    ensures |Joined(blocks)| == 16 * |blocks|
    ensures Joined(blocks)[16 * i..16 * i + 16] == blocks[i]
  {
    var n := |blocks| - 1;
    if n > 0 {
      BlockAt(blocks[..n], if i < n then i else 0);
    }
    if i < n {
      assert Joined(blocks)[16 * i..16 * i + 16] == Joined(blocks[..n])[16 * i..16 * i + 16];
    }
  }

  lemma SliceOfSlice(b: seq<u8>, o: nat, length: nat, x: nat)
    requires o + length <= |b| && x + 16 <= length
    ensures b[o..o + length][x..x + 16] == b[o + x..o + x + 16]
  {
    var left, right := b[o..o + length][x..x + 16], b[o + x..o + x + 16];
    assert forall k :: 0 <= k < 16 ==> left[k] == right[k];
  }

  lemma BlockInside(blocks: seq<seq<u8>>, b: seq<u8>, o: nat, i: nat)
    requires i < |blocks| && forall k :: 0 <= k < |blocks| ==> |blocks[k]| == 16
    requires o + 16 * |blocks| <= |b| && b[o..o + 16 * |blocks|] == Joined(blocks)
    ensures b[o + 16 * i..o + 16 * i + 16] == blocks[i]
  {
    BlockAt(blocks, i);
    SliceOfSlice(b, o, 16 * |blocks|, 16 * i);
  }

  lemma BlockDecodes(block: seq<u8>, i: Instruction)
    requires block == BytesOf(i)
    ensures FromBytes(block) == Ok(i)
  {
    BytesRoundTrip(i);
  }

  /** The `i`-th 16 bytes from `o` on decode to the `i`-th instruction. */
  ghost predicate Encodes(b: seq<u8>, o: nat, instructions: seq<Instruction>) {
    && o + 16 * |instructions| <= |b|
    && forall i :: 0 <= i < |instructions| ==> FromBytes(b[o + 16 * i..o + 16 * i + 16]) == Ok(instructions[i])
  }

  lemma CodeEncodes(b: seq<u8>, o: nat, instructions: seq<Instruction>)
    requires o + 16 * |instructions| <= |b| && b[o..o + 16 * |instructions|] == CodeBytes(instructions)
    ensures Encodes(b, o, instructions)
  {
    var blocks := Blocks(instructions);
    forall i | 0 <= i < |instructions| ensures FromBytes(b[o + 16 * i..o + 16 * i + 16]) == Ok(instructions[i]) {
      BlockInside(blocks, b, o, i);
      BlockDecodes(blocks[i], instructions[i]);
    }
  }

  lemma DecodeCodeOf(instructions: seq<Instruction>, b: seq<u8>, o: nat, count: nat)
    requires count <= |instructions| && Encodes(b, o, instructions)
    ensures DecodeCode(b, o, count) == Ok(instructions[..count])
  {
    CollectAll(Decoded(b, o, count), instructions);
  }

  lemma TruncatedLength(n: nat)
    ensures AsU32(16 * n) == 16 * (n % 0x1000_0000)
    ensures n % 0x1000_0000 <= n
  {
    var q := n / 0x1000_0000;
    assert 16 * n == q * 0x1_0000_0000 + 16 * (n % 0x1000_0000);
    Split(q, 16 * (n % 0x1000_0000), 0x1_0000_0000);
  }

  /** Bytes laid out as one metadata and one code section. */
  lemma TwoSections(b: seq<u8>, length: u32, code: seq<Instruction>)
    requires 28 + length <= |b| && b[0..4] == MAGIC && WordAt(b, 4) == 2
    requires WordAt(b, 8) == SECTION_TYPE_METADATA && WordAt(b, 12) == 4
    requires WordAt(b, 20) == SECTION_TYPE_CODE && WordAt(b, 24) == length
    requires length % 16 == 0 && DecodeCode(b, 28, length / 16) == Ok(code)
    ensures Parse(b) == Ok(Program(VersionOf(WordAt(b, 16)), code))
  {
    var v := VersionOf(WordAt(b, 16));
    var none := Partial(None, None);
    assert ReadSection(b, 16, SECTION_TYPE_METADATA, 4, none) == Ok(Partial(Some(v), None));
    assert ReadSections(b, 8, 2, none) == ReadSections(b, 20, 1, Partial(Some(v), None));
    assert ReadSection(b, 28, SECTION_TYPE_CODE, length, Partial(Some(v), None)) == Ok(Partial(Some(v), Some(code)));
  }

  /** The part of the program that the length field can count. */
  function Countable(p: Program): Program {
    p.(instructions := p.instructions[..|p.instructions| % 0x1000_0000])
  }

  /** For every program and whatever follows it, reading back a written program gives
      the same version and the instructions the 32-bit length field can count. */
  lemma ReadBackWhatWasWritten(p: Program, junk: seq<u8>)
    ensures Parse(Binary(p) + junk) == Ok(Countable(p))
  {
    var code := CodeBytes(p.instructions);
    var b := Header(p.version, AsU32(16 * |p.instructions|)) + (code + junk);
    assert Binary(p) + junk == b;
    CodeLength(p.instructions);
    HeaderWords(p.version, AsU32(16 * |p.instructions|), code + junk);
    assert b[28..28 + 16 * |p.instructions|] == code;
    CodeEncodes(b, 28, p.instructions);
    ReadBackLayout(p, b);
  }

  lemma CodeLength(instructions: seq<Instruction>)
    ensures |CodeBytes(instructions)| == 16 * |instructions|
  {
    if instructions != [] {
      BlockAt(Blocks(instructions), 0);
    }
  }

  lemma ReadBackLayout(p: Program, b: seq<u8>)
    requires |b| >= 28 && b[0..4] == MAGIC && WordAt(b, 4) == 2
    requires WordAt(b, 8) == SECTION_TYPE_METADATA && WordAt(b, 12) == 4 && WordAt(b, 16) == VersionBits(p.version)
    requires WordAt(b, 20) == SECTION_TYPE_CODE && WordAt(b, 24) == AsU32(16 * |p.instructions|)
    requires Encodes(b, 28, p.instructions)
    ensures Parse(b) == Ok(Program(p.version, p.instructions[..|p.instructions| % 0x1000_0000]))
  {
    var m := |p.instructions| % 0x1000_0000;
    TruncatedLength(|p.instructions|);
    DecodeCodeOf(p.instructions, b, 28, m);
    VersionRoundTrip(p.version);
    TwoSections(b, 16 * m, p.instructions[..m]);
  }

  lemma VersionRoundTrip(v: Version)
    ensures VersionOf(VersionBits(v)) == v
  {
    Split(v.major, v.minor, 0x1_0000);
  }

  /** A program survives the round trip exactly when it has fewer than 2^28 instructions. */
  lemma RoundTripIff(p: Program)
    ensures Parse(Binary(p)) == Ok(p) <==> |p.instructions| < 0x1000_0000
  {
    assert Binary(p) + [] == Binary(p);
    ReadBackWhatWasWritten(p, []);
    CutIsWhole(p, Parse(Binary(p)));
  }

  lemma CutIsWhole(p: Program, r: Result<Program, ProgramError>)
    requires r == Ok(Countable(p))
    ensures r == Ok(p) <==> |p.instructions| < 0x1000_0000
  {
    var n := |p.instructions|;
    if n < 0x1000_0000 {
      assert p.instructions[..n % 0x1000_0000] == p.instructions;
    } else {
      assert |r.value.instructions| < n;
    }
  }

  /** Bytes that announce their own length as a written program does. */
  ghost predicate Framed(b: seq<u8>) {
    && |b| >= 28 && b[0..4] == MAGIC && WordAt(b, 4) == 2
    && WordAt(b, 8) == SECTION_TYPE_METADATA && WordAt(b, 12) == 4
    && WordAt(b, 20) == SECTION_TYPE_CODE && |b| == 28 + WordAt(b, 24)
  }

  lemma HeaderFrames(v: Version, length: u32, code: seq<u8>)
    requires |code| == length
    ensures Framed(Header(v, length) + code)
  {
    HeaderWords(v, length, code);
  }

  lemma BinaryIsFramed(p: Program)
    requires |p.instructions| < 0x1000_0000
    ensures Framed(Binary(p))
  {
    CodeLength(p.instructions);
    HeaderFrames(p.version, 16 * |p.instructions|, CodeBytes(p.instructions));
    SmallIsUncut(16 * |p.instructions|);
  }

  lemma SmallIsUncut(n: nat)
    requires n < 0x1_0000_0000
    ensures AsU32(n) == n
  {
  }

  /** Refused for being cut off at `k` bytes, with more expected. */
  predicate CutOff(r: Result<Program, ProgramError>, k: nat) {
    r.Err? && r.error.Truncated? && r.error.got == k && r.error.expected > k
  }

  lemma {:induction false} JoinedPrefix(blocks: seq<seq<u8>>, m: nat)
    requires m <= |blocks|
    ensures Joined(blocks[..m]) <= Joined(blocks)
  {
    if m < |blocks| {
      JoinedPrefix(blocks[..|blocks| - 1], m);
      assert blocks[..|blocks| - 1][..m] == blocks[..m];
    } else {
      assert blocks[..m] == blocks;
    }
  }

  /** A written program starts with its countable part as that would be written. */
  lemma StartsWithCountable(p: Program)
    ensures Binary(Countable(p)) <= Binary(p)
    ensures |Binary(Countable(p))| == 28 + 16 * (|p.instructions| % 0x1000_0000)
  {
    var m := |p.instructions| % 0x1000_0000;
    TruncatedLength(|p.instructions|);
    SmallIsUncut(16 * m);
    JoinedPrefix(Blocks(p.instructions), m);
    assert Blocks(p.instructions)[..m] == Blocks(p.instructions[..m]);
    CodeLength(p.instructions[..m]);
    SameHeader(Header(p.version, 16 * m), CodeBytes(p.instructions[..m]), CodeBytes(p.instructions));
  }

  lemma SameHeader(header: seq<u8>, code: seq<u8>, longer: seq<u8>)
    requires code <= longer
    ensures header + code <= header + longer
  {
  }

  /** A written program cut short is refused as truncated exactly when the cut reaches
      what the length field counts; a longer piece gives just that part back. */
  lemma PrefixIsTruncatedIff(p: Program, b: seq<u8>, k: nat)
    requires b == Binary(p) && k <= |b|
    ensures CutOff(Parse(b[..k]), k) <==> k < 28 + 16 * (|p.instructions| % 0x1000_0000)
    ensures !CutOff(Parse(b[..k]), k) ==> Parse(b[..k]) == Ok(Countable(p))
  {
    var q, written := CountablePart(p, b);
    PrefixOfWritten(q, written, b, k);
  }

  lemma CountablePart(p: Program, b: seq<u8>) returns (q: Program, written: seq<u8>)
    requires b == Binary(p)
    ensures q == Countable(p) && |q.instructions| < 0x1000_0000 && written == Binary(q) && written <= b
    ensures |written| == 28 + 16 * (|p.instructions| % 0x1000_0000)
  {
    StartsWithCountable(p);
    q := Countable(p);
    written := Binary(q);
  }

  lemma PrefixOfWritten(q: Program, written: seq<u8>, b: seq<u8>, k: nat)
    requires |q.instructions| < 0x1000_0000 && written == Binary(q) && written <= b && k <= |b|
    ensures CutOff(Parse(b[..k]), k) <==> k < |written|
    ensures !CutOff(Parse(b[..k]), k) ==> Parse(b[..k]) == Ok(q)
  {
    if k < |written| {
      assert b[..k] == written[..k];
      EveryPrefixIsTruncated(q, k);
    } else {
      var junk := b[|written|..k];
      assert b[..k] == written + junk;
      ReadBackWhole(q, junk);
    }
  }

  lemma ReadBackWhole(p: Program, junk: seq<u8>)
    requires |p.instructions| < 0x1000_0000
    ensures Parse(Binary(p) + junk) == Ok(p)
  {
    ReadBackWhatWasWritten(p, junk);
    CutIsWhole(p, Parse(Binary(p) + junk));
  }

  /** With fewer than 2^28 instructions, cutting anywhere is noticed as truncation. */
  lemma EveryPrefixIsTruncated(p: Program, k: nat)
    requires |p.instructions| < 0x1000_0000 && k < |Binary(p)|
    ensures CutOff(Parse(Binary(p)[..k]), k)
  {
    BinaryIsFramed(p);
    CutShort(Binary(p), k);
  }

  lemma WordOfPrefix(b: seq<u8>, k: nat, o: nat)
    requires o + 4 <= k <= |b|
    ensures WordAt(b[..k], o) == WordAt(b, o)
  {
    assert b[..k][o..o + 4] == b[o..o + 4];
  }

  lemma CutShort(b: seq<u8>, k: nat)
    requires Framed(b) && k < |b|
    ensures CutOff(Parse(b[..k]), k)
  {
    if k >= 8 {
      assert b[..k][0..4] == b[0..4];
      WordOfPrefix(b, k, 4);
    }
    if k >= 16 {
      WordOfPrefix(b, k, 8);
      WordOfPrefix(b, k, 12);
    }
    if k >= 28 {
      WordOfPrefix(b, k, 20);
      WordOfPrefix(b, k, 24);
    }
  }

  // --- Arbitrary bytes ---

  /** Bytes after the last section never matter. */
  lemma TrailingBytesIgnored(b: seq<u8>, junk: seq<u8>)
    requires Parse(b).Ok?
    ensures Parse(b + junk) == Parse(b)
  {
    assert (b + junk)[0..4] == b[0..4] && (b + junk)[4..8] == b[4..8];
    SectionsIgnoreTrailing(b, b + junk, 8, WordAt(b, 4), Partial(None, None));
  }

  /** What the first of `n` sections adds, when all of them are read. */
  ghost predicate FirstSection(b: seq<u8>, o: nat, acc: Partial, length: nat, next: Partial) {
    && o + 8 + length <= |b|
    && WordAt(b, o + 4) == length
    && ReadSection(b, o + 8, WordAt(b, o), length, acc) == Ok(next)
  }

  lemma FirstSectionExists(b: seq<u8>, o: nat, n: nat, acc: Partial) returns (length: nat, next: Partial)
    requires n > 0 && ReadSections(b, o, n, acc).Ok?
    ensures FirstSection(b, o, acc, length, next)
  {
    length := WordAt(b, o + 4);
    next := ReadSection(b, o + 8, WordAt(b, o), length, acc).value;
  }

  lemma FirstThenRest(b: seq<u8>, o: nat, n: nat, acc: Partial, length: nat, next: Partial)
    requires n > 0 && FirstSection(b, o, acc, length, next)
    ensures ReadSections(b, o, n, acc) == ReadSections(b, o + 8 + length, n - 1, next)
  {
  }

  lemma FirstSectionIgnoresTrailing(b: seq<u8>, whole: seq<u8>, o: nat, acc: Partial, length: nat, next: Partial)
    requires FirstSection(b, o, acc, length, next) && b <= whole
    ensures FirstSection(whole, o, acc, length, next)
  {
    assert whole[o..o + 4] == b[o..o + 4] && whole[o + 4..o + 8] == b[o + 4..o + 8];
    SectionIgnoresTrailing(b, whole, o + 8, WordAt(b, o), length, acc);
  }

  lemma {:induction false} SectionsIgnoreTrailing(b: seq<u8>, whole: seq<u8>, o: nat, n: nat, acc: Partial)
    requires o <= |b| && ReadSections(b, o, n, acc).Ok? && b <= whole
    ensures ReadSections(whole, o, n, acc) == ReadSections(b, o, n, acc)
    decreases n
  {
    if n > 0 {
      var length, next := FirstSectionExists(b, o, n, acc);
      FirstThenRest(b, o, n, acc, length, next);
      SectionsIgnoreTrailing(b, whole, o + 8 + length, n - 1, next);
      FirstSectionIgnoresTrailing(b, whole, o, acc, length, next);
      FirstThenRest(whole, o, n, acc, length, next);
    }
  }

  lemma SectionIgnoresTrailing(b: seq<u8>, whole: seq<u8>, o: nat, kind: u32, length: nat, acc: Partial)
    requires o + length <= |b| && b <= whole
    ensures ReadSection(whole, o, kind, length, acc) == ReadSection(b, o, kind, length, acc)
  {
    if length >= 4 {
      assert whole[o..o + 4] == b[o..o + 4];
    }
    if length % 16 == 0 {
      CodeIgnoresTrailing(b, whole, o, length / 16);
    }
  }

  lemma CodeIgnoresTrailing(b: seq<u8>, whole: seq<u8>, o: nat, count: nat)
    requires o + 16 * count <= |b| && b <= whole
    ensures Decoded(whole, o, count) == Decoded(b, o, count)
  {
    forall i | 0 <= i < count
      ensures whole[o + 16 * i..o + 16 * i + 16] == b[o + 16 * i..o + 16 * i + 16]
    {
    }
  }

  /** Any accepted bytes hold at least 8 per declared section, and what they decode
      to is a program that writing and reading preserve. */
  lemma AcceptedProgramsRoundTrip(b: seq<u8>)
    requires Parse(b).Ok?
    ensures |b| >= 8 + 8 * WordAt(b, 4)
    ensures Parse(Binary(Parse(b).value)) == Parse(b)
  {
    SectionsAreBounded(b, 8, WordAt(b, 4), Partial(None, None));
    RoundTripIff(Parse(b).value);
  }

  predicate Addressable(acc: Partial) {
    acc.code.Some? ==> |acc.code.value| < 0x1000_0000
  }

  lemma FirstSectionIsAddressable(b: seq<u8>, o: nat, acc: Partial, length: nat, next: Partial)
    requires FirstSection(b, o, acc, length, next) && Addressable(acc)
    ensures Addressable(next)
  {
  }

  lemma {:induction false} SectionsAreBounded(b: seq<u8>, o: nat, n: nat, acc: Partial)
    requires o <= |b| && ReadSections(b, o, n, acc).Ok? && Addressable(acc)
    ensures o + 8 * n <= |b|
    ensures Addressable(ReadSections(b, o, n, acc).value)
    decreases n
  {
    if n > 0 {
      var length, next := FirstSectionExists(b, o, n, acc);
      FirstThenRest(b, o, n, acc, length, next);
      FirstSectionIsAddressable(b, o, acc, length, next);
      SectionsAreBounded(b, o + 8 + length, n - 1, next);
    }
  }
}
