/** Which bytes are accepted, by their section layout. */
module Sections {
  import opened Basics
  import opened Codec
  import opened Container
  import Formats

  datatype Section = Section(kind: u32, payload: seq<u8>)

  ghost predicate Fits(sections: seq<Section>) {
    |sections| < 0x1_0000_0000 && forall i :: 0 <= i < |sections| ==> |sections[i].payload| < 0x1_0000_0000
  }

  function Frame(s: Section): seq<u8>
    requires |s.payload| < 0x1_0000_0000
  {
    LittleEndian(s.kind) + LittleEndian(|s.payload|) + s.payload
  }

  ghost function Frames(sections: seq<Section>): seq<u8>
    requires Fits(sections)
  {
    if sections == [] then [] else Frame(sections[0]) + Frames(sections[1..])
  }

  /** "BLQD", the number of sections, and each section's type, length and payload. */
  ghost function File(sections: seq<Section>): seq<u8>
    requires Fits(sections)
  {
    [0x42, 0x4C, 0x51, 0x44] + LittleEndian(|sections|) + Frames(sections)
  }

  // --- One section ---

  function VersionIn(payload: seq<u8>): Version
    requires |payload| >= 4
  {
    var b0: int, b1: int, b2: int, b3: int := payload[0], payload[1], payload[2], payload[3];
    Version(b2 + b3 * 256, b0 + b1 * 256)
  }

  function BlockOf(payload: seq<u8>, i: nat): Result<Instruction, DecodeError>
    requires 16 * i + 16 <= |payload|
  {
    FromBytes(payload[16 * i..16 * i + 16])
  }

  /** The payload is the 16-byte encodings of `code`. */
  ghost predicate HoldsCode(payload: seq<u8>, code: seq<Instruction>) {
    |payload| == 16 * |code| && forall i :: 0 <= i < |code| ==> BlockOf(payload, i) == Ok(code[i])
  }

  ghost predicate Good(s: Section) {
    || (s.kind == 0 && |s.payload| >= 4)
    || (s.kind == 1 && exists code :: HoldsCode(s.payload, code))
  }

  /** What is wrong with a section that is refused: in a code section whose length is a
      multiple of 16, the first block that does not decode. */
  ghost predicate Refused(s: Section, e: ProgramError) {
    || (s.kind == 0 && |s.payload| < 4 && e == Truncated(4, |s.payload|))
    || (s.kind == 1 && |s.payload| % 16 != 0 && e == InvalidCodeSectionLength(|s.payload|))
    || (s.kind == 1 && |s.payload| % 16 == 0
        && exists i, why :: FirstBadBlock(s.payload, i, why) && e == BadInstruction(why))
    || (s.kind > 1 && e == UnknownSectionType(s.kind))
  }

  ghost predicate FirstBadBlock(payload: seq<u8>, i: nat, why: DecodeError) {
    && 16 * i + 16 <= |payload| && BlockOf(payload, i) == Err(why)
    && forall j :: 0 <= j < i ==> BlockOf(payload, j).Ok?
  }

  lemma VersionRead(payload: seq<u8>)
    requires |payload| >= 4
    ensures VersionOf(WordAt(payload, 0)) == VersionIn(payload)
  {
    assert payload[0..4] == [payload[0], payload[1], payload[2], payload[3]];
    Formats.LittleEndianMeans(payload[0], payload[1], payload[2], payload[3]);
    var a: int, b: int, c: int, d: int := payload[0], payload[1], payload[2], payload[3];
    Split(c + d * 256, a + b * 256, 0x1_0000);
  }

  lemma CodeRead(payload: seq<u8>, code: seq<Instruction>)
    requires HoldsCode(payload, code)
    ensures DecodeCode(payload, 0, |code|) == Ok(code)
  {
    var rs := Decoded(payload, 0, |code|);
    forall i | 0 <= i < |rs| ensures rs[i] == Ok(code[i]) {
      assert rs[i] == BlockOf(payload, i);
    }
    CollectAll(rs, code);
    assert code[..|code|] == code;
  }

  lemma BadBlockRead(payload: seq<u8>, i: nat, why: DecodeError)
    requires |payload| % 16 == 0 && FirstBadBlock(payload, i, why)
    ensures DecodeCode(payload, 0, |payload| / 16) == Err(BadInstruction(why))
  {
    var n := |payload| / 16;
    var rs := Decoded(payload, 0, n);
    forall j | 0 <= j < n ensures rs[j] == BlockOf(payload, j) {
    }
    BadCollected(rs, i, why);
  }

  lemma BadCollected(rs: seq<Result<Instruction, DecodeError>>, i: nat, why: DecodeError)
    requires i < |rs| && rs[i] == Err(why) && forall j :: 0 <= j < i ==> rs[j].Ok?
    ensures Collect(rs) == Err(BadInstruction(why))
  {
    var before := rs[..i];
    CollectAll(before, seq(i, j requires 0 <= j < i => rs[j].value));
    assert rs[..i + 1][..i] == before;
    CollectStops(rs, i + 1);
  }

  lemma {:induction false} BlocksDecideUpTo(payload: seq<u8>, n: nat)
    returns (code: seq<Instruction>, i: nat, why: DecodeError)
    requires 16 * n <= |payload|
    ensures || (|code| == n && forall j :: 0 <= j < n ==> BlockOf(payload, j) == Ok(code[j]))
            || (i < n && FirstBadBlock(payload, i, why))
  {
    code, i, why := [], 0, UnknownOpcode(0);
    if n > 0 {
      code, i, why := BlocksDecideUpTo(payload, n - 1);
      if |code| == n - 1 && forall j :: 0 <= j < n - 1 ==> BlockOf(payload, j) == Ok(code[j]) {
        match BlockOf(payload, n - 1)
        case Ok(x) => code := code + [x];
        case Err(e) => i, why := n - 1, e;
      }
    }
  }

  /** How a good section is read, and that a bad one is refused. */
  ghost predicate ReadAs(s: Section, acc: Partial, r: Result<Partial, ProgramError>) {
    && (r.Ok? <==> Good(s))
    && (r.Err? ==> Refused(s, r.error))
    && (Good(s) && s.kind == 0 ==> r == Ok(acc.(version := Some(VersionIn(s.payload)))))
    && (Good(s) && s.kind == 1 ==>
          r.value.version == acc.version && r.value.code.Some? && HoldsCode(s.payload, r.value.code.value))
  }

  /** A section is good or refused, and how it is read says which. */
  lemma SectionMeans(s: Section, acc: Partial)
    ensures ReadAs(s, acc, ReadSection(s.payload, 0, s.kind, |s.payload|, acc))
  {
    if s.kind == 0 && |s.payload| >= 4 {
      VersionRead(s.payload);
    }
    if s.kind == 1 && |s.payload| % 16 == 0 {
      var code, i, why := BlocksDecideUpTo(s.payload, |s.payload| / 16);
      if |code| == |s.payload| / 16 && forall j :: 0 <= j < |code| ==> BlockOf(s.payload, j) == Ok(code[j]) {
        assert HoldsCode(s.payload, code);
        CodeRead(s.payload, code);
      } else {
        BadBlockRead(s.payload, i, why);
        forall code ensures !HoldsCode(s.payload, code) {
        }
      }
    }
  }

  // --- All sections ---

  function One(s: Section, acc: Partial): Result<Partial, ProgramError> {
    ReadSection(s.payload, 0, s.kind, |s.payload|, acc)
  }

  /** The sections one after another. */
  function ReadAll(sections: seq<Section>, acc: Partial): Result<Partial, ProgramError> {
    if sections == [] then Ok(acc)
    else
      match One(sections[0], acc)
      case Err(e) => Err(e)
      case Ok(next) => ReadAll(sections[1..], next)
  }

  /** Section `i` is the last of its kind. */
  predicate LastOfKind(sections: seq<Section>, i: int, kind: u32) {
    0 <= i < |sections| && sections[i].kind == kind && forall j :: i < j < |sections| ==> sections[j].kind != kind
  }

  /** The version is that of the last metadata section, the code that of the last code
      section, and where there is none what was there before. */
  ghost predicate Holds(sections: seq<Section>, acc: Partial, r: Partial) {
    && (forall i :: LastOfKind(sections, i, 0) ==>
          |sections[i].payload| >= 4 && r.version == Some(VersionIn(sections[i].payload)))
    && (forall i :: LastOfKind(sections, i, 1) ==> r.code.Some? && HoldsCode(sections[i].payload, r.code.value))
    && ((forall i :: 0 <= i < |sections| ==> sections[i].kind != 0) ==> r.version == acc.version)
    && ((forall i :: 0 <= i < |sections| ==> sections[i].kind != 1) ==> r.code == acc.code)
  }

  lemma {:induction false} GoodSectionsRead(sections: seq<Section>, acc: Partial)
    requires forall i :: 0 <= i < |sections| ==> Good(sections[i])
    ensures ReadAll(sections, acc).Ok? && Holds(sections, acc, ReadAll(sections, acc).value)
  {
    if sections != [] {
      var rest := sections[1..];
      SectionMeans(sections[0], acc);
      var next := ReadSection(sections[0].payload, 0, sections[0].kind, |sections[0].payload|, acc).value;
      GoodSectionsRead(rest, next);
      HoldsCons(sections, acc, next, ReadAll(rest, next).value);
    }
  }

  lemma HoldsCons(sections: seq<Section>, acc: Partial, next: Partial, r: Partial)
    requires sections != [] && Good(sections[0]) && Holds(sections[1..], next, r)
    requires sections[0].kind == 0 ==> next == acc.(version := Some(VersionIn(sections[0].payload)))
    requires sections[0].kind == 1 ==>
               next.version == acc.version && next.code.Some? && HoldsCode(sections[0].payload, next.code.value)
    ensures Holds(sections, acc, r)
  {
    var rest := sections[1..];
    forall i, kind: u32 | LastOfKind(sections, i, kind) && i > 0 ensures LastOfKind(rest, i - 1, kind) {
      assert forall j :: i - 1 < j < |rest| ==> rest[j] == sections[j + 1];
    }
    forall kind: u32 | LastOfKind(sections, 0, kind) ensures forall i :: 0 <= i < |rest| ==> rest[i].kind != kind {
      assert forall j :: 0 <= j < |rest| ==> rest[j] == sections[j + 1];
    }
  }

  lemma {:induction false} BadSectionRead(sections: seq<Section>, acc: Partial, i: nat)
    requires i < |sections| && !Good(sections[i]) && forall j :: 0 <= j < i ==> Good(sections[j])
    ensures ReadAll(sections, acc).Err? && Refused(sections[i], ReadAll(sections, acc).error)
  {
    SectionMeans(sections[0], acc);
    if i > 0 {
      var next := ReadSection(sections[0].payload, 0, sections[0].kind, |sections[0].payload|, acc).value;
      BadSectionRead(sections[1..], next, i - 1);
    }
  }

  // --- From bytes to sections ---

  lemma CodeInside(b: seq<u8>, o: nat, payload: seq<u8>)
    requires o + |payload| <= |b| && b[o..o + |payload|] == payload && |payload| % 16 == 0
    ensures DecodeCode(b, o, |payload| / 16) == DecodeCode(payload, 0, |payload| / 16)
  {
    var n := |payload| / 16;
    forall i | 0 <= i < n ensures b[o + 16 * i..o + 16 * i + 16] == payload[16 * i..16 * i + 16] {
      SliceOfSlice(b, o, |payload|, 16 * i);
    }
    assert Decoded(b, o, n) == Decoded(payload, 0, n);
  }

  lemma SectionInside(b: seq<u8>, o: nat, kind: u32, payload: seq<u8>, acc: Partial)
    requires o + |payload| <= |b| && b[o..o + |payload|] == payload
    ensures ReadSection(b, o, kind, |payload|, acc) == ReadSection(payload, 0, kind, |payload|, acc)
  {
    if |payload| >= 4 {
      assert b[o..o + 4] == payload[0..4];
    }
    if |payload| % 16 == 0 {
      CodeInside(b, o, payload);
    }
  }

  lemma FrameInside(b: seq<u8>, o: nat, s: Section)
    requires |s.payload| < 0x1_0000_0000 && o + 8 + |s.payload| <= |b| && b[o..o + 8 + |s.payload|] == Frame(s)
    ensures WordAt(b, o) == s.kind && WordAt(b, o + 4) == |s.payload|
    ensures b[o + 8..o + 8 + |s.payload|] == s.payload
  {
    var kind, length := LittleEndian(s.kind), LittleEndian(|s.payload|);
    assert Frame(s) == kind + (length + s.payload);
    FirstFrame(b, o, kind, length + s.payload);
    FirstFrame(b, o + 4, length, s.payload);
    LittleEndianRoundTrip(s.kind);
    LittleEndianRoundTrip(|s.payload|);
  }

  predicate Placed(b: seq<u8>, o: nat, s: Section) {
    |s.payload| < 0x1_0000_0000 && o + 8 + |s.payload| <= |b| && b[o..o + 8 + |s.payload|] == Frame(s)
  }

  /** A reader of `n` sections from an offset on that takes one placed section at a time. */
  ghost predicate TakesOne(read: (nat, nat, Partial) -> Result<Partial, ProgramError>, b: seq<u8>) {
    && (forall o: nat, acc :: read(o, 0, acc) == Ok(acc))
    && forall o: nat, n: nat, s, acc {:trigger Placed(b, o, s), read(o, n, acc)} :: n > 0 && Placed(b, o, s) ==>
         && (One(s, acc).Err? ==> read(o, n, acc) == One(s, acc))
         && (One(s, acc).Ok? ==> read(o, n, acc) == read(o + 8 + |s.payload|, n - 1, One(s, acc).value))
  }

  lemma {:induction false} TakesAll(
    read: (nat, nat, Partial) -> Result<Partial, ProgramError>,
    b: seq<u8>, o: nat, sections: seq<Section>, acc: Partial)
    requires TakesOne(read, b) && Fits(sections)
    requires o + |Frames(sections)| <= |b| && b[o..o + |Frames(sections)|] == Frames(sections)
    ensures read(o, |sections|, acc) == ReadAll(sections, acc)
    decreases |sections|
  {
    if sections != [] {
      var s := sections[0];
      FirstOfFrames(b, o, sections);
      assert Placed(b, o, s);
      var r := One(s, acc);
      if r.Ok? {
        TakesAll(read, b, o + 8 + |s.payload|, sections[1..], r.value);
      }
    }
  }

  /** Section by section, the bytes are read as the sections are. */
  lemma FramesRead(b: seq<u8>, o: nat, sections: seq<Section>, acc: Partial)
    requires Fits(sections) && o + |Frames(sections)| <= |b| && b[o..o + |Frames(sections)|] == Frames(sections)
    ensures ReadSections(b, o, |sections|, acc) == ReadAll(sections, acc)
  {
    ReaderTakesOne(b);
    TakesAll(Reader(b), b, o, sections, acc);
  }

  function Reader(b: seq<u8>): (nat, nat, Partial) -> Result<Partial, ProgramError> {
    (o: nat, n: nat, acc: Partial) => ReadSections(b, o, n, acc)
  }

  lemma ReaderTakesOne(b: seq<u8>)
    ensures TakesOne(Reader(b), b)
  {
    var read := Reader(b);
    forall o: nat, n: nat, s, acc | n > 0 && Placed(b, o, s)
      ensures One(s, acc).Err? ==> read(o, n, acc) == One(s, acc)
      ensures One(s, acc).Ok? ==> read(o, n, acc) == read(o + 8 + |s.payload|, n - 1, One(s, acc).value)
    {
      ReaderStep(b, o, n, s, acc, One(s, acc));
    }
  }

  lemma ReaderStep(b: seq<u8>, o: nat, n: nat, s: Section, acc: Partial, r: Result<Partial, ProgramError>)
    requires n > 0 && Placed(b, o, s) && r == One(s, acc)
    ensures r.Err? ==> Reader(b)(o, n, acc) == r
    ensures r.Ok? ==> Reader(b)(o, n, acc) == Reader(b)(o + 8 + |s.payload|, n - 1, r.value)
  {
    FrameRead(b, o, n, s, acc, r);
  }

  lemma FirstOfFrames(b: seq<u8>, o: nat, sections: seq<Section>)
    requires Fits(sections) && sections != []
    requires o + |Frames(sections)| <= |b| && b[o..o + |Frames(sections)|] == Frames(sections)
    ensures var n, rest := 8 + |sections[0].payload|, Frames(sections[1..]);
            && o + n + |rest| <= |b| && b[o..o + n] == Frame(sections[0]) && b[o + n..o + n + |rest|] == rest
  {
    TwoPieces(b, o, Frames(sections), Frame(sections[0]), Frames(sections[1..]));
  }

  lemma TwoPieces(b: seq<u8>, o: nat, whole: seq<u8>, first: seq<u8>, rest: seq<u8>)
    requires o + |whole| <= |b| && b[o..o + |whole|] == whole && whole == first + rest
    ensures b[o..o + |first|] == first && b[o + |first|..o + |first| + |rest|] == rest
  {
    FirstFrame(b, o, first, rest);
  }

  lemma FrameRead(b: seq<u8>, o: nat, n: nat, s: Section, acc: Partial, r: Result<Partial, ProgramError>)
    requires n > 0 && |s.payload| < 0x1_0000_0000
    requires o + 8 + |s.payload| <= |b| && b[o..o + 8 + |s.payload|] == Frame(s)
    requires r == One(s, acc)
    ensures r.Err? ==> ReadSections(b, o, n, acc) == r
    ensures r.Ok? ==> ReadSections(b, o, n, acc) == ReadSections(b, o + 8 + |s.payload|, n - 1, r.value)
  {
    FrameInside(b, o, s);
    SectionInside(b, o + 8, s.kind, s.payload, acc);
    OneFrame(b, o, n, s, acc, r);
  }

  lemma FirstFrame(b: seq<u8>, o: nat, first: seq<u8>, rest: seq<u8>)
    requires o + |first + rest| <= |b| && b[o..o + |first + rest|] == first + rest
    ensures b[o..o + |first|] == first && b[o + |first|..o + |first| + |rest|] == rest
  {
    var whole := first + rest;
    var w := b[o..o + |whole|];
    assert w[..|first|] == first && w[|first|..] == rest;
    assert w[..|first|] == b[o..o + |first|] && w[|first|..] == b[o + |first|..o + |whole|];
  }

  lemma OneFrame(b: seq<u8>, o: nat, n: nat, s: Section, acc: Partial, r: Result<Partial, ProgramError>)
    requires n > 0 && o + 8 + |s.payload| <= |b| && WordAt(b, o) == s.kind && WordAt(b, o + 4) == |s.payload|
    requires ReadSection(b, o + 8, s.kind, |s.payload|, acc) == r
    ensures r.Err? ==> ReadSections(b, o, n, acc) == r
    ensures r.Ok? ==> ReadSections(b, o, n, acc) == ReadSections(b, o + 8 + |s.payload|, n - 1, r.value)
  {
  }

  /** What the whole file gives, once its sections are read. */
  function Whole(r: Result<Partial, ProgramError>): Result<Program, ProgramError> {
    match r
    case Err(e) => Err(e)
    case Ok(acc) =>
      if acc.version.None? then Err(MissingMetadataSection)
      else if acc.code.None? then Err(MissingCodeSection)
      else Ok(Program(acc.version.value, acc.code.value))
  }

  lemma FileRead(sections: seq<Section>, junk: seq<u8>)
    requires Fits(sections)
    ensures Parse(File(sections) + junk) == Whole(ReadAll(sections, Partial(None, None)))
  {
    var frames := Frames(sections);
    var head := [0x42, 0x4C, 0x51, 0x44] + LittleEndian(|sections|);
    var b := File(sections) + junk;
    assert |head| == 8 && b == head + frames + junk;
    assert b[0..4] == [0x42, 0x4C, 0x51, 0x44] && b[4..8] == LittleEndian(|sections|);
    assert b[8..8 + |frames|] == frames;
    LittleEndianRoundTrip(|sections|);
    FramesRead(b, 8, sections, Partial(None, None));
    HeadRead(b, |sections|, ReadAll(sections, Partial(None, None)));
  }

  lemma HeadRead(b: seq<u8>, n: nat, r: Result<Partial, ProgramError>)
    requires |b| >= 8 && b[0..4] == [0x42, 0x4C, 0x51, 0x44] && WordAt(b, 4) == n
    requires ReadSections(b, 8, n, Partial(None, None)) == r
    ensures Parse(b) == Whole(r)
  {
  }

  /** A file of any sections, whatever follows it: the first bad section refuses it; when
      all are good it lacks a section, or is the program of the last version and code. */
  lemma FileMeans(sections: seq<Section>, junk: seq<u8>)
    requires Fits(sections)
    ensures var r := Parse(File(sections) + junk);
            && (forall i :: 0 <= i < |sections| && !Good(sections[i])
                            && (forall j :: 0 <= j < i ==> Good(sections[j])) ==>
                  r.Err? && Refused(sections[i], r.error))
            && ((forall i :: 0 <= i < |sections| ==> Good(sections[i])) ==> AcceptedOrMissing(sections, r))
  {
    FileRead(sections, junk);
    var none := Partial(None, None);
    forall i | 0 <= i < |sections| && !Good(sections[i]) && (forall j :: 0 <= j < i ==> Good(sections[j]))
      ensures ReadAll(sections, none).Err? && Refused(sections[i], ReadAll(sections, none).error)
    {
      BadSectionRead(sections, none, i);
    }
    if forall i :: 0 <= i < |sections| ==> Good(sections[i]) {
      GoodSectionsRead(sections, none);
      WholeMeans(sections, ReadAll(sections, none).value);
    }
  }

  ghost predicate Has(sections: seq<Section>, kind: u32) {
    exists i :: 0 <= i < |sections| && sections[i].kind == kind
  }

  ghost predicate AcceptedOrMissing(sections: seq<Section>, r: Result<Program, ProgramError>) {
    if !Has(sections, 0) then r == Err(MissingMetadataSection)
    else if !Has(sections, 1) then r == Err(MissingCodeSection)
    else
      && r.Ok?
      && (exists i :: LastOfKind(sections, i, 0) && |sections[i].payload| >= 4
                      && r.value.version == VersionIn(sections[i].payload))
      && (exists i :: LastOfKind(sections, i, 1) && HoldsCode(sections[i].payload, r.value.instructions))
  }

  lemma {:induction false} LastExists(sections: seq<Section>, kind: u32)
    requires Has(sections, kind)
    ensures exists i :: LastOfKind(sections, i, kind)
  {
    var n := |sections| - 1;
    if sections[n].kind == kind {
      assert LastOfKind(sections, n, kind);
    } else {
      var init := sections[..n];
      var k :| 0 <= k < |sections| && sections[k].kind == kind;
      assert init[k].kind == kind;
      LastExists(init, kind);
      var i :| LastOfKind(init, i, kind);
      assert LastOfKind(sections, i, kind);
    }
  }

  lemma WholeMeans(sections: seq<Section>, r: Partial)
    requires Holds(sections, Partial(None, None), r)
    ensures AcceptedOrMissing(sections, Whole(Ok(r)))
  {
    if Has(sections, 0) {
      LastExists(sections, 0);
    }
    if Has(sections, 1) {
      LastExists(sections, 1);
    }
  }

  // --- And back ---

  lemma WordBack(b: seq<u8>)
    requires |b| == 4
    ensures LittleEndian(FromLittleEndian(b)) == b
  {
    Formats.LittleEndianMeans(b[0], b[1], b[2], b[3]);
    assert b == [b[0], b[1], b[2], b[3]];
  }

  /** Bytes that are read section by section are framed. */
  lemma {:induction false} ReadIsFramed(b: seq<u8>, o: nat, n: nat, acc: Partial) returns (sections: seq<Section>)
    requires o <= |b| && n < 0x1_0000_0000 && ReadSections(b, o, n, acc).Ok?
    ensures Fits(sections) && |sections| == n
    ensures o + |Frames(sections)| <= |b| && b[o..o + |Frames(sections)|] == Frames(sections)
    decreases n
  {
    sections := [];
    if n > 0 {
      var length, next := FirstSectionExists(b, o, n, acc);
      FirstThenRest(b, o, n, acc, length, next);
      var s := FrameBack(b, o, length);
      var rest := ReadIsFramed(b, o + 8 + length, n - 1, next);
      sections := [s] + rest;
      assert sections[1..] == rest;
      FramesJoin(b, o, Frame(s), Frames(rest));
    }
  }

  lemma FrameBack(b: seq<u8>, o: nat, length: u32) returns (s: Section)
    requires o + 8 + length <= |b| && WordAt(b, o + 4) == length
    ensures |s.payload| == length && Frame(s) == b[o..o + 8 + length]
  {
    s := Section(WordAt(b, o), b[o + 8..o + 8 + length]);
    WordBack(b[o..o + 4]);
    WordBack(b[o + 4..o + 8]);
    assert b[o..o + 8 + length] == b[o..o + 4] + b[o + 4..o + 8] + s.payload;
  }

  lemma FramesJoin(b: seq<u8>, o: nat, first: seq<u8>, rest: seq<u8>)
    requires o + |first| + |rest| <= |b|
    requires b[o..o + |first|] == first && b[o + |first|..o + |first| + |rest|] == rest
    ensures b[o..o + |first + rest|] == first + rest
  {
  }

  /** Accepted bytes are a file of good sections, with something of both kinds, and
      whatever follows. With `FileMeans` this says exactly which bytes are accepted. */
  lemma AcceptedIsFile(b: seq<u8>) returns (sections: seq<Section>, junk: seq<u8>)
    requires Parse(b).Ok?
    ensures Fits(sections) && b == File(sections) + junk
    ensures (forall i :: 0 <= i < |sections| ==> Good(sections[i])) && Has(sections, 0) && Has(sections, 1)
  {
    sections := ReadIsFramed(b, 8, WordAt(b, 4), Partial(None, None));
    var frames := Frames(sections);
    junk := b[8 + |frames|..];
    WordBack(b[4..8]);
    assert b == b[0..4] + b[4..8] + b[8..8 + |frames|] + junk;
    FileMeans(sections, junk);
    AllGood(sections, Parse(b));
  }

  lemma AllGood(sections: seq<Section>, r: Result<Program, ProgramError>)
    requires r.Ok?
    requires forall i :: 0 <= i < |sections| && !Good(sections[i]) && (forall j :: 0 <= j < i ==> Good(sections[j])) ==>
               r.Err? && Refused(sections[i], r.error)
    requires (forall i :: 0 <= i < |sections| ==> Good(sections[i])) ==> AcceptedOrMissing(sections, r)
    ensures (forall i :: 0 <= i < |sections| ==> Good(sections[i])) && Has(sections, 0) && Has(sections, 1)
  {
    if i :| 0 <= i < |sections| && !Good(sections[i]) {
      var k := FirstBad(sections, i);
      assert false;
    }
  }

  lemma {:induction false} FirstBad(sections: seq<Section>, i: nat) returns (k: nat)
    requires i < |sections| && !Good(sections[i])
    ensures k < |sections| && !Good(sections[k]) && forall j :: 0 <= j < k ==> Good(sections[j])
    decreases i
  {
    k := i;
    if j :| 0 <= j < i && !Good(sections[j]) {
      k := FirstBad(sections, j);
    }
  }
}
