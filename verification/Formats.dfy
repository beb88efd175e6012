/** The binary formats byte by byte and bit by bit. */
module Formats {
  import opened Basics
  import opened Addr
  import opened Codec
  import opened Container

  // --- Packed addresses ---

  /** A location is [zone:8][word:16][site:16][0:24]. */
  lemma LocationBits(l: LocationAddr)
    ensures var bits := EncodeLocation(l);
            && bits / 0x100_0000_0000_0000 == l.zoneId % 256
            && bits / 0x100_0000_0000 % 65536 == l.wordId % 65536
            && bits / 0x100_0000 % 65536 == l.siteId % 65536
            && bits % 0x100_0000 == 0
  {
    LocationFields(AsU8(l.zoneId), AsU16(l.wordId), AsU16(l.siteId));
  }

  lemma LocationFields(z: int, w: int, s: int)
    requires 0 <= z < 0x100 && 0 <= w < 0x1_0000 && 0 <= s < 0x1_0000
    ensures var bits := z * 0x100_0000_0000_0000 + w * 0x100_0000_0000 + s * 0x100_0000;
            && bits / 0x100_0000_0000_0000 == z && bits / 0x100_0000_0000 % 0x1_0000 == w
            && bits / 0x100_0000 % 0x1_0000 == s && bits % 0x100_0000 == 0
  {
    Split(z, w * 0x100_0000_0000 + s * 0x100_0000, 0x100_0000_0000_0000);
    Split(z * 0x1_0000 + w, s * 0x100_0000, 0x100_0000_0000);
    Split(z * 0x1_0000_0000 + w * 0x1_0000 + s, 0, 0x100_0000);
    Split(z, w, 0x1_0000);
    Split(z * 0x1_0000 + w, s, 0x1_0000);
  }

  /** A lane is [word:16][site:16] and [direction:1][type:2][zone:8][0:5][bus:16]; in 64
      bits the first word is the low one. */
  lemma LaneBits(l: LaneAddr)
    ensures var (d0, d1) := EncodeLane(l);
            && d0 / 65536 == l.wordId % 65536 && d0 % 65536 == l.siteId % 65536
            && d1 / 0x8000_0000 == (if l.direction == Forward then 0 else 1)
            && d1 / 0x2000_0000 % 4 == (match l.moveType case SiteBus => 0 case WordBus => 1 case ZoneBus => 2)
            && d1 / 0x20_0000 % 256 == l.zoneId % 256
            && d1 / 65536 % 32 == 0
            && d1 % 65536 == l.busId % 65536
            && EncodeLaneU64(l) % 0x1_0000_0000 == d0 && EncodeLaneU64(l) / 0x1_0000_0000 == d1
  {
    var (d0, d1) := EncodeLane(l);
    Split(AsU16(l.wordId), AsU16(l.siteId), 0x1_0000);
    LaneWord(DirectionBit(l.direction), MoveTypeBits(l.moveType), AsU8(l.zoneId), AsU16(l.busId));
    LanePadding(DirectionBit(l.direction), MoveTypeBits(l.moveType), AsU8(l.zoneId), AsU16(l.busId));
    Split(d1, d0, 0x1_0000_0000);
  }

  lemma LanePadding(d: int, m: int, z: int, b: int)
    requires 0 <= d < 2 && 0 <= m < 3 && 0 <= z < 0x100 && 0 <= b < 0x1_0000
    ensures (d * 0x8000_0000 + m * 0x2000_0000 + z * 0x20_0000 + b) / 65536 % 32 == 0
  {
    Split(d * 0x8000 + m * 0x2000 + z * 0x20, b, 0x1_0000);
    Split(d * 0x400 + m * 0x100 + z, 0, 32);
  }

  // --- Instruction words ---

  lemma CpuWords(bits: u64, n: i64)
    ensures Encode(ConstInt(n))
         == var v := if n < 0 then n + 0x1_0000_0000_0000_0000 else n;
            Words(0x0200, v % 0x1_0000_0000, v / 0x1_0000_0000, 0)
    ensures Encode(ConstFloat(bits)) == Words(0x0300, bits % 0x1_0000_0000, bits / 0x1_0000_0000, 0)
    ensures Encode(Dup) == Words(0x0400, 0, 0, 0)
    ensures Encode(Pop) == Words(0x0500, 0, 0, 0)
    ensures Encode(Swap) == Words(0x0600, 0, 0, 0)
    ensures Encode(Return) == Words(0x6400, 0, 0, 0)
    ensures Encode(Halt) == Words(0xFF00, 0, 0, 0)
  {
  }

  lemma LaneConstantWords(v: u64, d0: u32, d1: u32)
    ensures Encode(ConstLoc(v)) == Words(0x000F, v % 0x1_0000_0000, v / 0x1_0000_0000, 0)
    ensures Encode(ConstLane(d0, d1)) == Words(0x010F, d0, d1, 0)
    ensures Encode(ConstZone(d0)) == Words(0x020F, d0, 0, 0)
  {
  }

  lemma ArrangementWords(n: u32)
    ensures Encode(InitialFill(n)) == Words(0x0010, n, 0, 0)
    ensures Encode(Fill(n)) == Words(0x0110, n, 0, 0)
    ensures Encode(MoveAtoms(n)) == Words(0x0210, n, 0, 0)
  {
  }

  lemma GateWords(n: u32)
    ensures Encode(LocalR(n)) == Words(0x0011, n, 0, 0)
    ensures Encode(LocalRz(n)) == Words(0x0111, n, 0, 0)
    ensures Encode(GlobalR) == Words(0x0211, 0, 0, 0)
    ensures Encode(GlobalRz) == Words(0x0311, 0, 0, 0)
    ensures Encode(CZ) == Words(0x0411, 0, 0, 0)
  {
  }

  lemma MeasurementWords(n: u32)
    ensures Encode(Measure(n)) == Words(0x0012, n, 0, 0)
    ensures Encode(AwaitMeasure) == Words(0x0112, 0, 0, 0)
  {
  }

  lemma ArrayWords(tag: u8, dim0: u16, dim1: u16)
    ensures Encode(NewArray(tag, dim0, dim1)) == Words(0x0013, tag * 0x100_0000 + dim0, dim1, 0)
    ensures Encode(GetItem(dim0)) == Words(0x0113, dim0, 0, 0)
    ensures Encode(SetDetector) == Words(0x0014, 0, 0, 0)
    ensures Encode(SetObservable) == Words(0x0114, 0, 0, 0)
  {
  }

  /** The opcodes in use; the upper half of the word is empty in all of them. */
  predicate IsOpcode(op: u32) {
    op in {0x0200, 0x0300, 0x0400, 0x0500, 0x0600, 0x6400, 0xFF00, 0x000F, 0x010F, 0x020F, 0x0010, 0x0110, 0x0210,
           0x0011, 0x0111, 0x0211, 0x0311, 0x0411, 0x0012, 0x0112, 0x0013, 0x0113, 0x0014, 0x0114}
  }

  /** Exactly these 24 opcodes decode. Of the others, one with an empty upper half and a
      low byte that is no device is an unknown device; any other is an unknown opcode,
      named by its low half. */
  lemma OpcodesInUse(w: Words)
    ensures Decode(w).Ok? <==> IsOpcode(w.op)
    ensures !IsOpcode(w.op) ==>
              Decode(w).error
              == if w.op < 0x1_0000 && w.op % 0x100 !in {0x00, 0x0F, 0x10, 0x11, 0x12, 0x13, 0x14}
                 then UnknownDeviceCode(w.op % 0x100)
                 else UnknownOpcode(w.op % 0x1_0000)
  {
    var device: u8, inst: u8 := w.op % 0x100, w.op / 0x100 % 0x100;
    if w.op < 0x1_0000 {
      assert w.op == inst * 0x100 + device;
      SelectMeans(device, inst, w.data0, w.data1);
    } else {
      assert w.op / 0x1_0000 != 0;
    }
  }

  lemma SelectMeans(device: u8, inst: u8, d0: u32, d1: u32)
    ensures Select(device, inst, d0, d1).Some? <==> IsOpcode(inst * 0x100 + device)
  {
  }

  // --- Bytes ---

  /** Least significant byte first. */
  lemma LittleEndianMeans(a: u8, b: u8, c: u8, d: u8)
    ensures LittleEndian(a + b * 0x100 + c * 0x1_0000 + d * 0x100_0000) == [a, b, c, d]
    ensures FromLittleEndian([a, b, c, d]) == a + b * 0x100 + c * 0x1_0000 + d * 0x100_0000
  {
    Split(d, a + b * 0x100 + c * 0x1_0000, 0x100_0000);
    Split(c + d * 0x100, a + b * 0x100, 0x1_0000);
    Split(b + c * 0x100 + d * 0x1_0000, a, 0x100);
    Split(d, c, 0x100);
    Split(c + d * 0x100, b, 0x100);
  }

  /** The sixteen bytes of an instruction are its words in order. */
  lemma BytesInOrder(i: Instruction)
    ensures BytesOf(i)[0..4] == LittleEndian(Encode(i).op) && BytesOf(i)[4..8] == LittleEndian(Encode(i).data0)
    ensures BytesOf(i)[8..12] == LittleEndian(Encode(i).data1) && BytesOf(i)[12..16] == LittleEndian(Encode(i).data2)
  {
  }

  /** The bytes before the code: "BLQD", two sections, the metadata section of 4 bytes
      with minor and major version, and the code section with its length. */
  lemma HeaderBytes(v: Version, length: u32)
    ensures Header(v, length)
         == [0x42, 0x4C, 0x51, 0x44, 2, 0, 0, 0, 0, 0, 0, 0, 4, 0, 0, 0,
             v.minor % 256, v.minor / 256, v.major % 256, v.major / 256, 1, 0, 0, 0,
             length % 256, length / 256 % 256, length / 65536 % 256, length / 0x100_0000]
  {
    LittleEndianMeans(2, 0, 0, 0);
    LittleEndianMeans(0, 0, 0, 0);
    LittleEndianMeans(4, 0, 0, 0);
    LittleEndianMeans(1, 0, 0, 0);
    VersionBytes(v);
  }

  lemma VersionBytes(v: Version)
    ensures LittleEndian(VersionBits(v)) == [v.minor % 256, v.minor / 256, v.major % 256, v.major / 256]
  {
    LittleEndianMeans(v.minor % 256, v.minor / 256, v.major % 256, v.major / 256);
    assert VersionBits(v)
      == v.minor % 256 + v.minor / 256 * 0x100 + v.major % 256 * 0x1_0000 + v.major / 256 * 0x100_0000;
  }

  /** A written program is those 28 bytes, and then 16 bytes for each instruction. */
  lemma BinaryBytes(p: Program, i: nat)
    requires i < |p.instructions|
    ensures |Binary(p)| == 28 + 16 * |p.instructions|
    ensures Binary(p)[..28] == Header(p.version, 16 * |p.instructions| % 0x1_0000_0000)
    ensures Binary(p)[28 + 16 * i..28 + 16 * i + 16] == BytesOf(p.instructions[i])
  {
    var header, code := Header(p.version, AsU32(16 * |p.instructions|)), CodeBytes(p.instructions);
    CodeLength(p.instructions);
    BlockAt(Blocks(p.instructions), i);
    CodeAfterHeader(header, code, 16 * i);
  }

  lemma CodeAfterHeader(header: seq<u8>, code: seq<u8>, o: nat)
    requires |header| == 28 && o + 16 <= |code|
    ensures (header + code)[..28] == header && (header + code)[28 + o..28 + o + 16] == code[o..o + 16]
  {
  }
}
