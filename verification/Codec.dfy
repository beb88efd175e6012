/** Instructions and their 16-byte encoding. */
module Codec {
  import opened Basics

  type i64 = x: int | -0x8000_0000_0000_0000 <= x < 0x8000_0000_0000_0000

  /** A float is kept as its bit pattern. */
  datatype Instruction =
    // CPU
    | ConstFloat(bits: u64)
    | ConstInt(value: i64)
    | Pop
    | Dup
    | Swap
    | Return
    | Halt
    // lane constants
    | ConstLoc(loc: u64)
    | ConstLane(lane0: u32, lane1: u32)
    | ConstZone(zone: u32)
    // atom arrangement
    | InitialFill(arity: u32)
    | Fill(arity: u32)
    | MoveAtoms(arity: u32)
    // quantum gates
    | LocalR(arity: u32)
    | LocalRz(arity: u32)
    | GlobalR
    | GlobalRz
    | CZ
    // measurement
    | Measure(arity: u32)
    | AwaitMeasure
    // arrays
    | NewArray(typeTag: u8, dim0: u16, dim1: u16)
    | GetItem(ndims: u16)
    // detectors and observables
    | SetDetector
    | SetObservable

  // --- Opcodes: [unused:16][instruction:8][device:8] ---

  const DEVICE_CPU: u8 := 0x00
  const DEVICE_LANE_CONSTANTS: u8 := 0x0F
  const DEVICE_ATOM_ARRANGEMENT: u8 := 0x10
  const DEVICE_QUANTUM_GATE: u8 := 0x11
  const DEVICE_MEASUREMENT: u8 := 0x12
  const DEVICE_ARRAY: u8 := 0x13
  const DEVICE_DETECTOR_OBSERVABLE: u8 := 0x14

  function DeviceCode(i: Instruction): u8 {
    match i
    case ConstFloat(_) => DEVICE_CPU
    case ConstInt(_) => DEVICE_CPU
    case Pop => DEVICE_CPU
    case Dup => DEVICE_CPU
    case Swap => DEVICE_CPU
    case Return => DEVICE_CPU
    case Halt => DEVICE_CPU
    case ConstLoc(_) => DEVICE_LANE_CONSTANTS
    case ConstLane(_, _) => DEVICE_LANE_CONSTANTS
    case ConstZone(_) => DEVICE_LANE_CONSTANTS
    case InitialFill(_) => DEVICE_ATOM_ARRANGEMENT
    case Fill(_) => DEVICE_ATOM_ARRANGEMENT
    case MoveAtoms(_) => DEVICE_ATOM_ARRANGEMENT
    case LocalR(_) => DEVICE_QUANTUM_GATE
    case LocalRz(_) => DEVICE_QUANTUM_GATE
    case GlobalR => DEVICE_QUANTUM_GATE
    case GlobalRz => DEVICE_QUANTUM_GATE
    case CZ => DEVICE_QUANTUM_GATE
    case Measure(_) => DEVICE_MEASUREMENT
    case AwaitMeasure => DEVICE_MEASUREMENT
    case NewArray(_, _, _) => DEVICE_ARRAY
    case GetItem(_) => DEVICE_ARRAY
    case SetDetector => DEVICE_DETECTOR_OBSERVABLE
    case SetObservable => DEVICE_DETECTOR_OBSERVABLE
  }

  function InstCode(i: Instruction): u8 {
    match i
    case ConstInt(_) => 0x02
    case ConstFloat(_) => 0x03
    case Dup => 0x04
    case Pop => 0x05
    case Swap => 0x06
    case Return => 0x64
    case Halt => 0xFF
    case ConstLoc(_) => 0x00
    case ConstLane(_, _) => 0x01
    case ConstZone(_) => 0x02
    case InitialFill(_) => 0x00
    case Fill(_) => 0x01
    case MoveAtoms(_) => 0x02
    case LocalR(_) => 0x00
    case LocalRz(_) => 0x01
    case GlobalR => 0x02
    case GlobalRz => 0x03
    case CZ => 0x04
    case Measure(_) => 0x00
    case AwaitMeasure => 0x01
    case NewArray(_, _, _) => 0x00
    case GetItem(_) => 0x01
    case SetDetector => 0x00
    case SetObservable => 0x01
  }

  function PackOpcode(device: u8, inst: u8): u16 {
    inst * 0x100 + device
  }

  function Opcode(i: Instruction): u16 {
    PackOpcode(DeviceCode(i), InstCode(i))
  }

  // --- Words ---

  datatype Words = Words(op: u32, data0: u32, data1: u32, data2: u32)

  function I64Bits(v: i64): u64 {
    if v < 0 then v + 0x1_0000_0000_0000_0000 else v
  }

  function BitsI64(bits: u64): i64 {
    if bits < 0x8000_0000_0000_0000 then bits else bits - 0x1_0000_0000_0000_0000
  }

  function Low(bits: u64): u32 {
    bits % 0x1_0000_0000
  }

  function High(bits: u64): u32 {
    bits / 0x1_0000_0000
  }

  function Join(low: u32, high: u32): u64 {
    low + high * 0x1_0000_0000
  }

  function Encode(i: Instruction): Words {
    var op := Opcode(i);
    match i
    case ConstFloat(bits) => Words(op, Low(bits), High(bits), 0)
    case ConstInt(v) => Words(op, Low(I64Bits(v)), High(I64Bits(v)), 0)
    case ConstLoc(v) => Words(op, Low(v), High(v), 0)
    case ConstLane(d0, d1) => Words(op, d0, d1, 0)
    case ConstZone(v) => Words(op, v, 0, 0)
    case InitialFill(n) => Words(op, n, 0, 0)
    case Fill(n) => Words(op, n, 0, 0)
    case MoveAtoms(n) => Words(op, n, 0, 0)
    case LocalR(n) => Words(op, n, 0, 0)
    case LocalRz(n) => Words(op, n, 0, 0)
    case Measure(n) => Words(op, n, 0, 0)
    case NewArray(tag, dim0, dim1) => Words(op, tag * 0x100_0000 + dim0, dim1, 0)
    case GetItem(n) => Words(op, n, 0, 0)
    case _ => Words(op, 0, 0, 0)
  }

  datatype DecodeError = UnknownOpcode(op: u16) | UnknownDeviceCode(device: u8)

  /** The instruction a device and instruction byte select, with its operands read
      from the data words; None for an unused instruction byte. */
  function Select(device: u8, inst: u8, d0: u32, d1: u32): Option<Instruction> {
    if device == DEVICE_CPU then
      if inst == 0x02 then Some(ConstInt(BitsI64(Join(d0, d1))))
      else if inst == 0x03 then Some(ConstFloat(Join(d0, d1)))
      else if inst == 0x04 then Some(Dup)
      else if inst == 0x05 then Some(Pop)
      else if inst == 0x06 then Some(Swap)
      else if inst == 0x64 then Some(Return)
      else if inst == 0xFF then Some(Halt)
      else None
    else if device == DEVICE_LANE_CONSTANTS then
      if inst == 0x00 then Some(ConstLoc(Join(d0, d1)))
      else if inst == 0x01 then Some(ConstLane(d0, d1))
      else if inst == 0x02 then Some(ConstZone(d0))
      else None
    else if device == DEVICE_ATOM_ARRANGEMENT then
      if inst == 0x00 then Some(InitialFill(d0))
      else if inst == 0x01 then Some(Fill(d0))
      else if inst == 0x02 then Some(MoveAtoms(d0))
      else None
    else if device == DEVICE_QUANTUM_GATE then
      if inst == 0x00 then Some(LocalR(d0))
      else if inst == 0x01 then Some(LocalRz(d0))
      else if inst == 0x02 then Some(GlobalR)
      else if inst == 0x03 then Some(GlobalRz)
      else if inst == 0x04 then Some(CZ)
      else None
    else if device == DEVICE_MEASUREMENT then
      if inst == 0x00 then Some(Measure(d0))
      else if inst == 0x01 then Some(AwaitMeasure)
      else None
    else if device == DEVICE_ARRAY then
      if inst == 0x00 then Some(NewArray(d0 / 0x100_0000 % 0x100, d0 % 0x1_0000, d1 % 0x1_0000))
      else if inst == 0x01 then Some(GetItem(AsU16(d0)))
      else None
    else if device == DEVICE_DETECTOR_OBSERVABLE then
      if inst == 0x00 then Some(SetDetector)
      else if inst == 0x01 then Some(SetObservable)
      else None
    else None
  }

  predicate KnownDevice(device: u8) {
    device in {DEVICE_CPU, DEVICE_LANE_CONSTANTS, DEVICE_ATOM_ARRANGEMENT, DEVICE_QUANTUM_GATE,
               DEVICE_MEASUREMENT, DEVICE_ARRAY, DEVICE_DETECTOR_OBSERVABLE}
  }

  function Decode(w: Words): Result<Instruction, DecodeError> {
    var device, inst := w.op % 0x100, w.op / 0x100 % 0x100;
    if w.op / 0x1_0000 != 0 then Err(UnknownOpcode(AsU16(w.op)))
    else if !KnownDevice(device) then Err(UnknownDeviceCode(device))
    else
      match Select(device, inst, w.data0, w.data1)
      case Some(i) => Ok(i)
      case None => Err(UnknownOpcode(AsU16(w.op)))
  }

  lemma OpcodeSplits(i: Instruction)
    ensures Opcode(i) % 0x100 == DeviceCode(i) && Opcode(i) / 0x100 == InstCode(i)
  {
    Split(InstCode(i), DeviceCode(i), 0x100);
  }

  lemma JoinHalves(bits: u64)
    ensures Join(Low(bits), High(bits)) == bits
  {
  }

  /** Decoding undoes encoding, for every instruction. */
  lemma DecodeEncode(i: Instruction)
    ensures Decode(Encode(i)) == Ok(i)
  {
    OpcodeSplits(i);
    assert InstCode(i) % 0x100 == InstCode(i);
    SelectEncoded(i);
  }

  lemma SelectEncoded(i: Instruction)
    ensures Select(DeviceCode(i), InstCode(i), Encode(i).data0, Encode(i).data1) == Some(i)
  {
    if DeviceCode(i) == DEVICE_CPU {
      SelectCpu(i);
    } else if DeviceCode(i) == DEVICE_LANE_CONSTANTS {
      SelectLaneConstant(i);
    } else if DeviceCode(i) == DEVICE_ARRAY {
      SelectArray(i);
    } else {
      SelectOther(i);
    }
  }

  lemma SelectCpu(i: Instruction)
    requires DeviceCode(i) == DEVICE_CPU
    ensures Select(DeviceCode(i), InstCode(i), Encode(i).data0, Encode(i).data1) == Some(i)
  {
    match i
    case ConstFloat(bits) => JoinHalves(bits);
    case ConstInt(v) => JoinHalves(I64Bits(v));
    case _ =>
  }

  lemma SelectLaneConstant(i: Instruction)
    requires DeviceCode(i) == DEVICE_LANE_CONSTANTS
    ensures Select(DeviceCode(i), InstCode(i), Encode(i).data0, Encode(i).data1) == Some(i)
  {
    if i.ConstLoc? {
      JoinHalves(i.loc);
    }
  }

  lemma SelectArray(i: Instruction)
    requires DeviceCode(i) == DEVICE_ARRAY
    ensures Select(DeviceCode(i), InstCode(i), Encode(i).data0, Encode(i).data1) == Some(i)
  {
    if i.NewArray? {
      Split(i.typeTag, i.dim0, 0x100_0000);
    }
  }

  lemma SelectOther(i: Instruction)
    requires DeviceCode(i) !in {DEVICE_CPU, DEVICE_LANE_CONSTANTS, DEVICE_ARRAY}
    ensures Select(DeviceCode(i), InstCode(i), Encode(i).data0, Encode(i).data1) == Some(i)
  {
  }

  lemma JoinSplits(d0: u32, d1: u32)
    ensures Low(Join(d0, d1)) == d0 && High(Join(d0, d1)) == d1
  {
  }

  /** The bits of `w` that matter to an instruction of `i`'s kind; the rest cleared. */
  function Significant(i: Instruction, w: Words): Words {
    match i
    case ConstFloat(_) => w.(data2 := 0)
    case ConstInt(_) => w.(data2 := 0)
    case ConstLoc(_) => w.(data2 := 0)
    case ConstLane(_, _) => w.(data2 := 0)
    case ConstZone(_) => w.(data1 := 0, data2 := 0)
    case InitialFill(_) => w.(data1 := 0, data2 := 0)
    case Fill(_) => w.(data1 := 0, data2 := 0)
    case MoveAtoms(_) => w.(data1 := 0, data2 := 0)
    case LocalR(_) => w.(data1 := 0, data2 := 0)
    case LocalRz(_) => w.(data1 := 0, data2 := 0)
    case Measure(_) => w.(data1 := 0, data2 := 0)
    case NewArray(_, _, _) =>
      Words(w.op, w.data0 / 0x100_0000 * 0x100_0000 + w.data0 % 0x1_0000, w.data1 % 0x1_0000, 0)
    case GetItem(_) => Words(w.op, w.data0 % 0x1_0000, 0, 0)
    case _ => Words(w.op, 0, 0, 0)
  }

  /** Encoding undoes decoding but for ignored bits: the opcode comes back exactly,
      so no two instruction kinds share one. */
  lemma EncodeDecode(w: Words)
    requires Decode(w).Ok?
    ensures Encode(Decode(w).value) == Significant(Decode(w).value, w)
  {
    var device: u8, inst: u8 := w.op % 0x100, w.op / 0x100 % 0x100;
    assert w.op == inst * 0x100 + device;
    SelectCodes(device, inst, w.data0, w.data1);
    SelectData(device, inst, w);
  }

  lemma SelectData(device: u8, inst: u8, w: Words)
    requires Select(device, inst, w.data0, w.data1).Some?
    ensures var i := Select(device, inst, w.data0, w.data1).value;
            Encode(i) == Significant(i, w).(op := Opcode(i))
  {
    JoinSplits(w.data0, w.data1);
    assert w.data0 / 0x100_0000 % 0x100 == w.data0 / 0x100_0000;
  }

  lemma SelectCodes(device: u8, inst: u8, d0: u32, d1: u32)
    requires Select(device, inst, d0, d1).Some?
    ensures DeviceCode(Select(device, inst, d0, d1).value) == device
    ensures InstCode(Select(device, inst, d0, d1).value) == inst
  {
  }

  // --- Bytes ---

  function LittleEndian(x: u32): (r: seq<u8>)
    ensures |r| == 4
  {
    [x % 0x100, x / 0x100 % 0x100, x / 0x1_0000 % 0x100, x / 0x100_0000]
  }

  function FromLittleEndian(b: seq<u8>): u32
    requires |b| == 4
  {
    var b0: int, b1: int, b2: int, b3: int := b[0], b[1], b[2], b[3];
    b0 + b1 * 0x100 + b2 * 0x1_0000 + b3 * 0x100_0000
  }

  lemma LittleEndianRoundTrip(x: u32)
    ensures FromLittleEndian(LittleEndian(x)) == x
  {
    var a: int := x / 0x100;
    var c: int := a / 0x100;
    assert x / 0x1_0000 == c && x / 0x100_0000 == c / 0x100;
  }

  function BytesOf(i: Instruction): (r: seq<u8>)
    ensures |r| == 16
  {
    var w := Encode(i);
    LittleEndian(w.op) + LittleEndian(w.data0) + LittleEndian(w.data1) + LittleEndian(w.data2)
  }

  method ToBytes(i: Instruction) returns (bytes: array<u8>)
    ensures fresh(bytes) && bytes[..] == BytesOf(i)
  {
    var w := Encode(i);
    bytes := new u8[16](_ => 0);
    CopyWord(bytes, 0, w.op);
    CopyWord(bytes, 4, w.data0);
    CopyWord(bytes, 8, w.data1);
    CopyWord(bytes, 12, w.data2);
    assert bytes[..0] == [] && bytes[..16] == bytes[..];
  }

  method CopyWord(bytes: array<u8>, at: nat, x: u32)
    requires at + 4 <= bytes.Length
    modifies bytes
    ensures bytes[..at + 4] == old(bytes[..at]) + LittleEndian(x)
    ensures bytes[at + 4..] == old(bytes[at + 4..])
  {
    var le := LittleEndian(x);
    bytes[at], bytes[at + 1], bytes[at + 2], bytes[at + 3] := le[0], le[1], le[2], le[3];
    assert bytes[at..at + 4] == le;
    assert bytes[..at + 4] == bytes[..at] + bytes[at..at + 4];
  }

  function FromBytes(b: seq<u8>): Result<Instruction, DecodeError>
    requires |b| == 16
  {
    Decode(Words(FromLittleEndian(b[0..4]), FromLittleEndian(b[4..8]),
                 FromLittleEndian(b[8..12]), FromLittleEndian(b[12..16])))
  }

  lemma BytesRoundTrip(i: Instruction)
    ensures FromBytes(BytesOf(i)) == Ok(i)
  {
    var w, b := Encode(i), BytesOf(i);
    assert b[0..4] == LittleEndian(w.op) && b[4..8] == LittleEndian(w.data0);
    assert b[8..12] == LittleEndian(w.data1) && b[12..16] == LittleEndian(w.data2);
    LittleEndianRoundTrip(w.op);
    LittleEndianRoundTrip(w.data0);
    LittleEndianRoundTrip(w.data1);
    LittleEndianRoundTrip(w.data2);
    DecodeEncode(i);
  }
}
