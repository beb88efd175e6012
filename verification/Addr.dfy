/** Device addresses and their packed encodings.
    The fields of a packed word occupy disjoint bits, so the source's shifts,
    masks and ORs are written here as multiplication, division, remainder and sum. */
module Addr {
  import opened Basics

  datatype Direction = Forward | Backward

  datatype MoveType = SiteBus | WordBus | ZoneBus

  datatype ZonedWordRef = ZonedWordRef(zoneId: u8, wordId: u16)

  datatype LocationAddr = LocationAddr(zoneId: u32, wordId: u32, siteId: u32)

  datatype LaneAddr = LaneAddr(
    direction: Direction, moveType: MoveType,
    zoneId: u32, wordId: u32, siteId: u32, busId: u32)

  // --- Locations: [zone:8][word:16][site:16][pad:24] ---

  function EncodeLocation(l: LocationAddr): u64 {
    AsU8(l.zoneId) * 0x100_0000_0000_0000 + AsU16(l.wordId) * 0x100_0000_0000 + AsU16(l.siteId) * 0x100_0000
  }

  function DecodeLocation(bits: u64): LocationAddr {
    LocationAddr(bits / 0x100_0000_0000_0000 % 0x100,
                 bits / 0x100_0000_0000 % 0x1_0000,
                 bits / 0x100_0000 % 0x1_0000)
  }

  predicate LocationInRange(l: LocationAddr) {
    l.zoneId < 0x100 && l.wordId < 0x1_0000 && l.siteId < 0x1_0000
  }

  /** A location survives packing exactly when its fields fit their bits. */
  lemma LocationRoundTrip(l: LocationAddr)
    ensures DecodeLocation(EncodeLocation(l)) == l <==> LocationInRange(l)
  {
    var z: int, w: int, s: int := AsU8(l.zoneId), AsU16(l.wordId), AsU16(l.siteId);
    Split(z, w * 0x100_0000_0000 + s * 0x100_0000, 0x100_0000_0000_0000);
    Split(z * 0x1_0000 + w, s * 0x100_0000, 0x100_0000_0000);
    Split(z * 0x1_0000_0000 + w * 0x1_0000 + s, 0, 0x100_0000);
    Split(z, w, 0x1_0000);
    Split(z * 0x1_0000 + w, s, 0x1_0000);
  }

  /** Decoding forgets exactly the 24 padding bits. */
  lemma LocationReencode(bits: u64)
    ensures EncodeLocation(DecodeLocation(bits)) == bits - bits % 0x100_0000
    ensures LocationInRange(DecodeLocation(bits))
  {
    var a := bits / 0x100_0000;
    var b := bits / 0x100_0000_0000;
    assert b == a / 0x1_0000;
    assert bits / 0x100_0000_0000_0000 == b / 0x1_0000;
  }

  // --- Lanes: data0 = [word:16][site:16], data1 = [dir:1][type:2][zone:8][pad:5][bus:16] ---

  function DirectionBit(d: Direction): u8 {
    if d.Forward? then 0 else 1
  }

  function MoveTypeBits(m: MoveType): u8 {
    match m
    case SiteBus => 0
    case WordBus => 1
    case ZoneBus => 2
  }

  function EncodeLane(l: LaneAddr): (u32, u32) {
    (AsU16(l.wordId) * 0x1_0000 + AsU16(l.siteId),
     DirectionBit(l.direction) * 0x8000_0000 + MoveTypeBits(l.moveType) * 0x2000_0000
     + AsU8(l.zoneId) * 0x20_0000 + AsU16(l.busId))
  }

  /** None stands for the panic on the unused move-type code 3. */
  function DecodeLane(data0: u32, data1: u32): Option<LaneAddr> {
    var direction := if data1 / 0x8000_0000 % 2 == 0 then Forward else Backward;
    var mt := data1 / 0x2000_0000 % 4;
    if mt == 3 then None
    else
      var moveType := if mt == 0 then SiteBus else if mt == 1 then WordBus else ZoneBus;
      Some(LaneAddr(direction, moveType, data1 / 0x20_0000 % 0x100,
                    data0 / 0x1_0000 % 0x1_0000, data0 % 0x1_0000, data1 % 0x1_0000))
  }

  function EncodeLaneU64(l: LaneAddr): u64 {
    var (d0, d1) := EncodeLane(l);
    d0 + d1 * 0x1_0000_0000
  }

  function DecodeLaneU64(bits: u64): Option<LaneAddr> {
    DecodeLane(bits % 0x1_0000_0000, bits / 0x1_0000_0000)
  }

  predicate LaneInRange(l: LaneAddr) {
    l.zoneId < 0x100 && l.wordId < 0x1_0000 && l.siteId < 0x1_0000 && l.busId < 0x1_0000
  }

  /** Packing and unpacking a lane keeps the low bits of every field, never panics,
      and is the identity exactly on lanes whose fields fit. */
  lemma LaneRoundTrip(l: LaneAddr)
    ensures DecodeLane(EncodeLane(l).0, EncodeLane(l).1)
         == Some(LaneAddr(l.direction, l.moveType, AsU8(l.zoneId), AsU16(l.wordId), AsU16(l.siteId), AsU16(l.busId)))
    ensures DecodeLaneU64(EncodeLaneU64(l)) == Some(l) <==> LaneInRange(l)
  {
    LaneKeepsLowBits(l);
    JoinedWordsSplit(l, EncodeLane(l).0, EncodeLane(l).1);
    LowBitsAreAll(l);
  }

  lemma JoinedWordsSplit(l: LaneAddr, d0: u32, d1: u32)
    requires EncodeLane(l) == (d0, d1)
    ensures DecodeLaneU64(EncodeLaneU64(l)) == DecodeLane(d0, d1)
  {
    Split(d1, d0, 0x1_0000_0000);
  }

  lemma LowBitsAreAll(l: LaneAddr)
    ensures LaneAddr(l.direction, l.moveType, AsU8(l.zoneId), AsU16(l.wordId), AsU16(l.siteId), AsU16(l.busId)) == l
       <==> LaneInRange(l)
  {
  }

  lemma LaneKeepsLowBits(l: LaneAddr)
    ensures DecodeLane(EncodeLane(l).0, EncodeLane(l).1)
         == Some(LaneAddr(l.direction, l.moveType, AsU8(l.zoneId), AsU16(l.wordId), AsU16(l.siteId), AsU16(l.busId)))
  {
    LaneWord(DirectionBit(l.direction), MoveTypeBits(l.moveType), AsU8(l.zoneId), AsU16(l.busId));
    Split(AsU16(l.wordId), AsU16(l.siteId), 0x1_0000);
  }

  /** The fields of the second lane word, read back. */
  lemma LaneWord(d: int, m: int, z: int, b: int)
    requires 0 <= d < 2 && 0 <= m < 3 && 0 <= z < 0x100 && 0 <= b < 0x1_0000
    ensures var w := d * 0x8000_0000 + m * 0x2000_0000 + z * 0x20_0000 + b;
            && w / 0x8000_0000 == d && w / 0x2000_0000 == d * 4 + m && w / 0x20_0000 == d * 0x400 + m * 0x100 + z
            && (d * 4 + m) % 4 == m && (d * 0x400 + m * 0x100 + z) % 0x100 == z && w % 0x1_0000 == b
  {
    Split(d, m * 0x2000_0000 + z * 0x20_0000 + b, 0x8000_0000);
    Split(d * 4 + m, z * 0x20_0000 + b, 0x2000_0000);
    Split(d * 0x400 + m * 0x100 + z, b, 0x20_0000);
    Split(d, m, 4);
    Split(d * 4 + m, z, 0x100);
    Split(d * 0x8000 + m * 0x2000 + z * 0x20, b, 0x1_0000);
  }

  /** On in-range lanes both packed forms are injective. */
  lemma LaneEncodingInjective(a: LaneAddr, b: LaneAddr)
    requires LaneInRange(a) && LaneInRange(b)
    ensures EncodeLane(a) == EncodeLane(b) <==> a == b
    ensures EncodeLaneU64(a) == EncodeLaneU64(b) <==> a == b
  {
    LaneRoundTrip(a);
    LaneRoundTrip(b);
  }

  lemma LocationEncodingInjective(a: LocationAddr, b: LocationAddr)
    requires LocationInRange(a) && LocationInRange(b)
    ensures EncodeLocation(a) == EncodeLocation(b) <==> a == b
  {
    LocationRoundTrip(a);
    LocationRoundTrip(b);
  }
}
