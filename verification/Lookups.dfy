/** What the lookups answer, said of the architecture data alone. */
module Lookups {
  import opened Basics
  import opened Addr
  import opened Arch

  // --- Buses ---

  /** The first entry of the bus with source `x` has destination `y`. */
  ghost predicate Linked<T(!new)>(bus: Bus<T>, x: T, y: T) {
    exists i :: 0 <= i < |bus.src| && i < |bus.dst|
      && bus.src[i] == x && bus.dst[i] == y && forall j :: 0 <= j < i ==> bus.src[j] != x
  }

  lemma ForwardIsLinked<T(!new)>(bus: Bus<T>, x: T)
    ensures forall y :: ResolveForward(bus, x) == Some(y) <==> Linked(bus, x, y)
  {
    var p := Position(bus.src, x);
    forall y ensures ResolveForward(bus, x) == Some(y) <==> Linked(bus, x, y) {
      if Linked(bus, x, y) {
        var i :| 0 <= i < |bus.src| && i < |bus.dst|
          && bus.src[i] == x && bus.dst[i] == y && forall j :: 0 <= j < i ==> bus.src[j] != x;
        assert p == Some(i);
      }
    }
  }

  // --- Lanes ---

  /** The number of sites of a word, as the source casts it. */
  function Sites32(spec: ArchSpec): int {
    (if spec.words == [] then 0 else |spec.words[0].sites|) % 0x1_0000_0000
  }

  predicate InRange(spec: ArchSpec, lane: LaneAddr) {
    && lane.zoneId < |spec.zones| % 0x1_0000_0000 && lane.wordId < |spec.words| % 0x1_0000_0000
    && lane.siteId < Sites32(spec)
  }

  /** The lane names an existing bus of its kind, a listed word or site where its kind
      has a list, and an entry of that bus; `far` is the entry's other end. */
  ghost predicate Carries(spec: ArchSpec, lane: LaneAddr, far: LocationAddr)
    requires lane.zoneId < |spec.zones|
  {
    var zone := spec.zones[lane.zoneId];
    match lane.moveType
    case SiteBus =>
      && lane.busId < |zone.siteBuses| && lane.wordId in zone.wordsWithSiteBuses
      && far.zoneId == lane.zoneId && far.wordId == lane.wordId && far.siteId < 0x1_0000
      && Linked(zone.siteBuses[lane.busId], lane.siteId % 0x1_0000, far.siteId)
    case WordBus =>
      && lane.busId < |zone.wordBuses| && lane.siteId in zone.sitesWithWordBuses
      && far.zoneId == lane.zoneId && far.siteId == lane.siteId && far.wordId < 0x1_0000
      && Linked(zone.wordBuses[lane.busId], lane.wordId % 0x1_0000, far.wordId)
    case ZoneBus =>
      && lane.busId < |spec.zoneBuses|
      && far.siteId == lane.siteId && far.zoneId < 0x100 && far.wordId < 0x1_0000
      && Linked(spec.zoneBuses[lane.busId], ZonedWordRef(lane.zoneId % 0x100, lane.wordId % 0x1_0000),
                ZonedWordRef(far.zoneId, far.wordId))
  }

  /** Exactly when a lane of any kind and direction resolves, and to what: its ids are in
      range and its bus carries them. A forward lane starts at its own location, a
      backward one ends there. */
  lemma EndpointsMean(spec: ArchSpec, lane: LaneAddr, s: LocationAddr, d: LocationAddr)
    ensures LaneEndpoints(spec, lane) == Some((s, d))
       <==> && InRange(spec, lane)
            && var here := LocationAddr(lane.zoneId, lane.wordId, lane.siteId);
               if lane.direction == Forward then s == here && Carries(spec, lane, d)
               else d == here && Carries(spec, lane, s)
  {
    if lane.zoneId < |spec.zones| {
      match lane.moveType
      case SiteBus => SiteLaneMeans(spec, lane);
      case WordBus => WordLaneMeans(spec, lane);
      case ZoneBus => ZoneLaneMeans(spec, lane);
    }
  }

  lemma SiteLaneMeans(spec: ArchSpec, lane: LaneAddr)
    requires lane.zoneId < |spec.zones| && lane.moveType == SiteBus
    ensures forall far :: (CheckLane(spec, lane) == [] && ForwardTarget(spec, lane) == Some(far))
                     <==> InRange(spec, lane) && Carries(spec, lane, far)
  {
    var zone := spec.zones[lane.zoneId];
    if lane.busId < |zone.siteBuses| {
      ForwardIsLinked(zone.siteBuses[lane.busId], AsU16(lane.siteId));
    }
  }

  lemma WordLaneMeans(spec: ArchSpec, lane: LaneAddr)
    requires lane.zoneId < |spec.zones| && lane.moveType == WordBus
    ensures forall far :: (CheckLane(spec, lane) == [] && ForwardTarget(spec, lane) == Some(far))
                     <==> InRange(spec, lane) && Carries(spec, lane, far)
  {
    var zone := spec.zones[lane.zoneId];
    if lane.busId < |zone.wordBuses| {
      ForwardIsLinked(zone.wordBuses[lane.busId], AsU16(lane.wordId));
    }
  }

  lemma ZoneLaneMeans(spec: ArchSpec, lane: LaneAddr)
    requires lane.zoneId < |spec.zones| && lane.moveType == ZoneBus
    ensures forall far :: (CheckLane(spec, lane) == [] && ForwardTarget(spec, lane) == Some(far))
                     <==> InRange(spec, lane) && Carries(spec, lane, far)
  {
    if lane.busId < |spec.zoneBuses| {
      ForwardIsLinked(spec.zoneBuses[lane.busId], ZonedSource(lane));
    }
  }

  // --- Errors ---

  /** What each lane error says. Nothing more is looked at once the zone is missing, and
      the bus entry only once all else is in order. */
  ghost predicate LaneFault(spec: ArchSpec, lane: LaneAddr, e: LaneError) {
    if lane.zoneId >= |spec.zones| % 0x1_0000_0000 then e == ZoneOutOfRange
    else
      var zone := spec.zones[lane.zoneId];
      match e
      case ZoneOutOfRange => false
      case WordOutOfRange => lane.wordId >= |spec.words| % 0x1_0000_0000
      case SiteOutOfRange => lane.siteId >= Sites32(spec)
      case WordNotInSiteBusList =>
        && lane.moveType == SiteBus && lane.busId < |zone.siteBuses|
        && lane.wordId < |spec.words| % 0x1_0000_0000 && lane.wordId !in zone.wordsWithSiteBuses
      case SiteNotInWordBusList =>
        lane.moveType == WordBus && lane.siteId < Sites32(spec) && lane.siteId !in zone.sitesWithWordBuses
      case UnknownBus => lane.busId >= BusCount(spec, lane)
      case NotASource =>
        && InRange(spec, lane) && lane.busId < BusCount(spec, lane)
        && (lane.moveType == SiteBus ==> lane.wordId in zone.wordsWithSiteBuses)
        && (lane.moveType == WordBus ==> lane.siteId in zone.sitesWithWordBuses)
        && !exists far :: Carries(spec, lane, far)
  }

  function BusCount(spec: ArchSpec, lane: LaneAddr): nat
    requires lane.zoneId < |spec.zones|
  {
    match lane.moveType
    case SiteBus => |spec.zones[lane.zoneId].siteBuses|
    case WordBus => |spec.zones[lane.zoneId].wordBuses|
    case ZoneBus => |spec.zoneBuses|
  }

  /** `check_lane` reports exactly the faults of the lane. */
  lemma CheckLaneReports(spec: ArchSpec, lane: LaneAddr)
    ensures forall e :: e in CheckLane(spec, lane) <==> LaneFault(spec, lane, e)
  {
    if lane.zoneId < AsU32(|spec.zones|) {
      match lane.moveType
      case SiteBus => SiteFaults(spec, lane);
      case WordBus => WordFaults(spec, lane);
      case ZoneBus => ZoneFaults(spec, lane);
    }
  }

  lemma SiteFaults(spec: ArchSpec, lane: LaneAddr)
    requires lane.zoneId < AsU32(|spec.zones|) && lane.moveType == SiteBus
    ensures forall e :: e in CheckLane(spec, lane) <==> LaneFault(spec, lane, e)
  {
    var zone := spec.zones[lane.zoneId];
    if lane.busId < |zone.siteBuses| {
      var bus, id := zone.siteBuses[lane.busId], AsU16(lane.siteId);
      ForwardIsLinked(bus, id);
      if ResolveForward(bus, id).Some? && lane.wordId in zone.wordsWithSiteBuses {
        assert Carries(spec, lane, LocationAddr(lane.zoneId, lane.wordId, ResolveForward(bus, id).value));
      }
    }
  }

  lemma WordFaults(spec: ArchSpec, lane: LaneAddr)
    requires lane.zoneId < AsU32(|spec.zones|) && lane.moveType == WordBus
    ensures forall e :: e in CheckLane(spec, lane) <==> LaneFault(spec, lane, e)
  {
    var zone := spec.zones[lane.zoneId];
    if lane.busId < |zone.wordBuses| {
      var bus, id := zone.wordBuses[lane.busId], AsU16(lane.wordId);
      ForwardIsLinked(bus, id);
      if ResolveForward(bus, id).Some? && lane.siteId in zone.sitesWithWordBuses {
        assert Carries(spec, lane, LocationAddr(lane.zoneId, ResolveForward(bus, id).value, lane.siteId));
      }
    }
  }

  lemma ZoneFaults(spec: ArchSpec, lane: LaneAddr)
    requires lane.zoneId < AsU32(|spec.zones|) && lane.moveType == ZoneBus
    ensures forall e :: e in CheckLane(spec, lane) <==> LaneFault(spec, lane, e)
  {
    if lane.busId < |spec.zoneBuses| {
      var bus, id := spec.zoneBuses[lane.busId], ZonedSource(lane);
      ForwardIsLinked(bus, id);
      if ResolveForward(bus, id).Some? {
        var t := ResolveForward(bus, id).value;
        assert Carries(spec, lane, LocationAddr(t.zoneId, t.wordId, lane.siteId));
      }
    }
  }

  /** The first id out of range decides, zone before word before site. */
  lemma CheckLocationReports(spec: ArchSpec, x: LocationAddr)
    ensures CheckLocation(spec, x) == Some(BadZone) <==> x.zoneId >= |spec.zones| % 0x1_0000_0000
    ensures CheckLocation(spec, x) == Some(BadWord)
       <==> x.zoneId < |spec.zones| % 0x1_0000_0000 && x.wordId >= |spec.words| % 0x1_0000_0000
    ensures CheckLocation(spec, x) == None
       <==> && x.zoneId < |spec.zones| % 0x1_0000_0000 && x.wordId < |spec.words| % 0x1_0000_0000
            && x.siteId < Sites32(spec)
  {
  }

  // --- Blockade partners ---

  /** The partner is across the first pair of the zone that names the word, in the same
      zone and at the same site. */
  lemma PartnerMeans(spec: ArchSpec, x: LocationAddr, y: LocationAddr)
    ensures CzPartner(spec, x) == Some(y)
       <==> && x.zoneId < |spec.zones| && y.zoneId == x.zoneId && y.siteId == x.siteId
            && exists k :: FirstPair(spec.zones[x.zoneId].entanglingPairs, k, x.wordId, y.wordId)
  {
    if x.zoneId < |spec.zones| {
      PartnerWordIsFirst(spec.zones[x.zoneId].entanglingPairs, x.wordId, y.wordId);
    }
  }

  /** Pair `k` is the first to name `w`, and `v` is its other end. */
  ghost predicate FirstPair(pairs: seq<(u32, u32)>, k: int, w: u32, v: u32) {
    && 0 <= k < |pairs| && (forall j :: 0 <= j < k ==> pairs[j].0 != w && pairs[j].1 != w)
    && (pairs[k] == (w, v) || (pairs[k] == (v, w) && v != w))
  }

  lemma {:induction false} PartnerWordIsFirst(pairs: seq<(u32, u32)>, w: u32, v: u32)
    ensures PartnerWord(pairs, w) == Some(v) <==> exists k :: FirstPair(pairs, k, w, v)
  {
    if pairs != [] {
      if pairs[0].0 == w || pairs[0].1 == w {
        assert PartnerWord(pairs, w) == Some(v) ==> FirstPair(pairs, 0, w, v);
      } else {
        PartnerWordIsFirst(pairs[1..], w, v);
        FirstPairShifts(pairs, w, v);
      }
    }
  }

  lemma FirstPairShifts(pairs: seq<(u32, u32)>, w: u32, v: u32)
    requires pairs != [] && pairs[0].0 != w && pairs[0].1 != w
    ensures (exists k :: FirstPair(pairs[1..], k, w, v)) <==> exists k :: FirstPair(pairs, k, w, v)
  {
    var rest := pairs[1..];
    if k :| FirstPair(rest, k, w, v) {
      assert forall j :: 0 < j <= k + 1 ==> pairs[j] == rest[j - 1];
      assert FirstPair(pairs, k + 1, w, v);
    }
    if k :| FirstPair(pairs, k, w, v) {
      assert k > 0;
      assert FirstPair(rest, k - 1, w, v);
    }
  }

  // --- Positions ---

  /** The first point of an axis is its start, neighbouring points are exactly the spacing
      between them apart, and there is one point more than spacings. */
  lemma AxisMeans(start: real, spacing: seq<real>, i: nat)
    ensures AxisPosition(start, spacing, 0) == Some(start)
    ensures i < |spacing| ==>
              && AxisPosition(start, spacing, i).Some? && AxisPosition(start, spacing, i + 1).Some?
              && AxisPosition(start, spacing, i + 1).value - AxisPosition(start, spacing, i).value == spacing[i]
    ensures i > |spacing| ==> AxisPosition(start, spacing, i) == None
  {
    assert spacing[..0] == [];
    if i < |spacing| {
      assert spacing[..i + 1][..i] == spacing[..i];
    }
  }

  /** The grid point of a location, if its word and site exist. */
  predicate OnPoint(spec: ArchSpec, x: LocationAddr, g: Grid, a: nat, b: nat) {
    && x.zoneId < |spec.zones| && spec.zones[x.zoneId].grid == g
    && x.wordId < |spec.words| && x.siteId < |spec.words[x.wordId].sites|
    && spec.words[x.wordId].sites[x.siteId] == (a, b)
  }

  /** A location on grid point (0, 0) is at the start of the grid; one point further in
      x or in y is exactly that spacing further in that coordinate only; beyond the grid,
      or without zone, word or site, there is no position. */
  lemma PositionMeans(spec: ArchSpec, x: LocationAddr, y: LocationAddr, g: Grid, a: nat, b: nat)
    requires OnPoint(spec, x, g, a, b)
    ensures a == 0 && b == 0 ==> LocationPosition(spec, x) == Some((g.xStart, g.yStart))
    ensures LocationPosition(spec, x).Some? <==> a <= |g.xSpacing| && b <= |g.ySpacing|
    ensures a < |g.xSpacing| && b <= |g.ySpacing| && OnPoint(spec, y, g, a + 1, b) ==>
              && LocationPosition(spec, y).Some?
              && LocationPosition(spec, y).value.0 == LocationPosition(spec, x).value.0 + g.xSpacing[a]
              && LocationPosition(spec, y).value.1 == LocationPosition(spec, x).value.1
    ensures a <= |g.xSpacing| && b < |g.ySpacing| && OnPoint(spec, y, g, a, b + 1) ==>
              && LocationPosition(spec, y).Some?
              && LocationPosition(spec, y).value.0 == LocationPosition(spec, x).value.0
              && LocationPosition(spec, y).value.1 == LocationPosition(spec, x).value.1 + g.ySpacing[b]
  {
    AxisMeans(g.xStart, g.xSpacing, a);
    AxisMeans(g.yStart, g.ySpacing, b);
  }

  lemma NoPosition(spec: ArchSpec, x: LocationAddr)
    requires x.zoneId >= |spec.zones| || x.wordId >= |spec.words| || x.siteId >= |spec.words[x.wordId].sites|
    ensures LocationPosition(spec, x) == None
  {
  }
}
