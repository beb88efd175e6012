/** Architecture data and the pure lookups over it. */
module Arch {
  import opened Basics
  import opened Addr

  /** `src[i]` maps to `dst[i]`. */
  datatype Bus<T> = Bus(src: seq<T>, dst: seq<T>)

  /** A point `i` of an axis lies at the start plus the first `i` spacings. */
  datatype Grid = Grid(xStart: real, yStart: real, xSpacing: seq<real>, ySpacing: seq<real>)

  /** Each site is an (x, y) pair of grid indices. */
  datatype Word = Word(sites: seq<(u32, u32)>)

  datatype Zone = Zone(
    grid: Grid,
    siteBuses: seq<Bus<u16>>,
    wordBuses: seq<Bus<u16>>,
    wordsWithSiteBuses: seq<u32>,
    sitesWithWordBuses: seq<u32>,
    entanglingPairs: seq<(u32, u32)>)

  datatype ArchSpec = ArchSpec(words: seq<Word>, zones: seq<Zone>, zoneBuses: seq<Bus<ZonedWordRef>>)

  function SitesPerWord(spec: ArchSpec): nat {
    if spec.words == [] then 0 else |spec.words[0].sites|
  }

  // --- Grid positions ---

  function Sum(xs: seq<real>): real {
    if xs == [] then 0.0 else Sum(xs[..|xs| - 1]) + xs[|xs| - 1]
  }

  function AxisPosition(start: real, spacing: seq<real>, i: nat): Option<real> {
    if i >= |spacing| + 1 then None else Some(start + Sum(spacing[..i]))
  }

  function XPosition(g: Grid, i: nat): Option<real> {
    AxisPosition(g.xStart, g.xSpacing, i)
  }

  function YPosition(g: Grid, i: nat): Option<real> {
    AxisPosition(g.yStart, g.ySpacing, i)
  }

  function LocationPosition(spec: ArchSpec, loc: LocationAddr): Option<(real, real)> {
    if loc.zoneId >= |spec.zones| || loc.wordId >= |spec.words| then None
    else
      var grid, sites := spec.zones[loc.zoneId].grid, spec.words[loc.wordId].sites;
      if loc.siteId >= |sites| then None
      else
        match (XPosition(grid, sites[loc.siteId].0), YPosition(grid, sites[loc.siteId].1))
        case (Some(x), Some(y)) => Some((x, y))
        case _ => None
  }

  // --- Buses ---

  function ResolveForward<T(==)>(bus: Bus<T>, src: T): (r: Option<T>)
    ensures r.Some? ==> exists i :: 0 <= i < |bus.src| && i < |bus.dst| && bus.src[i] == src && bus.dst[i] == r.value
  {
    match Position(bus.src, src)
    case None => None
    case Some(i) => Get(bus.dst, i)
  }

  function ResolveBackward<T(==)>(bus: Bus<T>, dst: T): Option<T> {
    match Position(bus.dst, dst)
    case None => None
    case Some(i) => Get(bus.src, i)
  }

  /** `x` comes first at index `i`. */
  predicate FirstAt<T(==)>(xs: seq<T>, i: nat)
    requires i < |xs|
  {
    forall j :: 0 <= j < i ==> xs[j] != xs[i]
  }

  /** The two lookups of a bus undo each other exactly when an entry is the first of
      its source just in case it is the first of its destination. */
  lemma BackwardUndoesForwardIff<T(!new)>(bus: Bus<T>)
    ensures (forall x, y :: ResolveForward(bus, x) == Some(y) <==> ResolveBackward(bus, y) == Some(x))
       <==> forall i :: 0 <= i < |bus.src| && i < |bus.dst| ==> (FirstAt(bus.src, i) <==> FirstAt(bus.dst, i))
  {
    forall x, y
      ensures ResolveForward(bus, x) == Some(y)
         <==> exists i :: 0 <= i < |bus.src| && i < |bus.dst|
                && FirstAt(bus.src, i) && bus.src[i] == x && bus.dst[i] == y
      ensures ResolveBackward(bus, y) == Some(x)
         <==> exists i :: 0 <= i < |bus.src| && i < |bus.dst|
                && FirstAt(bus.dst, i) && bus.src[i] == x && bus.dst[i] == y
    {
      FirstIsPosition(bus.src, x);
      FirstIsPosition(bus.dst, y);
    }
    if forall x, y :: ResolveForward(bus, x) == Some(y) <==> ResolveBackward(bus, y) == Some(x) {
      forall i | 0 <= i < |bus.src| && i < |bus.dst| ensures FirstAt(bus.src, i) <==> FirstAt(bus.dst, i) {
        FirstIsPosition(bus.src, bus.src[i]);
        FirstIsPosition(bus.dst, bus.dst[i]);
        var x, y := bus.src[i], bus.dst[i];
        assert FirstAt(bus.src, i) ==> ResolveForward(bus, x) == Some(y) && ResolveBackward(bus, y) == Some(x);
        assert FirstAt(bus.dst, i) ==> ResolveBackward(bus, y) == Some(x) && ResolveForward(bus, x) == Some(y);
      }
    }
  }

  lemma FirstIsPosition<T>(xs: seq<T>, x: T)
    ensures forall i :: 0 <= i < |xs| && xs[i] == x ==> (FirstAt(xs, i) <==> Position(xs, x) == Some(i))
  {
  }

  // --- Address checks ---

  datatype LocationError = BadZone | BadWord | BadSite

  function CheckLocation(spec: ArchSpec, loc: LocationAddr): Option<LocationError> {
    if loc.zoneId >= AsU32(|spec.zones|) then Some(BadZone)
    else if loc.wordId >= AsU32(|spec.words|) then Some(BadWord)
    else if loc.siteId >= AsU32(SitesPerWord(spec)) then Some(BadSite)
    else None
  }

  datatype LaneError =
    | ZoneOutOfRange
    | WordOutOfRange
    | SiteOutOfRange
    | WordNotInSiteBusList
    | SiteNotInWordBusList
    | UnknownBus
    | NotASource

  function When(condition: bool, e: LaneError): seq<LaneError> {
    if condition then [e] else []
  }

  function CheckLane(spec: ArchSpec, lane: LaneAddr): seq<LaneError> {
    if lane.zoneId >= AsU32(|spec.zones|) then [ZoneOutOfRange]
    else
      match lane.moveType
      case SiteBus => CheckSiteLane(spec, lane)
      case WordBus => CheckWordLane(spec, lane)
      case ZoneBus => CheckZoneLane(spec, lane)
  }

  function RangeErrors(spec: ArchSpec, lane: LaneAddr): seq<LaneError> {
    When(lane.wordId >= AsU32(|spec.words|), WordOutOfRange)
    + When(lane.siteId >= AsU32(SitesPerWord(spec)), SiteOutOfRange)
  }

  function CheckSiteLane(spec: ArchSpec, lane: LaneAddr): seq<LaneError>
    requires lane.zoneId < |spec.zones|
  {
    var zone := spec.zones[lane.zoneId];
    var errors := RangeErrors(spec, lane);
    match Get(zone.siteBuses, lane.busId)
    case None => errors + [UnknownBus]
    case Some(bus) =>
      var errors := errors + When(lane.wordId < AsU32(|spec.words|) && lane.wordId !in zone.wordsWithSiteBuses,
                                  WordNotInSiteBusList);
      errors + When(errors == [] && ResolveForward(bus, AsU16(lane.siteId)).None?, NotASource)
  }

  function CheckWordLane(spec: ArchSpec, lane: LaneAddr): seq<LaneError>
    requires lane.zoneId < |spec.zones|
  {
    var zone := spec.zones[lane.zoneId];
    var errors := RangeErrors(spec, lane)
                  + When(lane.siteId < AsU32(SitesPerWord(spec)) && lane.siteId !in zone.sitesWithWordBuses,
                         SiteNotInWordBusList);
    match Get(zone.wordBuses, lane.busId)
    case None => errors + [UnknownBus]
    case Some(bus) =>
      errors + When(errors == [] && ResolveForward(bus, AsU16(lane.wordId)).None?, NotASource)
  }

  function CheckZoneLane(spec: ArchSpec, lane: LaneAddr): seq<LaneError> {
    var errors := RangeErrors(spec, lane);
    match Get(spec.zoneBuses, lane.busId)
    case None => errors + [UnknownBus]
    case Some(bus) =>
      errors + When(errors == [] && ResolveForward(bus, ZonedSource(lane)).None?, NotASource)
  }

  /** The zone-bus key of a lane; its ids are cut to the key's widths. */
  function ZonedSource(lane: LaneAddr): ZonedWordRef {
    ZonedWordRef(AsU8(lane.zoneId), AsU16(lane.wordId))
  }

  // --- Lane resolution ---

  /** A lane's word and site name its forward source, whatever its direction. */
  function ForwardSource(lane: LaneAddr): LocationAddr {
    LocationAddr(lane.zoneId, lane.wordId, lane.siteId)
  }

  function ForwardTarget(spec: ArchSpec, lane: LaneAddr): Option<LocationAddr>
    requires lane.zoneId < |spec.zones|
  {
    var zone := spec.zones[lane.zoneId];
    match lane.moveType
    case SiteBus =>
      (match Get(zone.siteBuses, lane.busId)
       case None => None
       case Some(bus) =>
         match ResolveForward(bus, AsU16(lane.siteId))
         case None => None
         case Some(site) => Some(LocationAddr(lane.zoneId, lane.wordId, site)))
    case WordBus =>
      (match Get(zone.wordBuses, lane.busId)
       case None => None
       case Some(bus) =>
         match ResolveForward(bus, AsU16(lane.wordId))
         case None => None
         case Some(word) => Some(LocationAddr(lane.zoneId, word, lane.siteId)))
    case ZoneBus =>
      (match Get(spec.zoneBuses, lane.busId)
       case None => None
       case Some(bus) =>
         match ResolveForward(bus, ZonedSource(lane))
         case None => None
         case Some(t) => Some(LocationAddr(t.zoneId, t.wordId, lane.siteId)))
  }

  function LaneEndpoints(spec: ArchSpec, lane: LaneAddr): Option<(LocationAddr, LocationAddr)> {
    if CheckLane(spec, lane) != [] || lane.zoneId >= |spec.zones| then None
    else
      match ForwardTarget(spec, lane)
      case None => None
      case Some(target) =>
        match lane.direction
        case Forward => Some((ForwardSource(lane), target))
        case Backward => Some((target, ForwardSource(lane)))
  }

  function Flip(lane: LaneAddr): LaneAddr {
    lane.(direction := if lane.direction.Forward? then Backward else Forward)
  }

  /** Reversing a lane's direction exchanges its endpoints and changes nothing else. */
  lemma FlipSwapsEndpoints(spec: ArchSpec, lane: LaneAddr)
    ensures Flip(Flip(lane)) == lane
    ensures LaneEndpoints(spec, Flip(lane))
         == match LaneEndpoints(spec, lane) { case None => None case Some((s, d)) => Some((d, s)) }
  {
    SameCheck(spec, lane);
  }

  lemma SameCheck(spec: ArchSpec, lane: LaneAddr)
    ensures CheckLane(spec, Flip(lane)) == CheckLane(spec, lane)
  {
  }

  /** On every spec, even an invalid one, a lane resolves exactly when its check is clean. */
  lemma ResolvesIffCheckIsClean(spec: ArchSpec, lane: LaneAddr)
    ensures LaneEndpoints(spec, lane).Some? <==> CheckLane(spec, lane) == []
  {
    if CheckLane(spec, lane) == [] {
      assert lane.zoneId < |spec.zones|;
    }
  }

  // --- Blockade partners ---

  function PartnerWord(pairs: seq<(u32, u32)>, word: u32): Option<u32> {
    if pairs == [] then None
    else if pairs[0].0 == word then Some(pairs[0].1)
    else if pairs[0].1 == word then Some(pairs[0].0)
    else PartnerWord(pairs[1..], word)
  }

  function CzPartner(spec: ArchSpec, loc: LocationAddr): Option<LocationAddr> {
    if loc.zoneId >= |spec.zones| then None
    else
      match PartnerWord(spec.zones[loc.zoneId].entanglingPairs, loc.wordId)
      case None => None
      case Some(w) => Some(LocationAddr(loc.zoneId, w, loc.siteId))
  }
}
