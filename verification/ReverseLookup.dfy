/** Finding the lane that connects two locations. */
module ReverseLookup {
  import opened Basics
  import opened Addr
  import opened Arch

  /** `lane`, read in `direction`, is addressed at `origin` and leads to `target`. */
  predicate Connects(spec: ArchSpec, lane: LaneAddr, origin: LocationAddr, target: LocationAddr, direction: Direction) {
    && lane.direction == direction
    && LaneEndpoints(spec, lane) == Some(if direction.Forward? then (origin, target) else (target, origin))
  }

  function LaneAt(moveType: MoveType, origin: LocationAddr, busId: u32, direction: Direction): LaneAddr {
    LaneAddr(direction, moveType, origin.zoneId, origin.wordId, origin.siteId, busId)
  }

  function CheckLaneCandidate(
    spec: ArchSpec, moveType: MoveType, origin: LocationAddr, target: LocationAddr, busId: u32, direction: Direction)
    : Option<LaneAddr>
  {
    var lane := LaneAt(moveType, origin, busId, direction);
    match LaneEndpoints(spec, lane)
    case None => None
    case Some((s, d)) =>
      var (expectedSrc, expectedDst) := if direction.Forward? then (s, d) else (d, s);
      if expectedSrc == origin && expectedDst == target then Some(lane) else None
  }

  lemma CandidateConnects(
    spec: ArchSpec, moveType: MoveType, origin: LocationAddr, target: LocationAddr, busId: u32, direction: Direction)
    ensures CheckLaneCandidate(spec, moveType, origin, target, busId, direction).Some?
       <==> Connects(spec, LaneAt(moveType, origin, busId, direction), origin, target, direction)
    ensures CheckLaneCandidate(spec, moveType, origin, target, busId, direction).Some?
        ==> CheckLaneCandidate(spec, moveType, origin, target, busId, direction).value
            == LaneAt(moveType, origin, busId, direction)
  {
  }

  /** Any connecting lane is one of the candidates, and passes the pruning lists. */
  lemma ConnectingLaneIsCandidate(spec: ArchSpec, lane: LaneAddr, origin: LocationAddr, target: LocationAddr)
    requires Connects(spec, lane, origin, target, lane.direction)
    ensures lane == LaneAt(lane.moveType, origin, lane.busId, lane.direction)
    ensures origin.zoneId < |spec.zones|
    ensures var zone := spec.zones[origin.zoneId];
            match lane.moveType
            case SiteBus => origin.wordId in zone.wordsWithSiteBuses && lane.busId < |zone.siteBuses|
            case WordBus => origin.siteId in zone.sitesWithWordBuses && lane.busId < |zone.wordBuses|
            case ZoneBus => lane.busId < |spec.zoneBuses|
  {
  }

  ghost predicate NoneFound(
    spec: ArchSpec, moveType: MoveType, origin: LocationAddr, target: LocationAddr, count: nat, direction: Direction)
  {
    forall b: nat :: b < count ==>
      !Connects(spec, LaneAt(moveType, origin, AsU32(b), direction), origin, target, direction)
  }

  lemma NoneFoundNext(
    spec: ArchSpec, moveType: MoveType, origin: LocationAddr, target: LocationAddr, b: nat, direction: Direction)
    requires NoneFound(spec, moveType, origin, target, b, direction)
    ensures NoneFound(spec, moveType, origin, target, b + 1, direction)
       <==> !Connects(spec, LaneAt(moveType, origin, AsU32(b), direction), origin, target, direction)
  {
    forall b': nat | b' < b
      ensures !Connects(spec, LaneAt(moveType, origin, AsU32(b'), direction), origin, target, direction)
    {
    }
  }

  /** The inner loop over the buses of one kind. */
  method TryBuses(
    spec: ArchSpec, moveType: MoveType, origin: LocationAddr, target: LocationAddr, count: nat, direction: Direction)
    returns (r: Option<LaneAddr>)
    ensures r.Some? ==> Connects(spec, r.value, origin, target, direction)
    ensures r.None? ==> NoneFound(spec, moveType, origin, target, count, direction)
  {
    for b := 0 to count
      invariant NoneFound(spec, moveType, origin, target, b, direction)
    {
      CandidateConnects(spec, moveType, origin, target, AsU32(b), direction);
      NoneFoundNext(spec, moveType, origin, target, b, direction);
      var lane := CheckLaneCandidate(spec, moveType, origin, target, AsU32(b), direction);
      if lane.Some? {
        return lane;
      }
    }
    return None;
  }

  /** The pruned candidates are all there is to try. */
  lemma SearchIsComplete(
    spec: ArchSpec, lane: LaneAddr, origin: LocationAddr, target: LocationAddr, direction: Direction)
    requires origin.zoneId < |spec.zones| ==>
               var zone := spec.zones[origin.zoneId];
               && (origin.wordId in zone.wordsWithSiteBuses ==>
                     NoneFound(spec, SiteBus, origin, target, |zone.siteBuses|, direction))
               && (origin.siteId in zone.sitesWithWordBuses ==>
                     NoneFound(spec, WordBus, origin, target, |zone.wordBuses|, direction))
               && NoneFound(spec, ZoneBus, origin, target, |spec.zoneBuses|, direction)
    ensures !Connects(spec, lane, origin, target, direction)
  {
    assert AsU32(lane.busId) == lane.busId;
    if Connects(spec, lane, origin, target, direction) {
      ConnectingLaneIsCandidate(spec, lane, origin, target);
      assert false;
    }
  }

  method TryLaneFromLocation(spec: ArchSpec, origin: LocationAddr, target: LocationAddr, direction: Direction)
    returns (r: Option<LaneAddr>)
    ensures r.Some? ==> Connects(spec, r.value, origin, target, direction)
    ensures r.None? ==> forall lane :: !Connects(spec, lane, origin, target, direction)
  {
    if origin.zoneId < |spec.zones| {
      var zone := spec.zones[origin.zoneId];
      if origin.wordId in zone.wordsWithSiteBuses {
        r := TryBuses(spec, SiteBus, origin, target, |zone.siteBuses|, direction);
        if r.Some? {
          return;
        }
      }
      if origin.siteId in zone.sitesWithWordBuses {
        r := TryBuses(spec, WordBus, origin, target, |zone.wordBuses|, direction);
        if r.Some? {
          return;
        }
      }
      r := TryBuses(spec, ZoneBus, origin, target, |spec.zoneBuses|, direction);
      if r.Some? {
        return;
      }
    }
    forall lane ensures !Connects(spec, lane, origin, target, direction) {
      SearchIsComplete(spec, lane, origin, target, direction);
    }
    return None;
  }

  /** Sound and complete: a lane is found exactly when some lane resolves to the two
      locations, the one found does, and a backward lane is answered only when no
      forward lane would do. */
  method LaneForEndpoints(spec: ArchSpec, src: LocationAddr, dst: LocationAddr) returns (r: Option<LaneAddr>)
    ensures r.Some? <==> exists lane :: LaneEndpoints(spec, lane) == Some((src, dst))
    ensures r.Some? ==> LaneEndpoints(spec, r.value) == Some((src, dst))
    ensures r.Some? && r.value.direction.Backward? ==>
              forall lane :: LaneEndpoints(spec, lane) == Some((src, dst)) ==> lane.direction.Backward?
  {
    r := TryLaneFromLocation(spec, src, dst, Forward);
    if r.Some? {
      return;
    }
    r := TryLaneFromLocation(spec, dst, src, Backward);
    forall lane | LaneEndpoints(spec, lane) == Some((src, dst)) ensures r.Some? && lane.direction.Backward? {
      assert !Connects(spec, lane, src, dst, Forward);
      assert r.None? ==> !Connects(spec, lane, dst, src, Backward);
    }
  }
}
