/** What an accepted architecture guarantees, and what it does not. */
module ValidSpecs {
  import opened Basics
  import opened Addr
  import opened Arch
  import opened Validate
  import opened AtomStates
  import History
  import OrderIndependence
  import Pairing

  /** The counts survive the source's casts to 32 bits. */
  predicate CountsFit(spec: ArchSpec) {
    |spec.zones| < 0x1_0000_0000 && |spec.words| < 0x1_0000_0000 && SitesPerWord(spec) < 0x1_0000_0000
  }

  predicate ValidLocation(spec: ArchSpec, x: LocationAddr) {
    CheckLocation(spec, x) == None
  }

  lemma ValidLocationMeans(spec: ArchSpec, x: LocationAddr)
    requires CountsFit(spec)
    ensures ValidLocation(spec, x)
       <==> x.zoneId < |spec.zones| && x.wordId < |spec.words| && x.siteId < SitesPerWord(spec)
  {
  }

  // --- Lanes end on valid locations ---

  lemma BusTargetInRange(bus: Bus<u16>, limit: nat, x: u16)
    requires BusWellFormed(bus, limit) && ResolveForward(bus, x).Some?
    ensures ResolveForward(bus, x).value < limit
  {
  }

  lemma ZoneBusTargetInRange(bus: Bus<ZonedWordRef>, zones: nat, words: nat, x: ZonedWordRef)
    requires ZoneBusWellFormed(bus, zones, words) && ResolveForward(bus, x).Some?
    ensures ResolveForward(bus, x).value.zoneId < zones && ResolveForward(bus, x).value.wordId < words
  {
  }

  lemma CleanLaneStartsValid(spec: ArchSpec, lane: LaneAddr)
    requires CountsFit(spec) && CheckLane(spec, lane) == []
    ensures ValidLocation(spec, ForwardSource(lane))
  {
    if lane.zoneId < AsU32(|spec.zones|) {
      RangeErrorsEmpty(spec, lane);
    }
  }

  lemma RangeErrorsEmpty(spec: ArchSpec, lane: LaneAddr)
    requires lane.zoneId < |spec.zones| && CheckLane(spec, lane) == []
    ensures RangeErrors(spec, lane) == []
  {
  }

  lemma TargetIsValid(spec: ArchSpec, lane: LaneAddr)
    requires ValidSpec(spec) && CountsFit(spec) && ValidLocation(spec, ForwardSource(lane))
    requires ForwardTarget(spec, lane).Some?
    ensures ValidLocation(spec, ForwardTarget(spec, lane).value)
  {
    var zone := spec.zones[lane.zoneId];
    assert ZoneBusRules(zone, |spec.words|, SitesPerWord(spec));
    match lane.moveType
    case SiteBus => BusTargetInRange(zone.siteBuses[lane.busId], SitesPerWord(spec), AsU16(lane.siteId));
    case WordBus => BusTargetInRange(zone.wordBuses[lane.busId], |spec.words|, AsU16(lane.wordId));
    case ZoneBus => ZoneBusTargetInRange(spec.zoneBuses[lane.busId], |spec.zones|, |spec.words|, ZonedSource(lane));
  }

  /** On a valid spec a lane resolves exactly when its check is clean, and then both
      its ends are valid locations. */
  lemma LaneEndsAreValid(spec: ArchSpec, lane: LaneAddr)
    requires ValidSpec(spec) && CountsFit(spec)
    ensures LaneEndpoints(spec, lane).Some? <==> CheckLane(spec, lane) == []
    ensures LaneEndpoints(spec, lane).Some? ==>
              && ValidLocation(spec, LaneEndpoints(spec, lane).value.0)
              && ValidLocation(spec, LaneEndpoints(spec, lane).value.1)
  {
    ResolvesIffCheckIsClean(spec, lane);
    if CheckLane(spec, lane) == [] {
      CleanLaneStartsValid(spec, lane);
      TargetIsValid(spec, lane);
    }
  }

  // --- Atoms stay on valid locations ---

  ghost predicate OnValidLocations(spec: ArchSpec, st: AtomState) {
    && (forall q :: q in st.qubitToLocations ==> ValidLocation(spec, st.qubitToLocations[q]))
    && (forall x :: x in st.locationsToQubit ==> ValidLocation(spec, x))
  }

  lemma {:induction false} RunStaysValid(spec: ArchSpec, st: AtomState, ms: seq<Move>)
    requires OnValidLocations(spec, st)
    requires forall m :: m in ms ==> ValidLocation(spec, m.dst)
    ensures OnValidLocations(spec, RunMoves(st, ms))
  {
    if ms != [] {
      RunStaysValid(spec, st, ms[..|ms| - 1]);
      StepStaysValid(spec, RunMoves(st, ms[..|ms| - 1]), ms[|ms| - 1]);
    }
  }

  lemma StepStaysValid(spec: ArchSpec, st: AtomState, m: Move)
    requires OnValidLocations(spec, st) && ValidLocation(spec, m.dst)
    ensures OnValidLocations(spec, StepMove(st, m))
  {
  }

  lemma ApplyStaysValid(spec: ArchSpec, st: AtomState, lanes: seq<LaneAddr>)
    requires ValidSpec(spec) && CountsFit(spec) && OnValidLocations(spec, st) && Apply(spec, st, lanes).Some?
    ensures OnValidLocations(spec, Apply(spec, st, lanes).value)
  {
    var ms := MovesOf(spec, lanes);
    forall m | m in ms ensures ValidLocation(spec, m.dst) {
      var i :| 0 <= i < |ms| && ms[i] == m;
      LaneEndsAreValid(spec, lanes[i]);
    }
    RunStaysValid(spec, st.(prevLanes := map[]), ms);
  }

  /** Every state a run reaches from valid locations is on valid locations. */
  lemma {:induction false} WholeRunStaysValid(spec: ArchSpec, st: AtomState, calls: seq<seq<LaneAddr>>)
    requires ValidSpec(spec) && CountsFit(spec) && OnValidLocations(spec, st)
    requires History.ApplyAll(spec, st, calls).Some?
    ensures OnValidLocations(spec, History.ApplyAll(spec, st, calls).value)
    decreases |calls|
  {
    if calls != [] {
      ApplyStaysValid(spec, st, calls[0]);
      WholeRunStaysValid(spec, Apply(spec, st, calls[0]).value, calls[1..]);
    }
  }

  // --- Geometry ---

  lemma {:induction false} PrefixSums(xs: seq<real>, i: nat)
    requires NonNegative(xs) && i <= |xs|
    ensures 0.0 <= Sum(xs[..i]) <= Sum(xs)
    decreases |xs|
  {
    if i == |xs| {
      assert xs[..i] == xs;
      if xs != [] {
        PrefixSums(xs[..|xs| - 1], |xs| - 1);
        assert xs[..|xs| - 1][..|xs| - 1] == xs[..|xs| - 1];
      }
    } else {
      PrefixSums(xs[..|xs| - 1], i);
      assert xs[..|xs| - 1][..i] == xs[..i];
    }
  }

  lemma ValidSiteFits(spec: ArchSpec, x: LocationAddr)
    requires ValidSpec(spec) && CountsFit(spec) && ValidLocation(spec, x)
    ensures x.zoneId < |spec.zones| && x.wordId < |spec.words| && x.siteId < |spec.words[x.wordId].sites|
    ensures SiteFits(spec.words[x.wordId].sites[x.siteId], spec.zones[x.zoneId].grid)
  {
    ValidLocationMeans(spec, x);
    assert x.wordId > 0 ==> |spec.words[x.wordId].sites| == |spec.words[0].sites|;
    assert SitesFit(spec.words[x.wordId].sites, spec.zones[0].grid, |spec.words[x.wordId].sites|);
    assert x.zoneId > 0 ==> SameDimensions(spec.zones[x.zoneId].grid, spec.zones[0].grid);
  }

  /** On a valid spec exactly the valid locations have a position, and it lies in
      the bounding box of the location's own zone. */
  lemma PositionInOwnZone(spec: ArchSpec, x: LocationAddr)
    requires ValidSpec(spec) && CountsFit(spec)
    ensures LocationPosition(spec, x).Some? <==> ValidLocation(spec, x)
    ensures LocationPosition(spec, x).Some? ==>
              var (px, py) := LocationPosition(spec, x).value;
              var box := BoundingBox(spec.zones[x.zoneId].grid);
              box.xMin <= px <= box.xMax && box.yMin <= py <= box.yMax
  {
    ValidLocationMeans(spec, x);
    if ValidLocation(spec, x) {
      ValidSiteFits(spec, x);
      var g, site := spec.zones[x.zoneId].grid, spec.words[x.wordId].sites[x.siteId];
      PrefixSums(g.xSpacing, site.0);
      PrefixSums(g.ySpacing, site.1);
    } else if x.wordId < |spec.words| && x.wordId > 0 {
      assert |spec.words[x.wordId].sites| == |spec.words[0].sites|;
    }
  }

  predicate StrictlyInside(p: (real, real), box: Box) {
    box.xMin < p.0 < box.xMax && box.yMin < p.1 < box.yMax
  }

  /** No location lies strictly inside another zone's bounding box. */
  lemma PositionOutsideOtherZones(spec: ArchSpec, x: LocationAddr, z: nat)
    requires ValidSpec(spec) && CountsFit(spec) && ValidLocation(spec, x)
    requires z < |spec.zones| && z != x.zoneId
    ensures LocationPosition(spec, x).Some?
    ensures !StrictlyInside(LocationPosition(spec, x).value, BoundingBox(spec.zones[z].grid))
  {
    PositionInOwnZone(spec, x);
    ValidLocationMeans(spec, x);
    if z < x.zoneId {
      assert ZonesApart(spec, z, x.zoneId);
    } else {
      assert ZonesApart(spec, x.zoneId, z);
    }
  }

  // --- What validation lets through ---

  function Row(n: nat): Grid {
    Grid(0.0, 0.0, seq(n, i => 1.0), [])
  }

  /** One word of three sites on a line, with a site bus 0 -> 1 -> 2. */
  function ChainedSpec(): ArchSpec {
    ArchSpec([Word([(0, 0), (1, 0), (2, 0)])],
             [Zone(Row(2), [Bus([0, 1], [1, 2])], [], [0], [], [])],
             [])
  }

  function ChainedLane(site: u32): LaneAddr {
    LaneAddr(Forward, SiteBus, 0, 0, site, 0)
  }

  /** A valid bus may end a lane where another starts; then order matters. */
  lemma ChainedBusIsOrderDependent()
    ensures ValidSpec(ChainedSpec())
    ensures exists st :: InSync(st)
              && Apply(ChainedSpec(), st, [ChainedLane(0), ChainedLane(1)])
                 != Apply(ChainedSpec(), st, [ChainedLane(1), ChainedLane(0)])
  {
    ChainedSpecIsValid();
    ChainedLaneResolves(0);
    ChainedLaneResolves(1);
    ChainIsOrderDependent(ChainedSpec(), ChainedLane(0), ChainedLane(1));
  }

  lemma ChainIsOrderDependent(spec: ArchSpec, la: LaneAddr, lb: LaneAddr)
    requires LaneEndpoints(spec, la).Some? && LaneEndpoints(spec, lb).Some?
    requires var a, b := MoveOf(spec, la), MoveOf(spec, lb); a.src != a.dst && b.src != b.dst && a.dst == b.src
    ensures exists st :: InSync(st) && Apply(spec, st, [la, lb]) != Apply(spec, st, [lb, la])
  {
    var a, b := MoveOf(spec, la), MoveOf(spec, lb);
    OrderIndependence.ChainCounts(a, b);
    var st := OrderIndependence.One(a.src);
    ApplyTwo(spec, st, la, lb);
    ApplyTwo(spec, st, lb, la);
    assert InSync(st) && Apply(spec, st, [la, lb]) != Apply(spec, st, [lb, la]);
  }

  lemma ApplyTwo(spec: ArchSpec, st: AtomState, la: LaneAddr, lb: LaneAddr)
    requires LaneEndpoints(spec, la).Some? && LaneEndpoints(spec, lb).Some? && st.prevLanes == map[]
    ensures Apply(spec, st, [la, lb]) == Some(RunMoves(st, [MoveOf(spec, la), MoveOf(spec, lb)]))
  {
    assert st.(prevLanes := map[]) == st;
    assert Resolves(spec, [la, lb]);
    assert MovesOf(spec, [la, lb]) == [MoveOf(spec, la), MoveOf(spec, lb)];
  }

  lemma ChainedSpecIsValid()
    ensures ValidSpec(ChainedSpec())
  {
    var spec := ChainedSpec();
    assert ZoneBusRules(spec.zones[0], 1, 3);
    assert WordSitesFit(spec, 1);
  }

  lemma ChainedLaneResolves(site: u32)
    requires site < 2
    ensures LaneEndpoints(ChainedSpec(), ChainedLane(site))
         == Some((LocationAddr(0, 0, site), LocationAddr(0, 0, site + 1)))
  {
    ChainedBusResolves(site);
    SiteLaneResolves(ChainedSpec(), ChainedLane(site), Bus([0, 1], [1, 2]), site + 1);
  }

  lemma ChainedBusResolves(site: u16)
    requires site < 2
    ensures ResolveForward(Bus([0, 1], [1, 2]), site) == Some(site + 1)
  {
    var src: seq<u16> := [0, 1];
    assert src[1..] == [1];
  }

  lemma SiteLaneResolves(spec: ArchSpec, lane: LaneAddr, bus: Bus<u16>, target: u16)
    requires CountsFit(spec) && ValidLocation(spec, ForwardSource(lane))
    requires lane.moveType == SiteBus && lane.direction == Forward && lane.siteId < 0x1_0000
    requires lane.busId < |spec.zones[lane.zoneId].siteBuses| && spec.zones[lane.zoneId].siteBuses[lane.busId] == bus
    requires lane.wordId in spec.zones[lane.zoneId].wordsWithSiteBuses
    requires ResolveForward(bus, lane.siteId) == Some(target)
    ensures LaneEndpoints(spec, lane)
         == Some((ForwardSource(lane), LocationAddr(lane.zoneId, lane.wordId, target)))
  {
    assert AsU16(lane.siteId) == lane.siteId;
    assert CheckSiteLane(spec, lane) == [];
  }

  /** Three words of one site, the first paired with both others. */
  function SharedWordSpec(): ArchSpec {
    ArchSpec([Word([(0, 0)]), Word([(1, 0)]), Word([(2, 0)])],
             [Zone(Row(2), [], [], [], [], [(0, 1), (0, 2)])],
             [])
  }

  /** A valid zone may pair one word twice; then some pulse lists a qubit twice. */
  lemma SharedWordBreaksPairing()
    ensures ValidSpec(SharedWordSpec())
    ensures exists st :: InSync(st) && !Pairing.Partitioned(SharedWordSpec(), st, 0)
  {
    var spec := SharedWordSpec();
    SharedWordSpecIsValid();
    var pairs := spec.zones[0].entanglingPairs;
    assert pairs[1..] == [(0, 2)];
    assert PartnerWord(pairs, 2) == Some(0) && PartnerWord(pairs, 0) == Some(1);
    Pairing.PartitionIffMatching(spec, 0);
  }

  lemma SharedWordSpecIsValid()
    ensures ValidSpec(SharedWordSpec())
  {
    var spec := SharedWordSpec();
    assert ZoneBusRules(spec.zones[0], 3, 1);
    assert WordSitesFit(spec, 3);
  }
}
