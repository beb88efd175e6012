/** The geometry part of the lane group check, in grid indices. */
module GridShape {
  import opened Basics
  import opened Addr
  import opened Arch
  import opened GroupCheck
  import Lookups
  import Validate
  import ValidSpecs

  /** Every spacing of the grid moves on. */
  ghost predicate Positive(g: Grid) {
    && (forall i :: 0 <= i < |g.xSpacing| ==> g.xSpacing[i] > 0.0)
    && (forall i :: 0 <= i < |g.ySpacing| ==> g.ySpacing[i] > 0.0)
  }

  lemma {:induction false} AxisIncreases(start: real, spacing: seq<real>, i: nat, j: nat)
    requires i < j <= |spacing| && forall k :: 0 <= k < |spacing| ==> spacing[k] > 0.0
    ensures AxisPosition(start, spacing, i).Some? && AxisPosition(start, spacing, j).Some?
    ensures AxisPosition(start, spacing, i).value < AxisPosition(start, spacing, j).value
    decreases j
  {
    Lookups.AxisMeans(start, spacing, j - 1);
    if i < j - 1 {
      AxisIncreases(start, spacing, i, j - 1);
    }
  }

  lemma AxisTellsIndices(start: real, spacing: seq<real>, i: nat, j: nat)
    requires i <= |spacing| && j <= |spacing| && forall k :: 0 <= k < |spacing| ==> spacing[k] > 0.0
    ensures AxisPosition(start, spacing, i) == AxisPosition(start, spacing, j) <==> i == j
  {
    if i < j {
      AxisIncreases(start, spacing, i, j);
    } else if j < i {
      AxisIncreases(start, spacing, j, i);
    }
  }

  /** The lane's own word and site lie on point (x, y) of the grid of zone `z`. */
  predicate On(spec: ArchSpec, z: nat, lane: LaneAddr, x: nat, y: nat)
    requires z < |spec.zones|
  {
    var g := spec.zones[z].grid;
    && lane.zoneId == z && lane.wordId < |spec.words| && lane.siteId < |spec.words[lane.wordId].sites|
    && spec.words[lane.wordId].sites[lane.siteId] == (x, y)
    && x <= |g.xSpacing| && y <= |g.ySpacing|
  }

  /** Lane `i` lies on the `i`-th point. */
  predicate AllOn(spec: ArchSpec, z: nat, lanes: seq<LaneAddr>, points: seq<(nat, nat)>)
    requires z < |spec.zones|
  {
    |points| == |lanes| && forall i :: 0 <= i < |lanes| ==> On(spec, z, lanes[i], points[i].0, points[i].1)
  }

  /** The x of any point and the y of any other meet in some point. */
  ghost predicate FullProduct(points: seq<(nat, nat)>) {
    forall i, j :: 0 <= i < |points| && 0 <= j < |points| ==> (points[i].0, points[j].1) in points
  }

  lemma SameCoordinates(spec: ArchSpec, z: nat, a: LaneAddr, p: (nat, nat), b: LaneAddr, q: (nat, nat))
    requires z < |spec.zones| && Positive(spec.zones[z].grid)
    requires On(spec, z, a, p.0, p.1) && On(spec, z, b, q.0, q.1)
    ensures LanePosition(spec, a).Some? && LanePosition(spec, b).Some?
    ensures LanePosition(spec, a).value.0 == LanePosition(spec, b).value.0 <==> p.0 == q.0
    ensures LanePosition(spec, a).value.1 == LanePosition(spec, b).value.1 <==> p.1 == q.1
  {
    var g := spec.zones[z].grid;
    AxisTellsIndices(g.xStart, g.xSpacing, p.0, q.0);
    AxisTellsIndices(g.yStart, g.ySpacing, p.1, q.1);
  }

  /** The first of `p` and the second of `q` meet. */
  predicate Meet<A(==), B(==)>(s: set<(A, B)>, p: (A, B), q: (A, B)) {
    (p.0, q.1) in s
  }

  ghost predicate AllMeet<A(!new), B(!new)>(s: set<(A, B)>) {
    forall p, q {:trigger Meet(s, p, q)} :: p in s && q in s ==> Meet(s, p, q)
  }

  lemma CompleteMeets<A(!new), B(!new)>(s: set<(A, B)>)
    requires CompleteGrid(s)
    ensures AllMeet(s)
  {
    forall p, q | p in s && q in s ensures Meet(s, p, q) {
      assert p.0 in Firsts(s) && q.1 in Seconds(s);
      assert (p.0, q.1) in Product(Firsts(s), Seconds(s));
    }
  }

  lemma MeetsComplete<A(!new), B(!new)>(s: set<(A, B)>)
    requires AllMeet(s)
    ensures CompleteGrid(s)
  {
    var full := Product(Firsts(s), Seconds(s));
    forall r ensures r in s <==> r in full {
      if r in s {
        assert r == (r.0, r.1) && r.0 in Firsts(s) && r.1 in Seconds(s);
      }
      if r in full {
        var p :| p in s && p.0 == r.0;
        var q :| q in s && q.1 == r.1;
        assert Meet(s, p, q);
      }
    }
  }

  /** With positive spacings the geometry check passes exactly when the grid points of
      the lanes are a full product of columns and rows. */
  lemma GeometryIsProduct(spec: ArchSpec, z: nat, lanes: seq<LaneAddr>, points: seq<(nat, nat)>)
    requires z < |spec.zones| && Positive(spec.zones[z].grid) && AllOn(spec, z, lanes, points)
    ensures GeometryOk(spec, lanes) <==> FullProduct(points)
  {
    forall i | 0 <= i < |lanes| ensures LanePosition(spec, lanes[i]).Some? {
      SameCoordinates(spec, z, lanes[i], points[i], lanes[i], points[i]);
    }
    assert AllPositioned(spec, lanes);
    if CompleteGrid(Positions(spec, lanes)) {
      CompleteMeets(Positions(spec, lanes));
      CompleteGivesProduct(spec, z, lanes, points);
    }
    if FullProduct(points) {
      ProductGivesComplete(spec, z, lanes, points);
      MeetsComplete(Positions(spec, lanes));
    }
  }

  function At(spec: ArchSpec, lanes: seq<LaneAddr>, i: nat): (real, real)
    requires i < |lanes| && LanePosition(spec, lanes[i]).Some?
  {
    LanePosition(spec, lanes[i]).value
  }

  lemma LaneAt(spec: ArchSpec, lanes: seq<LaneAddr>, p: (real, real)) returns (i: nat)
    requires AllPositioned(spec, lanes) && p in Positions(spec, lanes)
    ensures i < |lanes| && LanePosition(spec, lanes[i]) == Some(p)
  {
    i :| i < |lanes| && LanePosition(spec, lanes[i]).value == p;
  }

  lemma CompleteGivesProduct(spec: ArchSpec, z: nat, lanes: seq<LaneAddr>, points: seq<(nat, nat)>)
    requires z < |spec.zones| && Positive(spec.zones[z].grid) && AllOn(spec, z, lanes, points)
    requires AllPositioned(spec, lanes)
    requires AllMeet(Positions(spec, lanes))
    ensures FullProduct(points)
  {
    var s := Positions(spec, lanes);
    forall i, j | 0 <= i < |points| && 0 <= j < |points| ensures (points[i].0, points[j].1) in points {
      assert LanePosition(spec, lanes[i]).value in s && LanePosition(spec, lanes[j]).value in s;
      var p, q := At(spec, lanes, i), At(spec, lanes, j);
      assert Meet(s, p, q);
      var k := LaneAt(spec, lanes, (p.0, q.1));
      SameCoordinates(spec, z, lanes[i], points[i], lanes[k], points[k]);
      SameCoordinates(spec, z, lanes[j], points[j], lanes[k], points[k]);
      assert points[k] == (points[i].0, points[j].1);
    }
  }

  lemma ProductGivesComplete(spec: ArchSpec, z: nat, lanes: seq<LaneAddr>, points: seq<(nat, nat)>)
    requires z < |spec.zones| && Positive(spec.zones[z].grid) && AllOn(spec, z, lanes, points)
    requires AllPositioned(spec, lanes) && FullProduct(points)
    ensures AllMeet(Positions(spec, lanes))
  {
    var s := Positions(spec, lanes);
    forall p, q | p in s && q in s ensures Meet(s, p, q) {
      var i := LaneAt(spec, lanes, p);
      var j := LaneAt(spec, lanes, q);
      assert (points[i].0, points[j].1) in points;
      var k :| 0 <= k < |points| && points[k] == (points[i].0, points[j].1);
      SameCoordinates(spec, z, lanes[i], points[i], lanes[k], points[k]);
      SameCoordinates(spec, z, lanes[j], points[j], lanes[k], points[k]);
      assert LanePosition(spec, lanes[k]).value in s;
    }
  }

  /** On a valid spec with positive spacings, lanes on known grid points have no fault
      exactly when they resolve, their packed addresses differ and, when there are
      several, they go one way on one bus from a full product of columns and rows. */
  lemma GroupCheckByIndices(spec: ArchSpec, z: nat, lanes: seq<LaneAddr>, points: seq<(nat, nat)>)
    requires Validate.ValidSpec(spec) && ValidSpecs.CountsFit(spec)
    requires z < |spec.zones| && Positive(spec.zones[z].grid) && AllOn(spec, z, lanes, points)
    ensures (forall e :: !Fault(spec, lanes, e))
       <==> && (forall i :: 0 <= i < |lanes| ==> LaneEndpoints(spec, lanes[i]).Some?)
            && CodesDiffer(lanes)
            && (|lanes| > 1 ==> (forall i :: 0 < i < |lanes| ==> OneBus(lanes[0], lanes[i])) && FullProduct(points))
  {
    GroupCheckIsExact(spec, lanes);
    GeometryIsProduct(spec, z, lanes, points);
    forall i | 0 <= i < |lanes| ensures LanePosition(spec, lanes[i]).Some? {
      SameCoordinates(spec, z, lanes[i], points[i], lanes[i], points[i]);
    }
    GoodByIndices(spec, lanes);
  }

  lemma GoodByIndices(spec: ArchSpec, lanes: seq<LaneAddr>)
    requires AllPositioned(spec, lanes)
    ensures GoodGroup(spec, lanes) && CodesDiffer(lanes)
       <==> && (forall i :: 0 <= i < |lanes| ==> LaneEndpoints(spec, lanes[i]).Some?)
            && CodesDiffer(lanes)
            && (|lanes| > 1 ==>
                  (forall i :: 0 < i < |lanes| ==> OneBus(lanes[0], lanes[i])) && GeometryOk(spec, lanes))
  {
    CompleteGridIffCount(Positions(spec, lanes));
    if CodesDiffer(lanes) {
      forall i, j | 0 <= i < j < |lanes| ensures lanes[i] != lanes[j] {
        assert EncodeLane(lanes[i]) != EncodeLane(lanes[j]);
      }
    }
  }

  /** The group's membership errors are those of its lanes' own checks, as far as these
      get: a word not listed for a site bus that exists, a site not listed for word buses. */
  lemma MembershipIsLaneError(spec: ArchSpec, lane: LaneAddr)
    requires Lookups.InRange(spec, lane)
    ensures lane.moveType == SiteBus && lane.busId < Lookups.BusCount(spec, lane) ==>
              (GroupCheck.BadWord(spec, lane) <==> LaneError.WordNotInSiteBusList in CheckLane(spec, lane))
    ensures GroupCheck.BadSite(spec, lane) <==> LaneError.SiteNotInWordBusList in CheckLane(spec, lane)
    ensures GroupCheck.BadWord(spec, lane) ==> lane.moveType == SiteBus
  {
    Lookups.CheckLaneReports(spec, lane);
  }
}
