/** When the order and repetition of the lanes given to `apply_moves` do not matter. */
module OrderIndependence {
  import opened Basics
  import opened Addr
  import opened Arch
  import opened AtomStates
  import opened MoveSets
  import opened Simultaneous

  // --- Exactly which moves commute ---

  /** Any two lists of the same moves from `S` give the same state. */
  ghost predicate OrderFree(S: set<Move>) {
    forall st, a, b ::
      InSync(st) && Elements(a) == Elements(b) && Elements(a) <= S ==> RunMoves(st, a) == RunMoves(st, b)
  }

  /** Order and repetition are immaterial, from every synchronised state, exactly
      when no two moves share an endpoint and none starts where another ends. */
  lemma OrderFreeIffParallel(S: set<Move>)
    ensures OrderFree(S) <==> Parallel(S)
  {
    if Parallel(S) {
      forall st, a, b | InSync(st) && Elements(a) == Elements(b) && Elements(a) <= S
        ensures RunMoves(st, a) == RunMoves(st, b)
      {
        SubsetParallel(Elements(a), S);
        RunIsMoveAtOnce(st, a);
        RunIsMoveAtOnce(st, b);
      }
    } else {
      var a, b :| a in S && b in S && (a.src == b.dst || (a != b && (a.src == b.src || a.dst == b.dst)));
      NotOrderFree(S, a, b);
    }
  }

  lemma SubsetParallel(T: set<Move>, S: set<Move>)
    requires T <= S && Parallel(S)
    ensures Parallel(T)
  {
  }

  lemma NotOrderFree(S: set<Move>, a: Move, b: Move)
    requires a in S && b in S
    requires a.src == b.dst || (a != b && (a.src == b.src || a.dst == b.dst))
    ensures !OrderFree(S)
  {
    assert Elements([a, b]) == Elements([b, a]) == {a, b};
    if a.src == a.dst {
      LoopCounts(S, a);
    } else if b.src == b.dst {
      LoopCounts(S, b);
    } else if a.src == b.src {
      ForkDiffers(a, b);
    } else if a.src == b.dst {
      ChainCounts(b, a);
    } else if b.src == a.dst {
      ChainCounts(a, b);
    } else {
      CrashDiffers(a, b);
    }
  }

  /** Qubit 0 alone at `x`. */
  function One(x: LocationAddr): (st: AtomState)
    ensures InSync(st)
  {
    AtomState(map[x := 0], map[0 := x], map[], map[], map[])
  }

  /** Qubits 0 and 1 at `x` and `y`. */
  function Two(x: LocationAddr, y: LocationAddr): (st: AtomState)
    requires x != y
    ensures InSync(st)
  {
    AtomState(map[x := 0, y := 1], map[0 := x, 1 := y], map[], map[], map[])
  }

  lemma TwoSteps(st: AtomState, a: Move, b: Move)
    ensures RunMoves(st, [a]) == StepMove(st, a)
    ensures RunMoves(st, [a, b]) == StepMove(StepMove(st, a), b)
  {
    assert [a, b][..1] == [a] && [a][..0] == [];
    assert RunMoves(st, [a][..0]) == st;
  }

  /** A move onto its own source counts each time it is listed. */
  lemma LoopCounts(S: set<Move>, a: Move)
    requires a in S && a.src == a.dst
    ensures !OrderFree(S)
  {
    var st := One(a.src);
    TwoSteps(st, a, a);
    assert Elements([a]) == Elements([a, a]) == {a};
    assert Count(RunMoves(st, [a]).moveCount, 0) == 1;
    assert Count(RunMoves(st, [a, a]).moveCount, 0) == 2;
    assert RunMoves(st, [a]) != RunMoves(st, [a, a]);
  }

  /** Two moves off one site: the first listed takes the atom. */
  lemma ForkDiffers(a: Move, b: Move)
    requires a != b && a.src == b.src && a.src != a.dst && b.src != b.dst
    ensures RunMoves(One(a.src), [a, b]) != RunMoves(One(a.src), [b, a])
  {
    var st := One(a.src);
    TwoSteps(st, a, b);
    TwoSteps(st, b, a);
    assert RunMoves(st, [a, b]).prevLanes[0] == a.lane && RunMoves(st, [a, b]).qubitToLocations[0] == a.dst;
    assert RunMoves(st, [b, a]).prevLanes[0] == b.lane && RunMoves(st, [b, a]).qubitToLocations[0] == b.dst;
  }

  /** A move that starts where another ends carries the atom on, or not. */
  lemma ChainCounts(a: Move, b: Move)
    requires a.src != a.dst && b.src != b.dst && a.dst == b.src
    ensures RunMoves(One(a.src), [a, b]) != RunMoves(One(a.src), [b, a])
  {
    var st := One(a.src);
    TwoSteps(st, a, b);
    TwoSteps(st, b, a);
    assert Count(RunMoves(st, [a, b]).moveCount, 0) == 2;
    assert Count(RunMoves(st, [b, a]).moveCount, 0) == 1;
  }

  /** Two moves onto one site: the second listed is the recorded mover. */
  lemma CrashDiffers(a: Move, b: Move)
    requires a.src != b.src && a.dst == b.dst && a.src != a.dst && b.src != b.dst
    ensures RunMoves(Two(a.src, b.src), [a, b]) != RunMoves(Two(a.src, b.src), [b, a])
  {
    var st := Two(a.src, b.src);
    TwoSteps(st, a, b);
    TwoSteps(st, b, a);
    assert RunMoves(st, [a, b]).collision == map[1 := 0];
    assert RunMoves(st, [b, a]).collision == map[0 := 1];
    assert 1 !in RunMoves(st, [b, a]).collision;
  }

  /** Moving one by one is moving at once, whatever is listed from `S`. */
  ghost predicate OneByOneIsAtOnce(S: set<Move>) {
    forall st, ms :: InSync(st) && Elements(ms) <= S ==> RunMoves(st, ms) == MoveAtOnce(st, Elements(ms))
  }

  /** The sequential loop and the simultaneous move agree exactly on parallel moves. */
  lemma AtOnceIffParallel(S: set<Move>)
    ensures OneByOneIsAtOnce(S) <==> Parallel(S)
  {
    if Parallel(S) {
      forall st, ms | InSync(st) && Elements(ms) <= S ensures RunMoves(st, ms) == MoveAtOnce(st, Elements(ms)) {
        SubsetParallel(Elements(ms), S);
        RunIsMoveAtOnce(st, ms);
      }
    }
    if OneByOneIsAtOnce(S) {
      OrderFreeIffParallel(S);
    }
  }

  // --- Any lanes ---

  /** Any two lists of the same lanes from `lanes` give the same answer. */
  ghost predicate LanesOrderFree(spec: ArchSpec, lanes: seq<LaneAddr>) {
    forall st, a, b :: InSync(st) && Elements(a) == Elements(b) && Elements(a) <= Elements(lanes)
      ==> Apply(spec, st, a) == Apply(spec, st, b)
  }

  /** For lanes of any buses that resolve, `apply_moves` ignores order and repetition
      from every synchronised state exactly when their moves are parallel. */
  lemma LanesOrderFreeIffParallel(spec: ArchSpec, lanes: seq<LaneAddr>)
    requires Resolves(spec, lanes)
    ensures LanesOrderFree(spec, lanes) <==> Parallel(Elements(MovesOf(spec, lanes)))
  {
    var S := Elements(MovesOf(spec, lanes));
    if Parallel(S) {
      forall st, a, b | InSync(st) && Elements(a) == Elements(b) && Elements(a) <= Elements(lanes)
        ensures Apply(spec, st, a) == Apply(spec, st, b)
      {
        SomeLanesSomeMoves(spec, a, lanes);
        SubsetParallel(Elements(MovesOf(spec, a)), S);
        SameLanesSameMoves(spec, a, b);
        SameLanesSameMoves(spec, b, a);
        SameMovesSameRun(st.(prevLanes := map[]), MovesOf(spec, a), MovesOf(spec, b));
      }
    }
    if LanesOrderFree(spec, lanes) {
      forall st, a, b | InSync(st) && Elements(a) == Elements(b) && Elements(a) <= S
        ensures RunMoves(st, a) == RunMoves(st, b)
      {
        RunsOfMovesAgree(spec, lanes, st, a, b);
      }
      OrderFreeIffParallel(S);
    }
  }

  lemma SomeLanesSomeMoves(spec: ArchSpec, a: seq<LaneAddr>, lanes: seq<LaneAddr>)
    requires Elements(a) <= Elements(lanes) && Resolves(spec, lanes)
    ensures Resolves(spec, a) && Elements(MovesOf(spec, a)) <= Elements(MovesOf(spec, lanes))
  {
    forall i | 0 <= i < |a|
      ensures LaneEndpoints(spec, a[i]).Some? && MoveOf(spec, a[i]) in Elements(MovesOf(spec, lanes))
    {
      assert a[i] in Elements(a) && a[i] in lanes;
      var j :| 0 <= j < |lanes| && lanes[j] == a[i];
      assert MovesOf(spec, lanes)[j] == MoveOf(spec, a[i]);
    }
  }

  function LanesOf(ms: seq<Move>): (r: seq<LaneAddr>)
    ensures |r| == |ms| && forall i :: 0 <= i < |r| ==> r[i] == ms[i].lane
  {
    seq(|ms|, i requires 0 <= i < |ms| => ms[i].lane)
  }

  lemma MovesOfTheirLanes(spec: ArchSpec, lanes: seq<LaneAddr>, ms: seq<Move>)
    requires Resolves(spec, lanes) && Elements(ms) <= Elements(MovesOf(spec, lanes))
    ensures Elements(LanesOf(ms)) <= Elements(lanes)
    ensures Resolves(spec, LanesOf(ms)) && MovesOf(spec, LanesOf(ms)) == ms
  {
    forall i | 0 <= i < |ms|
      ensures ms[i].lane in Elements(lanes)
      ensures LaneEndpoints(spec, ms[i].lane).Some? && MoveOf(spec, ms[i].lane) == ms[i]
    {
      assert ms[i] in Elements(ms) && ms[i] in MovesOf(spec, lanes);
      var j :| 0 <= j < |lanes| && MovesOf(spec, lanes)[j] == ms[i];
      assert lanes[j] == ms[i].lane;
    }
  }

  lemma SameMovesSameLanes(a: seq<Move>, b: seq<Move>)
    requires Elements(a) == Elements(b)
    ensures Elements(LanesOf(a)) <= Elements(LanesOf(b))
  {
    forall l | l in LanesOf(a) ensures l in LanesOf(b) {
      var i :| 0 <= i < |a| && a[i].lane == l;
      assert a[i] in Elements(b);
      var j :| 0 <= j < |b| && b[j] == a[i];
      assert LanesOf(b)[j] == l;
    }
  }

  /** The lanes last used before a run only show for qubits that do not move. */
  lemma {:induction false} RunWithoutHistory(st: AtomState, ms: seq<Move>)
    ensures var r := RunMoves(st.(prevLanes := map[]), ms);
            RunMoves(st, ms) == r.(prevLanes := st.prevLanes + r.prevLanes)
  {
    if ms == [] {
      assert st.prevLanes + map[] == st.prevLanes;
    } else {
      var init := ms[..|ms| - 1];
      RunWithoutHistory(st, init);
      StepWithoutHistory(RunMoves(st, init), RunMoves(st.(prevLanes := map[]), init), st.prevLanes, ms[|ms| - 1]);
    }
  }

  lemma StepWithoutHistory(x: AtomState, r: AtomState, p: map<u32, LaneAddr>, m: Move)
    requires x == r.(prevLanes := p + r.prevLanes)
    ensures StepMove(x, m) == StepMove(r, m).(prevLanes := p + StepMove(r, m).prevLanes)
  {
    if m.src in r.locationsToQubit {
      var q := r.locationsToQubit[m.src];
      assert (p + r.prevLanes)[q := m.lane] == p + r.prevLanes[q := m.lane];
    }
  }

  lemma RunsOfMovesAgree(spec: ArchSpec, lanes: seq<LaneAddr>, st: AtomState, a: seq<Move>, b: seq<Move>)
    requires Resolves(spec, lanes) && LanesOrderFree(spec, lanes) && InSync(st)
    requires Elements(a) == Elements(b) && Elements(a) <= Elements(MovesOf(spec, lanes))
    ensures RunMoves(st, a) == RunMoves(st, b)
  {
    MovesOfTheirLanes(spec, lanes, a);
    MovesOfTheirLanes(spec, lanes, b);
    SameMovesSameLanes(a, b);
    SameMovesSameLanes(b, a);
    assert Apply(spec, st, LanesOf(a)) == Apply(spec, st, LanesOf(b));
    RunWithoutHistory(st, a);
    RunWithoutHistory(st, b);
  }

  // --- Lanes of one bus ---

  /** Resolution is injective and never lands on a site it would also start from. */
  ghost predicate OneToOne<T(!new)>(bus: Bus<T>) {
    && (forall x, y :: ResolveForward(bus, x).Some? && ResolveForward(bus, x) == ResolveForward(bus, y) ==> x == y)
    && (forall x :: ResolveForward(bus, x).Some? ==> ResolveForward(bus, ResolveForward(bus, x).value).None?)
  }

  ghost predicate LaneBusOneToOne(spec: ArchSpec, lane: LaneAddr) {
    lane.zoneId < |spec.zones|
    && match lane.moveType
       case SiteBus =>
         lane.busId < |spec.zones[lane.zoneId].siteBuses| && OneToOne(spec.zones[lane.zoneId].siteBuses[lane.busId])
       case WordBus =>
         lane.busId < |spec.zones[lane.zoneId].wordBuses| && OneToOne(spec.zones[lane.zoneId].wordBuses[lane.busId])
       case ZoneBus => lane.busId < |spec.zoneBuses| && OneToOne(spec.zoneBuses[lane.busId])
  }

  predicate SameGroup(a: LaneAddr, b: LaneAddr) {
    a.zoneId == b.zoneId && a.moveType == b.moveType && a.direction == b.direction && a.busId == b.busId
  }

  /** In-range lanes of one bus, moving one way. */
  ghost predicate BusGroup(spec: ArchSpec, lanes: seq<LaneAddr>) {
    && (forall l :: l in lanes ==> LaneInRange(l) && LaneBusOneToOne(spec, l))
    && (forall a, b :: a in lanes && b in lanes ==> SameGroup(a, b))
  }

  lemma TargetsApart(spec: ArchSpec, a: LaneAddr, b: LaneAddr)
    requires LaneInRange(a) && LaneInRange(b) && SameGroup(a, b) && LaneBusOneToOne(spec, a)
    requires ForwardTarget(spec, a).Some? && ForwardTarget(spec, b).Some?
    ensures ForwardTarget(spec, a).value != ForwardSource(b)
    ensures a != b ==> ForwardTarget(spec, a) != ForwardTarget(spec, b) && ForwardSource(a) != ForwardSource(b)
  {
  }

  lemma EndpointsApart(spec: ArchSpec, a: LaneAddr, b: LaneAddr)
    requires LaneInRange(a) && LaneInRange(b) && SameGroup(a, b)
    requires LaneBusOneToOne(spec, a) && LaneBusOneToOne(spec, b)
    requires LaneEndpoints(spec, a).Some? && LaneEndpoints(spec, b).Some?
    ensures MoveOf(spec, a).src != MoveOf(spec, b).dst
    ensures a != b ==> MoveOf(spec, a).src != MoveOf(spec, b).src && MoveOf(spec, a).dst != MoveOf(spec, b).dst
  {
    TargetsApart(spec, a, b);
    TargetsApart(spec, b, a);
  }

  lemma BusGroupIsParallel(spec: ArchSpec, lanes: seq<LaneAddr>)
    requires Resolves(spec, lanes) && BusGroup(spec, lanes)
    ensures Parallel(Elements(MovesOf(spec, lanes)))
  {
    var ms := MovesOf(spec, lanes);
    forall i, j | 0 <= i < |ms| && 0 <= j < |ms|
      ensures ms[i].src != ms[j].dst
      ensures ms[i] != ms[j] ==> ms[i].src != ms[j].src && ms[i].dst != ms[j].dst
    {
      EndpointsApart(spec, lanes[i], lanes[j]);
    }
  }

  /** Running the lanes of one well-formed bus one by one is the simultaneous move. */
  lemma SequentialIsSimultaneous(spec: ArchSpec, st: AtomState, lanes: seq<LaneAddr>)
    requires InSync(st) && BusGroup(spec, lanes) && Resolves(spec, lanes)
    ensures Apply(spec, st, lanes) == Some(MoveAtOnce(st.(prevLanes := map[]), Elements(MovesOf(spec, lanes))))
  {
    BusGroupIsParallel(spec, lanes);
    RunIsMoveAtOnce(st.(prevLanes := map[]), MovesOf(spec, lanes));
  }

  lemma SameLanesSameMoves(spec: ArchSpec, a: seq<LaneAddr>, b: seq<LaneAddr>)
    requires Elements(a) == Elements(b)
    ensures Resolves(spec, a) ==> Resolves(spec, b)
    ensures Resolves(spec, a) ==> Elements(MovesOf(spec, a)) <= Elements(MovesOf(spec, b))
  {
    if Resolves(spec, a) {
      forall i | 0 <= i < |b| ensures LaneEndpoints(spec, b[i]).Some? {
        assert b[i] in Elements(a);
        var j :| 0 <= j < |a| && a[j] == b[i];
      }
      forall m | m in MovesOf(spec, a) ensures m in MovesOf(spec, b) {
        var i :| 0 <= i < |a| && m == MoveOf(spec, a[i]);
        assert a[i] in Elements(b);
        var j :| 0 <= j < |b| && b[j] == a[i];
        assert MovesOf(spec, b)[j] == m;
      }
    }
  }

  /** Every list with the same lanes, in any order and with any repetition, gives
      the same answer. */
  lemma OrderAndRepetitionDoNotMatter(spec: ArchSpec, st: AtomState, a: seq<LaneAddr>, b: seq<LaneAddr>)
    requires InSync(st) && BusGroup(spec, a) && Elements(a) == Elements(b)
    ensures Apply(spec, st, a) == Apply(spec, st, b)
  {
    SameLanesSameMoves(spec, a, b);
    SameLanesSameMoves(spec, b, a);
    if Resolves(spec, a) {
      BusGroupIsParallel(spec, a);
      SameMovesSameRun(st.(prevLanes := map[]), MovesOf(spec, a), MovesOf(spec, b));
    }
  }

  lemma SameMovesSameRun(st: AtomState, a: seq<Move>, b: seq<Move>)
    requires InSync(st) && Elements(a) == Elements(b) && Parallel(Elements(a))
    ensures RunMoves(st, a) == RunMoves(st, b)
  {
    RunIsMoveAtOnce(st, a);
    RunIsMoveAtOnce(st, b);
  }

  /** A move set may be unpacked and run as a list: the list it was built from
      would have done the same. */
  lemma MoveSetRunsLikeItsLanes(spec: ArchSpec, st: AtomState, lanes: seq<LaneAddr>, ms: MoveSet)
    requires InSync(st) && BusGroup(spec, lanes) && Holds(ms, Encodings(lanes))
    ensures Decode(ms).Some? && Apply(spec, st, Decode(ms).value) == Apply(spec, st, lanes)
  {
    DecodeListsTheLanes(ms, lanes);
    OrderAndRepetitionDoNotMatter(spec, st, lanes, Decode(ms).value);
  }
}
