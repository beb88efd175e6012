/** The motion metrics: a second simulator of moves, over the statements of a kernel. */
module Metrics {
  import opened Basics
  import opened Addr
  import opened Arch
  import opened AtomStates
  import opened History
  import ValidSpecs

  datatype Stmt = MoveStmt(lanes: seq<LaneAddr>) | CzStmt | OtherStmt

  /** What a qubit has done in the current episode. */
  datatype Leg = Leg(qubit: nat, hops: nat, distance: real)

  /** Where the qubits are, the legs of the current episode in order of each qubit's
      first hop, and the hops and distances recorded at every CZ so far. */
  datatype Trace = Trace(at: map<LocationAddr, nat>, episode: seq<Leg>, hops: seq<nat>, distances: seq<real>)

  /** The length of a lane. */
  type Metric = LaneAddr -> real

  /** One more hop of length `d` for `q`. */
  function Bump(episode: seq<Leg>, q: nat, d: real): seq<Leg> {
    if episode == [] then [Leg(q, 1, d)]
    else if episode[0].qubit == q then [Leg(q, episode[0].hops + 1, episode[0].distance + d)] + episode[1..]
    else [episode[0]] + Bump(episode[1..], q, d)
  }

  function HopsOf(episode: seq<Leg>): (r: seq<nat>)
    ensures |r| == |episode|
  {
    seq(|episode|, i requires 0 <= i < |episode| => episode[i].hops)
  }

  function DistancesOf(episode: seq<Leg>): (r: seq<real>)
    ensures |r| == |episode|
  {
    seq(|episode|, i requires 0 <= i < |episode| => episode[i].distance)
  }

  function SumOf(xs: seq<nat>): nat {
    if xs == [] then 0 else xs[0] + SumOf(xs[1..])
  }

  function Length(xs: seq<real>): real {
    if xs == [] then 0.0 else xs[0] + Length(xs[1..])
  }

  function Hop(metric: Metric, t: Trace, m: Move): Trace {
    if m.src !in t.at then t
    else
      var q := t.at[m.src];
      t.(at := (t.at - {m.src})[m.dst := q], episode := Bump(t.episode, q, metric(m.lane)))
  }

  function HopAll(metric: Metric, t: Trace, ms: seq<Move>): Trace {
    if ms == [] then t else Hop(metric, HopAll(metric, t, ms[..|ms| - 1]), ms[|ms| - 1])
  }

  function Watch(spec: ArchSpec, metric: Metric, t: Trace, s: Stmt): Option<Trace> {
    match s
    case MoveStmt(lanes) => if Resolves(spec, lanes) then Some(HopAll(metric, t, MovesOf(spec, lanes))) else None
    case CzStmt =>
      Some(t.(episode := [], hops := t.hops + HopsOf(t.episode), distances := t.distances + DistancesOf(t.episode)))
    case OtherStmt => Some(t)
  }

  function WatchAll(spec: ArchSpec, metric: Metric, t: Trace, stmts: seq<Stmt>): Option<Trace> {
    if stmts == [] then Some(t)
    else
      match WatchAll(spec, metric, t, stmts[..|stmts| - 1])
      case None => None
      case Some(mid) => Watch(spec, metric, mid, stmts[|stmts| - 1])
  }

  /** Each location's qubit is its index; a repeated location keeps the last. */
  function Layout(layout: seq<LocationAddr>): map<LocationAddr, nat> {
    if layout == [] then map[] else Layout(layout[..|layout| - 1])[layout[|layout| - 1] := |layout| - 1]
  }

  function Start(layout: seq<LocationAddr>): Trace {
    Trace(Layout(layout), [], [], [])
  }

  /** Average hops and distance per recorded leg. */
  function Averages(t: Trace): (real, real) {
    if t.hops == [] || t.distances == [] then (0.0, 0.0)
    else (SumOf(t.hops) as real / |t.hops| as real, Length(t.distances) / |t.distances| as real)
  }

  method WatchLanes(spec: ArchSpec, metric: Metric, t: Trace, lanes: seq<LaneAddr>) returns (r: Option<Trace>)
    ensures r == Watch(spec, metric, t, MoveStmt(lanes))
  {
    var at, episode := t.at, t.episode;
    for i := 0 to |lanes|
      invariant Resolves(spec, lanes[..i])
      invariant t.(at := at, episode := episode) == HopAll(metric, t, MovesOf(spec, lanes[..i]))
    {
      ResolvesSnoc(spec, lanes, i);
      var endpoints := LaneEndpoints(spec, lanes[i]);
      if endpoints.None? {
        return None;
      }
      MovesSnoc(spec, lanes, i);
      HopSnoc(metric, t, MovesOf(spec, lanes[..i]), MoveOf(spec, lanes[i]));
      var (src, dst) := endpoints.value;
      if src in at {
        var qubit := at[src];
        at := (at - {src})[dst := qubit];
        episode := Bump(episode, qubit, metric(lanes[i]));
      }
    }
    assert lanes[..|lanes|] == lanes;
    return Some(t.(at := at, episode := episode));
  }

  lemma HopSnoc(metric: Metric, t: Trace, ms: seq<Move>, m: Move)
    ensures HopAll(metric, t, ms + [m]) == Hop(metric, HopAll(metric, t, ms), m)
  {
    assert (ms + [m])[..|ms|] == ms;
  }

  /** Average hops and distance per moving qubit and CZ episode; None when a lane does
      not resolve. */
  method AnalyzePerCzMotion(spec: ArchSpec, metric: Metric, layout: Option<seq<LocationAddr>>, stmts: seq<Stmt>)
    returns (r: Option<(real, real)>)
    ensures layout.None? || layout.value == [] ==> r == Some((0.0, 0.0))
    ensures layout.Some? && layout.value != [] ==>
              r == match WatchAll(spec, metric, Start(layout.value), stmts)
                   case None => None
                   case Some(t) => Some(Averages(t))
  {
    if layout.None? || layout.value == [] {
      return Some((0.0, 0.0));
    }
    var qubitByLocation: map<LocationAddr, nat> := map[];
    for q := 0 to |layout.value|
      invariant qubitByLocation == Layout(layout.value[..q])
    {
      assert layout.value[..q + 1][..q] == layout.value[..q];
      qubitByLocation := qubitByLocation[layout.value[q] := q];
    }
    assert layout.value[..|layout.value|] == layout.value;
    ghost var start := Start(layout.value);
    var t := Trace(qubitByLocation, [], [], []);
    for i := 0 to |stmts|
      invariant WatchAll(spec, metric, start, stmts[..i]) == Some(t)
    {
      assert stmts[..i + 1][..i] == stmts[..i];
      match stmts[i] {
        case MoveStmt(lanes) =>
          var moved := WatchLanes(spec, metric, t, lanes);
          if moved.None? {
            WatchStops(spec, metric, start, stmts, i + 1);
            return None;
          }
          t := moved.value;
        case CzStmt =>
          t := t.(hops := t.hops + HopsOf(t.episode), distances := t.distances + DistancesOf(t.episode));
          t := t.(episode := []);
        case OtherStmt =>
      }
    }
    assert stmts[..|stmts|] == stmts;
    return Some(Averages(t));
  }

  lemma {:induction false} WatchStops(spec: ArchSpec, metric: Metric, t: Trace, stmts: seq<Stmt>, n: nat)
    requires n <= |stmts| && WatchAll(spec, metric, t, stmts[..n]).None?
    ensures WatchAll(spec, metric, t, stmts).None?
  {
    if n == |stmts| {
      assert stmts[..n] == stmts;
    } else {
      assert stmts[..|stmts| - 1][..n] == stmts[..n];
      WatchStops(spec, metric, t, stmts[..|stmts| - 1], n);
    }
  }

  /** Hops and distances are recorded together. */
  lemma {:induction false} RecordsPaired(spec: ArchSpec, metric: Metric, t: Trace, stmts: seq<Stmt>)
    requires |t.hops| == |t.distances| && WatchAll(spec, metric, t, stmts).Some?
    ensures |WatchAll(spec, metric, t, stmts).value.hops| == |WatchAll(spec, metric, t, stmts).value.distances|
  {
    if stmts != [] {
      var init, s := stmts[..|stmts| - 1], stmts[|stmts| - 1];
      RecordsPaired(spec, metric, t, init);
      if s.MoveStmt? {
        HopAllRecordsNothing(metric, WatchAll(spec, metric, t, init).value, MovesOf(spec, s.lanes));
      }
    }
  }

  lemma {:induction false} HopAllRecordsNothing(metric: Metric, t: Trace, ms: seq<Move>)
    ensures HopAll(metric, t, ms).hops == t.hops && HopAll(metric, t, ms).distances == t.distances
  {
    if ms != [] {
      HopAllRecordsNothing(metric, t, ms[..|ms| - 1]);
    }
  }

  // --- One lane, and lane after lane ---

  /** From the same places, one lane keeps the two in step exactly when nothing crashes:
      the metrics leave the mover on top of the atom it hit. */
  lemma HopAgreesIffNoCrash(metric: Metric, t: Trace, st: AtomState, m: Move)
    requires t.at == st.locationsToQubit
    ensures Hop(metric, t, m).at == StepMove(st, m).locationsToQubit
       <==> !(m.src in st.locationsToQubit && m.dst in st.locationsToQubit - {m.src})
  {
    if m.src in st.locationsToQubit && m.dst in st.locationsToQubit - {m.src} {
      assert m.dst in Hop(metric, t, m).at && m.dst !in StepMove(st, m).locationsToQubit;
    }
  }

  /** The two have the same atoms in the same places after every move. */
  ghost predicate InStep(metric: Metric, t: Trace, st: AtomState, ms: seq<Move>) {
    forall n :: 0 <= n <= |ms| ==> HopAll(metric, t, ms[..n]).at == RunMoves(st, ms[..n]).locationsToQubit
  }

  /** Over any run, the two stay in step after every move exactly when the run ends
      without a recorded collision. */
  lemma {:induction false} InStepIffNoCrash(Q: set<u32>, metric: Metric, t: Trace, st: AtomState, ms: seq<Move>)
    requires Conserved(Q, st) && st.collision == map[] && t.at == st.locationsToQubit
    ensures InStep(metric, t, st, ms) <==> RunMoves(st, ms).collision == map[]
  {
    if ms == [] {
      assert ms[..0] == [];
    } else {
      var init, m := ms[..|ms| - 1], ms[|ms| - 1];
      InStepIffNoCrash(Q, metric, t, st, init);
      InStepSnoc(metric, t, st, ms);
      var mid := RunMoves(st, init);
      RunConserves(Q, st, init);
      StepCrashes(Q, mid, m);
      if HopAll(metric, t, init).at == mid.locationsToQubit {
        HopAgreesIffNoCrash(metric, HopAll(metric, t, init), mid, m);
      }
    }
  }

  lemma InStepSnoc(metric: Metric, t: Trace, st: AtomState, ms: seq<Move>)
    requires ms != []
    ensures var init := ms[..|ms| - 1];
            (InStep(metric, t, st, init) ==> HopAll(metric, t, init).at == RunMoves(st, init).locationsToQubit)
            && (InStep(metric, t, st, ms)
                <==> InStep(metric, t, st, init) && HopAll(metric, t, ms).at == RunMoves(st, ms).locationsToQubit)
  {
    var init := ms[..|ms| - 1];
    assert forall n :: 0 <= n <= |init| ==> init[..n] == ms[..n];
    assert ms[..|ms|] == ms && init[..|init|] == init;
  }

  /** A step leaves the record empty exactly when it was and the step does not crash. */
  lemma StepCrashes(Q: set<u32>, st: AtomState, m: Move)
    requires Conserved(Q, st)
    ensures StepMove(st, m).collision == map[]
       <==> st.collision == map[] && !(m.src in st.locationsToQubit && m.dst in st.locationsToQubit - {m.src})
  {
    StepConserves(Q, st, m);
    if st.collision != map[] {
      var q :| q in st.collision;
      assert q in StepMove(st, m).collision;
    }
    if m.src in st.locationsToQubit && m.dst in st.locationsToQubit - {m.src} {
      assert st.locationsToQubit[m.src] in StepMove(st, m).collision;
    }
  }

  /** Two atoms on neighbouring sites and a lane from one onto the other: the metrics
      go on with the mover, the atom state with neither. */
  lemma CrashSeparatesThem(metric: Metric)
    ensures var spec, stmts := ValidSpecs.ChainedSpec(), [MoveStmt([ValidSpecs.ChainedLane(0)])];
            var layout := [LocationAddr(0, 0, 0), LocationAddr(0, 0, 1)];
            && Watch(spec, metric, Start(layout), stmts[0]).Some?
            && Watch(spec, metric, Start(layout), stmts[0]).value.at == map[layout[1] := 0]
            && Play(spec, Fresh(Pairs(layout)), stmts[0]).Some?
            && Play(spec, Fresh(Pairs(layout)), stmts[0]).value.locationsToQubit == map[]
  {
    ValidSpecs.ChainedLaneResolves(0);
    var x, y := LocationAddr(0, 0, 0), LocationAddr(0, 0, 1);
    OneLaneCrash(ValidSpecs.ChainedSpec(), metric, ValidSpecs.ChainedLane(0), x, y);
  }

  lemma OneLaneCrash(spec: ArchSpec, metric: Metric, lane: LaneAddr, x: LocationAddr, y: LocationAddr)
    requires LaneEndpoints(spec, lane) == Some((x, y)) && x != y
    ensures Watch(spec, metric, Start([x, y]), MoveStmt([lane])).Some?
    ensures Watch(spec, metric, Start([x, y]), MoveStmt([lane])).value.at == map[y := 0]
    ensures Play(spec, Fresh(Pairs([x, y])), MoveStmt([lane])).Some?
    ensures Play(spec, Fresh(Pairs([x, y])), MoveStmt([lane])).value.locationsToQubit == map[]
  {
    var layout, t, st := [x, y], Start([x, y]), Fresh(Pairs([x, y]));
    assert layout[..1] == [x] && layout[..1][..0] == [];
    assert Layout(layout[..1]) == map[x := 0];
    assert t.at == map[x := 0, y := 1];
    LayoutIsPlaced(layout);
    OneMove(spec, lane, x, y);
    OneWatched(spec, metric, t, lane, Move(lane, x, y));
    OnePlayed(spec, st, lane, Move(lane, x, y));
    assert Hop(metric, t, Move(lane, x, y)).at == map[y := 0];
    assert st.locationsToQubit - {x} - {y} == map[];
  }

  lemma OneMove(spec: ArchSpec, lane: LaneAddr, x: LocationAddr, y: LocationAddr)
    requires LaneEndpoints(spec, lane) == Some((x, y))
    ensures Resolves(spec, [lane]) && MovesOf(spec, [lane]) == [Move(lane, x, y)]
  {
  }

  lemma OneWatched(spec: ArchSpec, metric: Metric, t: Trace, lane: LaneAddr, m: Move)
    requires Resolves(spec, [lane]) && MovesOf(spec, [lane]) == [m]
    ensures Watch(spec, metric, t, MoveStmt([lane])) == Some(Hop(metric, t, m))
  {
    HopSnoc(metric, t, [], m);
    assert [] + [m] == [m];
  }

  lemma OnePlayed(spec: ArchSpec, st: AtomState, lane: LaneAddr, m: Move)
    requires Resolves(spec, [lane]) && MovesOf(spec, [lane]) == [m]
    ensures Play(spec, st, MoveStmt([lane])) == Some(StepMove(st.(prevLanes := map[]), m))
  {
    RunSnoc(st.(prevLanes := map[]), [], m);
    assert [] + [m] == [m];
  }

  // --- Agreement with the atom states ---

  function Play(spec: ArchSpec, st: AtomState, s: Stmt): Option<AtomState> {
    if s.MoveStmt? then Apply(spec, st, s.lanes) else Some(st)
  }

  /** The same statements on an atom state. */
  function PlayAll(spec: ArchSpec, st: AtomState, stmts: seq<Stmt>): Option<AtomState> {
    if stmts == [] then Some(st)
    else
      match PlayAll(spec, st, stmts[..|stmts| - 1])
      case None => None
      case Some(mid) => Play(spec, mid, stmts[|stmts| - 1])
  }

  /** The length of the moves that find an atom. */
  function Travelled(metric: Metric, st: AtomState, ms: seq<Move>): real {
    if ms == [] then 0.0
    else
      var init, m := ms[..|ms| - 1], ms[|ms| - 1];
      Travelled(metric, st, init) + if m.src in RunMoves(st, init).locationsToQubit then metric(m.lane) else 0.0
  }

  function TravelledOnce(spec: ArchSpec, metric: Metric, st: AtomState, s: Stmt): real {
    if s.MoveStmt? && Resolves(spec, s.lanes)
    then Travelled(metric, st.(prevLanes := map[]), MovesOf(spec, s.lanes))
    else 0.0
  }

  function TravelledAll(spec: ArchSpec, metric: Metric, st: AtomState, stmts: seq<Stmt>): real {
    if stmts == [] then 0.0
    else
      var init := stmts[..|stmts| - 1];
      TravelledAll(spec, metric, st, init)
      + match PlayAll(spec, st, init)
        case None => 0.0
        case Some(mid) => TravelledOnce(spec, metric, mid, stmts[|stmts| - 1])
  }

  lemma {:induction false} TotalAppend(a: seq<nat>, b: seq<nat>)
    ensures SumOf(a + b) == SumOf(a) + SumOf(b)
  {
    if a == [] {
      assert a + b == b;
    } else {
      assert (a + b)[1..] == a[1..] + b;
      TotalAppend(a[1..], b);
    }
  }

  lemma {:induction false} LengthAppend(a: seq<real>, b: seq<real>)
    ensures Length(a + b) == Length(a) + Length(b)
  {
    if a == [] {
      assert a + b == b;
    } else {
      assert (a + b)[1..] == a[1..] + b;
      LengthAppend(a[1..], b);
    }
  }

  lemma {:induction false} BumpAddsOne(episode: seq<Leg>, q: nat, d: real)
    ensures SumOf(HopsOf(Bump(episode, q, d))) == SumOf(HopsOf(episode)) + 1
    ensures Length(DistancesOf(Bump(episode, q, d))) == Length(DistancesOf(episode)) + d
  {
    var next := Bump(episode, q, d);
    var h, h', l, l' := HopsOf(episode), HopsOf(next), DistancesOf(episode), DistancesOf(next);
    if episode == [] {
      assert h'[1..] == [] && l'[1..] == [];
    } else if episode[0].qubit == q {
      assert h'[1..] == h[1..] && l'[1..] == l[1..];
    } else {
      var rest, more := episode[1..], Bump(episode[1..], q, d);
      BumpAddsOne(rest, q, d);
      assert h[1..] == HopsOf(rest) && h'[1..] == HopsOf(more);
      assert l[1..] == DistancesOf(rest) && l'[1..] == DistancesOf(more);
    }
  }

  /** Same qubits at the same places; every hop counted by a move counter and every
      distance travelled is in the record or in the current episode. */
  ghost predicate Agrees(t: Trace, st: AtomState, travelled: real) {
    && t.at == st.locationsToQubit
    && SumOf(t.hops) + SumOf(HopsOf(t.episode)) == Total(st.moveCount)
    && Length(t.distances) + Length(DistancesOf(t.episode)) == travelled
  }

  lemma HopAgrees(Q: set<u32>, metric: Metric, t: Trace, st: AtomState, m: Move, travelled: real)
    requires Conserved(Q, st) && Agrees(t, st, travelled) && StepMove(st, m).collision == map[]
    ensures Agrees(Hop(metric, t, m), StepMove(st, m),
                   travelled + if m.src in st.locationsToQubit then metric(m.lane) else 0.0)
  {
    StepConserves(Q, st, m);
    if m.src in st.locationsToQubit {
      BumpAddsOne(t.episode, st.locationsToQubit[m.src], metric(m.lane));
    }
  }

  lemma {:induction false} MovesAgree(
    Q: set<u32>, metric: Metric, t: Trace, st: AtomState, ms: seq<Move>, travelled: real)
    requires Conserved(Q, st) && Agrees(t, st, travelled) && RunMoves(st, ms).collision == map[]
    ensures Agrees(HopAll(metric, t, ms), RunMoves(st, ms), travelled + Travelled(metric, st, ms))
  {
    if ms != [] {
      var init, m := ms[..|ms| - 1], ms[|ms| - 1];
      RunConserves(Q, st, init);
      StepCrashes(Q, RunMoves(st, init), m);
      MovesAgree(Q, metric, t, st, init, travelled);
      HopAgrees(Q, metric, HopAll(metric, t, init), RunMoves(st, init), m, travelled + Travelled(metric, st, init));
    }
  }

  /** A statement conserves the qubits and forgets no collision. */
  lemma PlayConserves(Q: set<u32>, spec: ArchSpec, st: AtomState, s: Stmt)
    requires Conserved(Q, st) && Play(spec, st, s).Some?
    ensures Conserved(Q, Play(spec, st, s).value)
    ensures Play(spec, st, s).value.collision == map[] ==> st.collision == map[]
  {
    if s.MoveStmt? {
      RunConserves(Q, st.(prevLanes := map[]), MovesOf(spec, s.lanes));
    }
  }

  lemma StmtAgrees(Q: set<u32>, spec: ArchSpec, metric: Metric, t: Trace, st: AtomState, s: Stmt, travelled: real)
    requires Conserved(Q, st) && Agrees(t, st, travelled)
    requires Play(spec, st, s).Some? && Play(spec, st, s).value.collision == map[]
    ensures Watch(spec, metric, t, s).Some?
    ensures Agrees(Watch(spec, metric, t, s).value, Play(spec, st, s).value,
                   travelled + TravelledOnce(spec, metric, st, s))
  {
    if s.MoveStmt? {
      MovesAgree(Q, metric, t, st.(prevLanes := map[]), MovesOf(spec, s.lanes), travelled);
    } else if s.CzStmt? {
      TotalAppend(t.hops, HopsOf(t.episode));
      LengthAppend(t.distances, DistancesOf(t.episode));
      assert HopsOf([]) == [] && DistancesOf([]) == [];
    }
  }

  lemma {:induction false} PlayAllConserves(Q: set<u32>, spec: ArchSpec, st: AtomState, stmts: seq<Stmt>)
    requires Conserved(Q, st) && PlayAll(spec, st, stmts).Some?
    ensures Conserved(Q, PlayAll(spec, st, stmts).value)
  {
    if stmts != [] {
      PlayAllConserves(Q, spec, st, stmts[..|stmts| - 1]);
      PlayConserves(Q, spec, PlayAll(spec, st, stmts[..|stmts| - 1]).value, stmts[|stmts| - 1]);
    }
  }

  lemma {:induction false} StmtsAgree(
    Q: set<u32>, spec: ArchSpec, metric: Metric, t: Trace, st: AtomState, stmts: seq<Stmt>)
    requires Conserved(Q, st) && Agrees(t, st, 0.0)
    requires PlayAll(spec, st, stmts).Some? && PlayAll(spec, st, stmts).value.collision == map[]
    ensures WatchAll(spec, metric, t, stmts).Some?
    ensures Agrees(WatchAll(spec, metric, t, stmts).value, PlayAll(spec, st, stmts).value,
                   TravelledAll(spec, metric, st, stmts))
  {
    if stmts != [] {
      var init, s := stmts[..|stmts| - 1], stmts[|stmts| - 1];
      var mid := PlayAll(spec, st, init).value;
      PlayAllConserves(Q, spec, st, init);
      PlayConserves(Q, spec, mid, s);
      StmtsAgree(Q, spec, metric, t, st, init);
      StmtAgrees(Q, spec, metric, WatchAll(spec, metric, t, init).value, mid, s, TravelledAll(spec, metric, st, init));
    }
  }

  /** The initial layout as the qubit and location pairs of an atom state. */
  function Pairs(layout: seq<LocationAddr>): (r: seq<(u32, LocationAddr)>)
    requires |layout| <= 0x1_0000_0000
    ensures |r| == |layout|
    ensures forall i :: 0 <= i < |r| ==> r[i] == (i, layout[i])
  {
    seq(|layout|, i requires 0 <= i < |layout| => (i, layout[i]))
  }

  ghost predicate Distinct(layout: seq<LocationAddr>) {
    forall i, j :: 0 <= i < j < |layout| ==> layout[i] != layout[j]
  }

  lemma {:induction false} LayoutIsPlaced(layout: seq<LocationAddr>)
    requires |layout| <= 0x1_0000_0000
    ensures Layout(layout) == Placed(Swapped(Pairs(layout)))
  {
    if layout != [] {
      var n := |layout| - 1;
      LayoutIsPlaced(layout[..n]);
      assert Swapped(Pairs(layout))[..n] == Swapped(Pairs(layout[..n]));
    }
  }

  lemma StartAgrees(layout: seq<LocationAddr>)
    requires |layout| <= 0x1_0000_0000 && Distinct(layout)
    ensures Agrees(Start(layout), Fresh(Pairs(layout)), 0.0) && Initial(Fresh(Pairs(layout)))
  {
    LayoutIsPlaced(layout);
    var ps := Pairs(layout);
    forall i: nat | i < |ps| ensures !Rewritten(ps, i) && !Rewritten(Swapped(ps), i) {
    }
    FromLocationsInSyncIff(ps);
    assert HopsOf([]) == [] && DistancesOf([]) == [];
  }

  /** As long as no atoms crash, the metrics and the atom states see the same atoms in
      the same places, count the same hops and add up the same distances. */
  lemma SimulatorsAgree(spec: ArchSpec, metric: Metric, layout: seq<LocationAddr>, stmts: seq<Stmt>)
    requires |layout| <= 0x1_0000_0000 && Distinct(layout)
    requires var end := PlayAll(spec, Fresh(Pairs(layout)), stmts); end.Some? && end.value.collision == map[]
    ensures var st := Fresh(Pairs(layout));
            var t, end := WatchAll(spec, metric, Start(layout), stmts), PlayAll(spec, st, stmts).value;
            && t.Some? && t.value.at == end.locationsToQubit
            && SumOf(t.value.hops) + SumOf(HopsOf(t.value.episode)) == Total(end.moveCount)
            && Length(t.value.distances) + Length(DistancesOf(t.value.episode)) == TravelledAll(spec, metric, st, stmts)
  {
    var st := Fresh(Pairs(layout));
    StartAgrees(layout);
    assert Conserved(st.qubitToLocations.Keys, st);
    StmtsAgree(st.qubitToLocations.Keys, spec, metric, Start(layout), st, stmts);
  }

  function UpToLastCz(stmts: seq<Stmt>): (r: seq<Stmt>)
    ensures r <= stmts
    ensures forall i :: |r| <= i < |stmts| ==> !stmts[i].CzStmt?
    ensures r != [] ==> r[|r| - 1].CzStmt?
  {
    if stmts == [] || stmts[|stmts| - 1].CzStmt? then stmts else UpToLastCz(stmts[..|stmts| - 1])
  }

  /** Nothing is recorded after the last CZ, and nothing is pending right after it. */
  lemma {:induction false} RecordedAtLastCz(spec: ArchSpec, metric: Metric, t: Trace, stmts: seq<Stmt>)
    requires WatchAll(spec, metric, t, stmts).Some? && t.episode == []
    ensures var cut, end := WatchAll(spec, metric, t, UpToLastCz(stmts)), WatchAll(spec, metric, t, stmts).value;
            cut.Some? && cut.value.hops == end.hops && cut.value.distances == end.distances && cut.value.episode == []
  {
    if stmts != [] && !stmts[|stmts| - 1].CzStmt? {
      var init, s := stmts[..|stmts| - 1], stmts[|stmts| - 1];
      RecordedAtLastCz(spec, metric, t, init);
      if s.MoveStmt? {
        HopAllRecordsNothing(metric, WatchAll(spec, metric, t, init).value, MovesOf(spec, s.lanes));
      }
    }
  }

  lemma {:induction false} PlayedPrefix(spec: ArchSpec, Q: set<u32>, st: AtomState, stmts: seq<Stmt>, n: nat)
    requires n <= |stmts| && Conserved(Q, st)
    requires PlayAll(spec, st, stmts).Some? && PlayAll(spec, st, stmts).value.collision == map[]
    ensures PlayAll(spec, st, stmts[..n]).Some? && PlayAll(spec, st, stmts[..n]).value.collision == map[]
  {
    if n == |stmts| {
      assert stmts[..n] == stmts;
    } else {
      var init := stmts[..|stmts| - 1];
      PlayAllConserves(Q, spec, st, init);
      PlayConserves(Q, spec, PlayAll(spec, st, init).value, stmts[|stmts| - 1]);
      assert init[..n] == stmts[..n];
      PlayedPrefix(spec, Q, st, init, n);
    }
  }

  /** What is recorded over all episodes is what moved up to the last CZ: the hops are
      the move counts, the distances the length of the lanes that found an atom. */
  lemma RecordsAreMoves(spec: ArchSpec, metric: Metric, layout: seq<LocationAddr>, stmts: seq<Stmt>)
    requires |layout| <= 0x1_0000_0000 && Distinct(layout)
    requires var end := PlayAll(spec, Fresh(Pairs(layout)), stmts); end.Some? && end.value.collision == map[]
    ensures var st, upTo := Fresh(Pairs(layout)), UpToLastCz(stmts);
            var t, cut := WatchAll(spec, metric, Start(layout), stmts), PlayAll(spec, st, upTo);
            && t.Some? && cut.Some? && SumOf(t.value.hops) == Total(cut.value.moveCount)
            && Length(t.value.distances) == TravelledAll(spec, metric, st, upTo)
  {
    var st, upTo := Fresh(Pairs(layout)), UpToLastCz(stmts);
    SimulatorsAgree(spec, metric, layout, stmts);
    StartAgrees(layout);
    PlayedPrefix(spec, st.qubitToLocations.Keys, st, stmts, |upTo|);
    assert stmts[..|upTo|] == upTo;
    SimulatorsAgree(spec, metric, layout, upTo);
    RecordedAtLastCz(spec, metric, Start(layout), stmts);
    assert HopsOf([]) == [] && DistancesOf([]) == [];
  }

  // --- One leg per moving qubit ---

  ghost predicate OneLegEach(episode: seq<Leg>) {
    && (forall i, j :: 0 <= i < j < |episode| ==> episode[i].qubit != episode[j].qubit)
    && (forall i :: 0 <= i < |episode| ==> episode[i].hops > 0)
  }

  /** The hops of `q` in the episode. */
  function HopsIn(episode: seq<Leg>, q: nat): nat {
    if episode == [] then 0 else if episode[0].qubit == q then episode[0].hops else HopsIn(episode[1..], q)
  }

  lemma {:induction false} HopsInMeans(episode: seq<Leg>, q: nat)
    requires OneLegEach(episode)
    ensures forall i :: 0 <= i < |episode| && episode[i].qubit == q ==> HopsIn(episode, q) == episode[i].hops
    ensures (forall i :: 0 <= i < |episode| ==> episode[i].qubit != q) <==> HopsIn(episode, q) == 0
  {
    if episode != [] {
      var rest := episode[1..];
      HopsInMeans(rest, q);
      forall i | 0 < i < |episode| ensures episode[i] == rest[i - 1] {
      }
      if episode[0].qubit != q && HopsIn(episode, q) == 0 {
        forall i | 0 <= i < |episode| ensures episode[i].qubit != q {
          assert i > 0 ==> rest[i - 1].qubit != q;
        }
      }
    }
  }

  predicate HasLeg(episode: seq<Leg>, q: nat) {
    exists i :: 0 <= i < |episode| && episode[i].qubit == q
  }

  /** A hop counts for its qubit only. */
  lemma {:induction false} BumpCounts(episode: seq<Leg>, q: nat, d: real, p: nat)
    ensures HopsIn(Bump(episode, q, d), p) == HopsIn(episode, p) + if p == q then 1 else 0
  {
    var next := Bump(episode, q, d);
    if episode != [] && episode[0].qubit == q {
      assert next[1..] == episode[1..];
    } else if episode != [] {
      BumpCounts(episode[1..], q, d, p);
      assert next[1..] == Bump(episode[1..], q, d);
    }
  }

  lemma {:induction false} BumpLegs(episode: seq<Leg>, q: nat, d: real, p: nat)
    ensures HasLeg(Bump(episode, q, d), p) <==> p == q || HasLeg(episode, p)
  {
    var next := Bump(episode, q, d);
    LegCons(next, p);
    if episode != [] {
      LegCons(episode, p);
      if episode[0].qubit == q {
        assert next[1..] == episode[1..];
      } else {
        BumpLegs(episode[1..], q, d, p);
        assert next[1..] == Bump(episode[1..], q, d);
      }
    }
  }

  lemma LegCons(episode: seq<Leg>, p: nat)
    requires episode != []
    ensures HasLeg(episode, p) <==> episode[0].qubit == p || HasLeg(episode[1..], p)
  {
    var rest := episode[1..];
    if i :| 0 <= i < |rest| && rest[i].qubit == p {
      assert episode[i + 1].qubit == p;
    }
    if i :| 0 <= i < |episode| && episode[i].qubit == p {
      assert i > 0 ==> rest[i - 1].qubit == p;
    }
  }

  /** Adding a hop keeps one leg for each qubit; a first hop starts a leg after the others. */
  lemma {:induction false} BumpKeepsOneLeg(episode: seq<Leg>, q: nat, d: real)
    requires OneLegEach(episode)
    ensures OneLegEach(Bump(episode, q, d))
    ensures !HasLeg(episode, q) ==> Bump(episode, q, d) == episode + [Leg(q, 1, d)]
  {
    if episode != [] {
      var first, rest := episode[0], episode[1..];
      LegCons(episode, q);
      assert episode == [first] + rest;
      if first.qubit == q {
        OneLegCons(Leg(q, first.hops + 1, first.distance + d), rest);
      } else {
        BumpKeepsOneLeg(rest, q, d);
        BumpLegs(rest, q, d, first.qubit);
        OneLegCons(first, Bump(rest, q, d));
      }
    }
  }

  lemma OneLegCons(first: Leg, rest: seq<Leg>)
    requires OneLegEach(rest) && first.hops > 0 && !HasLeg(rest, first.qubit)
    ensures OneLegEach([first] + rest)
  {
  }

  /** The legs of the episode and the move counters grow by the same hops, qubit by qubit. */
  ghost predicate LegsFollow(t: Trace, st: AtomState, t': Trace, st': AtomState) {
    && OneLegEach(t'.episode)
    && forall q: u32 :: HopsIn(t'.episode, q) + Count(st.moveCount, q)
                        == HopsIn(t.episode, q) + Count(st'.moveCount, q)
  }

  lemma HopFollows(metric: Metric, t: Trace, st: AtomState, m: Move)
    requires t.at == st.locationsToQubit && OneLegEach(t.episode)
    ensures LegsFollow(t, st, Hop(metric, t, m), StepMove(st, m))
  {
    if m.src in t.at {
      var q := t.at[m.src];
      BumpKeepsOneLeg(t.episode, q, metric(m.lane));
      var next := Bump(t.episode, q, metric(m.lane));
      forall p: u32 ensures HopsIn(next, p) == HopsIn(t.episode, p) + if p == q then 1 else 0 {
        BumpCounts(t.episode, q, metric(m.lane), p);
      }
    }
  }

  /** Within an episode without collisions each qubit that moved has one leg, with as many
      hops as its move counter grew; a qubit that did not move has none. */
  lemma {:induction false} LegsAreMoves(Q: set<u32>, metric: Metric, t: Trace, st: AtomState, ms: seq<Move>, d: real)
    requires Conserved(Q, st) && Agrees(t, st, d) && RunMoves(st, ms).collision == map[] && OneLegEach(t.episode)
    ensures LegsFollow(t, st, HopAll(metric, t, ms), RunMoves(st, ms))
  {
    if ms != [] {
      var init, m := ms[..|ms| - 1], ms[|ms| - 1];
      RunConserves(Q, st, init);
      StepCrashes(Q, RunMoves(st, init), m);
      MovesAgree(Q, metric, t, st, init, d);
      LegsAreMoves(Q, metric, t, st, init, d);
      HopFollows(metric, HopAll(metric, t, init), RunMoves(st, init), m);
    }
  }

  /** A CZ records every leg of the episode, in order, and starts a new episode. */
  lemma CzRecords(spec: ArchSpec, metric: Metric, t: Trace)
    requires |t.hops| == |t.distances|
    ensures var r := Watch(spec, metric, t, CzStmt);
            && r.Some? && r.value.episode == [] && r.value.at == t.at
            && |r.value.hops| == |r.value.distances| == |t.hops| + |t.episode|
            && t.hops <= r.value.hops && t.distances <= r.value.distances
            && forall i :: 0 <= i < |t.episode| ==>
                 && r.value.hops[|t.hops| + i] == t.episode[i].hops
                 && r.value.distances[|t.hops| + i] == t.episode[i].distance
  {
  }

  /** The averages are what each recorded leg would have if all had the same. */
  lemma AveragesMean(t: Trace)
    requires |t.hops| == |t.distances|
    ensures t.hops == [] ==> Averages(t) == (0.0, 0.0)
    ensures Averages(t).0 * |t.hops| as real == SumOf(t.hops) as real
    ensures Averages(t).1 * |t.distances| as real == Length(t.distances)
  {
    if t.hops != [] {
      Divided(SumOf(t.hops) as real, |t.hops| as real);
      Divided(Length(t.distances), |t.distances| as real);
    }
  }

  lemma Divided(a: real, n: real)
    requires n != 0.0
    ensures a / n * n == a
  {
  }
}
