/** Where every qubit is, and how lane moves change it. */
module AtomStates {
  import opened Basics
  import opened Addr
  import opened Arch

  datatype AtomState = AtomState(
    locationsToQubit: map<LocationAddr, u32>,
    qubitToLocations: map<u32, LocationAddr>,
    collision: map<u32, u32>,
    prevLanes: map<u32, LaneAddr>,
    moveCount: map<u32, nat>)

  /** The two location maps are inverses of each other. */
  ghost predicate InSync(st: AtomState) {
    && (forall x :: x in st.locationsToQubit ==>
          st.locationsToQubit[x] in st.qubitToLocations && st.qubitToLocations[st.locationsToQubit[x]] == x)
    && (forall q :: q in st.qubitToLocations ==>
          st.qubitToLocations[q] in st.locationsToQubit && st.locationsToQubit[st.qubitToLocations[q]] == q)
  }

  /** A lane together with the endpoints it resolves to. */
  datatype Move = Move(lane: LaneAddr, src: LocationAddr, dst: LocationAddr)

  function Count(counts: map<u32, nat>, q: u32): nat {
    if q in counts then counts[q] else 0
  }

  /** One turn of the loop of `apply_moves`. */
  function StepMove(st: AtomState, m: Move): AtomState {
    if m.src !in st.locationsToQubit then st
    else
      var q := st.locationsToQubit[m.src];
      var rest := st.locationsToQubit - {m.src};
      var counted := st.(prevLanes := st.prevLanes[q := m.lane],
                         moveCount := st.moveCount[q := Count(st.moveCount, q) + 1]);
      if m.dst in rest then
        counted.(locationsToQubit := rest - {m.dst},
                 qubitToLocations := st.qubitToLocations - {q, rest[m.dst]},
                 collision := st.collision[q := rest[m.dst]])
      else
        counted.(locationsToQubit := rest[m.dst := q],
                 qubitToLocations := st.qubitToLocations[q := m.dst])
  }

  function RunMoves(st: AtomState, ms: seq<Move>): AtomState {
    if ms == [] then st else StepMove(RunMoves(st, ms[..|ms| - 1]), ms[|ms| - 1])
  }

  predicate Resolves(spec: ArchSpec, lanes: seq<LaneAddr>) {
    forall i :: 0 <= i < |lanes| ==> LaneEndpoints(spec, lanes[i]).Some?
  }

  function MoveOf(spec: ArchSpec, lane: LaneAddr): (m: Move)
    requires LaneEndpoints(spec, lane).Some?
    ensures m.lane == lane && Some((m.src, m.dst)) == LaneEndpoints(spec, lane)
  {
    var (s, d) := LaneEndpoints(spec, lane).value;
    Move(lane, s, d)
  }

  function MovesOf(spec: ArchSpec, lanes: seq<LaneAddr>): (ms: seq<Move>)
    requires Resolves(spec, lanes)
    ensures |ms| == |lanes|
    ensures forall i :: 0 <= i < |ms| ==> ms[i] == MoveOf(spec, lanes[i])
  {
    seq(|lanes|, i requires 0 <= i < |lanes| => MoveOf(spec, lanes[i]))
  }

  /** What `apply_moves` computes: None as soon as one lane does not resolve. */
  function Apply(spec: ArchSpec, st: AtomState, lanes: seq<LaneAddr>): Option<AtomState> {
    if Resolves(spec, lanes)
    then Some(RunMoves(st.(prevLanes := map[]), MovesOf(spec, lanes)))
    else None
  }

  method ApplyMoves(spec: ArchSpec, st: AtomState, lanes: seq<LaneAddr>) returns (r: Option<AtomState>)
    ensures r == Apply(spec, st, lanes)
  {
    ghost var start := st.(prevLanes := map[]);
    var current := st.(prevLanes := map[]);
    for i := 0 to |lanes|
      invariant Resolves(spec, lanes[..i])
      invariant current == RunMoves(start, MovesOf(spec, lanes[..i]))
    {
      ResolvesSnoc(spec, lanes, i);
      var endpoints := LaneEndpoints(spec, lanes[i]);
      if endpoints.None? {
        return None;
      }
      MovesSnoc(spec, lanes, i);
      RunSnoc(start, MovesOf(spec, lanes[..i]), MoveOf(spec, lanes[i]));
      current := MoveAtom(current, lanes[i], endpoints.value.0, endpoints.value.1);
    }
    assert lanes[..|lanes|] == lanes;
    return Some(current);
  }

  /** The body of the loop of `apply_moves`, on its five working maps. */
  method MoveAtom(st: AtomState, lane: LaneAddr, src: LocationAddr, dst: LocationAddr) returns (r: AtomState)
    ensures r == StepMove(st, Move(lane, src, dst))
  {
    var locationsToQubit, qubitToLocations := st.locationsToQubit, st.qubitToLocations;
    var collisions, moveCount := st.collision, st.moveCount;
    if src !in locationsToQubit {
      return st;
    }
    var qubit := locationsToQubit[src];
    locationsToQubit := locationsToQubit - {src};
    moveCount := moveCount[qubit := Count(moveCount, qubit) + 1];
    var prevLanes := st.prevLanes[qubit := lane];
    if dst in locationsToQubit {
      var other := locationsToQubit[dst];
      locationsToQubit := locationsToQubit - {dst};
      qubitToLocations := qubitToLocations - {qubit};
      qubitToLocations := qubitToLocations - {other};
      assert qubitToLocations == st.qubitToLocations - {qubit, other};
      collisions := collisions[qubit := other];
    } else {
      qubitToLocations := qubitToLocations[qubit := dst];
      locationsToQubit := locationsToQubit[dst := qubit];
    }
    r := AtomState(locationsToQubit, qubitToLocations, collisions, prevLanes, moveCount);
  }

  lemma ResolvesSnoc(spec: ArchSpec, lanes: seq<LaneAddr>, i: nat)
    requires i < |lanes| && Resolves(spec, lanes[..i])
    ensures Resolves(spec, lanes[..i + 1]) <==> LaneEndpoints(spec, lanes[i]).Some?
    ensures Resolves(spec, lanes) ==> LaneEndpoints(spec, lanes[i]).Some?
  {
    var init, lane := lanes[..i], lanes[i];
    ResolvesAppend(spec, init, lane);
    assert lanes[..i + 1] == init + [lane];
  }

  lemma ResolvesAppend(spec: ArchSpec, init: seq<LaneAddr>, lane: LaneAddr)
    requires Resolves(spec, init)
    ensures Resolves(spec, init + [lane]) <==> LaneEndpoints(spec, lane).Some?
  {
    var next := init + [lane];
    assert next[|init|] == lane;
  }

  lemma RunSnoc(start: AtomState, ms: seq<Move>, m: Move)
    ensures RunMoves(start, ms + [m]) == StepMove(RunMoves(start, ms), m)
  {
    assert (ms + [m])[..|ms|] == ms;
  }

  lemma MovesSnoc(spec: ArchSpec, lanes: seq<LaneAddr>, i: nat)
    requires i < |lanes| && Resolves(spec, lanes[..i]) && LaneEndpoints(spec, lanes[i]).Some?
    requires Resolves(spec, lanes[..i + 1])
    ensures MovesOf(spec, lanes[..i + 1]) == MovesOf(spec, lanes[..i]) + [MoveOf(spec, lanes[i])]
  {
    var init, lane := lanes[..i], lanes[i];
    MovesAppend(spec, init, lane);
    assert lanes[..i + 1] == init + [lane];
  }

  lemma MovesAppend(spec: ArchSpec, init: seq<LaneAddr>, lane: LaneAddr)
    requires Resolves(spec, init) && LaneEndpoints(spec, lane).Some? && Resolves(spec, init + [lane])
    ensures MovesOf(spec, init + [lane]) == MovesOf(spec, init) + [MoveOf(spec, lane)]
  {
    var next := init + [lane];
    var ms := MovesOf(spec, next);
    assert ms[|init|] == MoveOf(spec, next[|init|]);
    forall k | 0 <= k < |init| ensures ms[k] == MovesOf(spec, init)[k] {
      assert next[k] == init[k];
    }
  }

  // --- Building states ---

  datatype AddError = QubitExists | LocationOccupied

  /** Inserting the pairs in order, later keys overwriting earlier ones. */
  function Placed<K, V>(ps: seq<(K, V)>): map<K, V> {
    if ps == [] then map[] else Placed(ps[..|ps| - 1])[ps[|ps| - 1].0 := ps[|ps| - 1].1]
  }

  function Swapped<K, V>(ps: seq<(K, V)>): (r: seq<(V, K)>)
    ensures |r| == |ps|
    ensures forall i :: 0 <= i < |ps| ==> r[i] == (ps[i].1, ps[i].0)
  {
    seq(|ps|, i requires 0 <= i < |ps| => (ps[i].1, ps[i].0))
  }

  function Fresh(ps: seq<(u32, LocationAddr)>): AtomState {
    AtomState(Placed(Swapped(ps)), Placed(ps), map[], map[], map[])
  }

  method FromLocations(ps: seq<(u32, LocationAddr)>) returns (st: AtomState)
    ensures st == Fresh(ps)
  {
    var l2q: map<LocationAddr, u32> := map[];
    var q2l: map<u32, LocationAddr> := map[];
    for i := 0 to |ps|
      invariant q2l == Placed(ps[..i]) && l2q == Placed(Swapped(ps[..i]))
    {
      assert ps[..i + 1][..i] == ps[..i];
      assert Swapped(ps[..i + 1])[..i] == Swapped(ps[..i]);
      q2l := q2l[ps[i].0 := ps[i].1];
      l2q := l2q[ps[i].1 := ps[i].0];
    }
    assert ps[..|ps|] == ps;
    st := AtomState(l2q, q2l, map[], map[], map[]);
  }

  /** The key of entry `i` occurs again later. */
  predicate Rewritten<K(==), V>(ps: seq<(K, V)>, i: nat)
    requires i < |ps|
  {
    exists j :: i < j < |ps| && ps[j].0 == ps[i].0
  }

  /** `from_locations` does not always keep the promised two-way index: it does
      exactly when an entry's qubit reappears later just in case its location does. */
  lemma FromLocationsInSyncIff(ps: seq<(u32, LocationAddr)>)
    ensures InSync(Fresh(ps))
       <==> forall i: nat :: i < |ps| ==> (Rewritten(ps, i) <==> Rewritten(Swapped(ps), i))
  {
    var back := Swapped(ps);
    var q2l, l2q := Placed(ps), Placed(back);
    PlacedMeaning(ps);
    PlacedMeaning(back);
    if InSync(Fresh(ps)) {
      forall i: nat | i < |ps| ensures Rewritten(ps, i) <==> Rewritten(back, i) {
        if !Rewritten(ps, i) {
          assert q2l[ps[i].0] == ps[i].1;
        }
        if !Rewritten(back, i) {
          assert l2q[back[i].0] == back[i].1;
        }
      }
    }
    if forall i: nat :: i < |ps| ==> (Rewritten(ps, i) <==> Rewritten(back, i)) {
      forall q | q in q2l ensures q2l[q] in l2q && l2q[q2l[q]] == q {
        assert Stands(ps, q);
        var i: nat :| i < |ps| && ps[i].0 == q && !Rewritten(ps, i);
        assert !Rewritten(back, i) && back[i].0 == q2l[q];
      }
      forall x | x in l2q ensures l2q[x] in q2l && q2l[l2q[x]] == x {
        assert Stands(back, x);
        var i: nat :| i < |back| && back[i].0 == x && !Rewritten(back, i);
        assert !Rewritten(ps, i) && ps[i].0 == l2q[x];
      }
    }
  }

  /** Two qubits listed at one location: the first is left pointing at the other's site. */
  lemma SharedLocationIsOutOfSync(x: LocationAddr)
    ensures Fresh([(0, x), (1, x)]).qubitToLocations == map[0 := x, 1 := x]
    ensures Fresh([(0, x), (1, x)]).locationsToQubit == map[x := 1]
    ensures !InSync(Fresh([(0, x), (1, x)]))
  {
    var ps: seq<(u32, LocationAddr)> := [(0, x), (1, x)];
    TwoPlaced(ps);
    TwoPlaced(Swapped(ps));
    var st := Fresh(ps);
    assert st.locationsToQubit[st.qubitToLocations[0]] == 1;
  }

  lemma TwoPlaced<K, V>(ps: seq<(K, V)>)
    requires |ps| == 2
    ensures Placed(ps) == map[ps[0].0 := ps[0].1][ps[1].0 := ps[1].1]
  {
    assert ps[..1][..0] == [];
    assert Placed(ps[..1]) == map[ps[0].0 := ps[0].1];
  }

  /** The last entry of a key is the one that stands. */
  lemma {:induction false} PlacedMeaning<K, V>(ps: seq<(K, V)>)
    ensures forall i: nat :: i < |ps| && !Rewritten(ps, i) ==> ps[i].0 in Placed(ps) && Placed(ps)[ps[i].0] == ps[i].1
    ensures forall k :: k in Placed(ps) ==> Stands(ps, k)
  {
    if ps != [] {
      var n := |ps| - 1;
      var init := ps[..n];
      PlacedMeaning(init);
      LastStands(ps);
      forall i: nat | i < n ensures !Rewritten(ps, i) ==> !Rewritten(init, i) && ps[i].0 != ps[n].0 {
        RewrittenNext(ps, i);
      }
      forall k | k in Placed(ps) ensures Stands(ps, k) {
        if k != ps[n].0 {
          StandsNext(ps, k);
        }
      }
    }
  }

  /** Some entry of the key is its last. */
  predicate Stands<K(==), V>(ps: seq<(K, V)>, k: K) {
    exists i: nat :: i < |ps| && ps[i].0 == k && !Rewritten(ps, i)
  }

  lemma RewrittenNext<K, V>(ps: seq<(K, V)>, i: nat)
    requires i + 1 < |ps|
    ensures Rewritten(ps, i) <==> Rewritten(ps[..|ps| - 1], i) || ps[i].0 == ps[|ps| - 1].0
  {
    var init := ps[..|ps| - 1];
    if j :| i < j < |ps| && ps[j].0 == ps[i].0 { assert j < |init| ==> init[j] == ps[j]; }
    if j :| i < j < |init| && init[j].0 == init[i].0 { assert ps[j].0 == ps[i].0; }
  }

  lemma LastStands<K, V>(ps: seq<(K, V)>)
    requires ps != []
    ensures !Rewritten(ps, |ps| - 1) && Stands(ps, ps[|ps| - 1].0)
  {
  }

  lemma StandsNext<K, V>(ps: seq<(K, V)>, k: K)
    requires ps != [] && k != ps[|ps| - 1].0 && Stands(ps[..|ps| - 1], k)
    ensures Stands(ps, k)
  {
    var init := ps[..|ps| - 1];
    var i: nat :| i < |init| && init[i].0 == k && !Rewritten(init, i);
    RewrittenNext(ps, i);
    assert ps[i].0 == k;
  }

  /** Adding atoms fails exactly when a listed qubit or location is already taken,
      with the error of the first such pair, where the qubit is looked at first. It
      places exactly the listed atoms, and keeps the maps in sync. */
  method AddAtoms(st: AtomState, ps: seq<(u32, LocationAddr)>) returns (r: Result<AtomState, AddError>)
    ensures r.Ok? <==> Addable(st, ps, |ps|)
    ensures r.Err? ==> exists i :: 0 <= i < |ps| && FirstRefused(st, ps, i, r.error)
    ensures r.Ok? ==> r.value == Added(st, ps)
    ensures r.Ok? && InSync(st) ==> InSync(r.value)
  {
    var q2l: map<u32, LocationAddr>, l2q: map<LocationAddr, u32> := st.qubitToLocations, st.locationsToQubit;
    for i := 0 to |ps|
      invariant AtomState(l2q, q2l, map[], map[], map[]) == Added(st, ps[..i])
      invariant Addable(st, ps, i)
    {
      NextAddable(st, ps, i);
      NextRefused(st, ps, i);
      if ps[i].0 in q2l {
        return Err(QubitExists);
      }
      if ps[i].1 in l2q {
        return Err(LocationOccupied);
      }
      AddedSnoc(st, ps, i);
      q2l := q2l[ps[i].0 := ps[i].1];
      l2q := l2q[ps[i].1 := ps[i].0];
    }
    assert ps[..|ps|] == ps;
    r := Ok(AtomState(l2q, q2l, map[], map[], map[]));
    assert InSync(st) ==> InSync(r.value) by {
      if InSync(st) {
        AddedInSync(st, ps, |ps|);
      }
    }
  }

  /** The listed atoms on top of the present ones, with no history. */
  function Added(st: AtomState, ps: seq<(u32, LocationAddr)>): AtomState {
    AtomState(st.locationsToQubit + Placed(Swapped(ps)), st.qubitToLocations + Placed(ps), map[], map[], map[])
  }

  /** The first `n` listed qubits and locations are new to the state and listed once. */
  ghost predicate Addable(st: AtomState, ps: seq<(u32, LocationAddr)>, n: nat)
    requires n <= |ps|
  {
    && (forall i :: 0 <= i < n ==> ps[i].0 !in st.qubitToLocations && ps[i].1 !in st.locationsToQubit)
    && (forall i, j :: 0 <= i < j < n ==> ps[i].0 != ps[j].0 && ps[i].1 != ps[j].1)
  }

  predicate QubitTaken(st: AtomState, ps: seq<(u32, LocationAddr)>, i: nat)
    requires i < |ps|
  {
    ps[i].0 in st.qubitToLocations || exists k :: 0 <= k < i && ps[k].0 == ps[i].0
  }

  /** Pair `i` is the first that cannot be added, for the reason given. */
  ghost predicate FirstRefused(st: AtomState, ps: seq<(u32, LocationAddr)>, i: nat, e: AddError)
    requires i < |ps|
  {
    && Addable(st, ps, i) && !Addable(st, ps, i + 1)
    && e == if QubitTaken(st, ps, i) then QubitExists else LocationOccupied
  }

  lemma TakenMeans<K, V>(m: map<K, V>, ps: seq<(K, V)>, i: nat)
    requires i < |ps|
    ensures ps[i].0 in m + Placed(ps[..i]) <==> ps[i].0 in m || exists k :: 0 <= k < i && ps[k].0 == ps[i].0
  {
    PlacedKeys(ps[..i]);
    if k :| 0 <= k < i && ps[k].0 == ps[i].0 {
      assert ps[..i][k].0 == ps[i].0;
    }
  }

  lemma {:induction false} PlacedKeys<K, V>(ps: seq<(K, V)>)
    ensures forall k :: k in Placed(ps) <==> exists i :: 0 <= i < |ps| && ps[i].0 == k
  {
    if ps != [] {
      var init := ps[..|ps| - 1];
      PlacedKeys(init);
      forall k ensures k in Placed(ps) <==> exists i :: 0 <= i < |ps| && ps[i].0 == k {
        if i :| 0 <= i < |ps| && ps[i].0 == k {
          assert i < |init| ==> init[i].0 == k;
        }
        if i :| 0 <= i < |init| && init[i].0 == k {
          assert ps[i].0 == k;
        }
      }
    }
  }

  lemma AddedSnoc(st: AtomState, ps: seq<(u32, LocationAddr)>, i: nat)
    requires i < |ps|
    ensures Added(st, ps[..i + 1])
         == Added(st, ps[..i]).(locationsToQubit := Added(st, ps[..i]).locationsToQubit[ps[i].1 := ps[i].0],
                                qubitToLocations := Added(st, ps[..i]).qubitToLocations[ps[i].0 := ps[i].1])
  {
    assert ps[..i + 1][..i] == ps[..i];
    assert Swapped(ps[..i + 1])[..i] == Swapped(ps[..i]);
  }

  lemma NextAddable(st: AtomState, ps: seq<(u32, LocationAddr)>, i: nat)
    requires i < |ps| && Addable(st, ps, i)
    ensures Addable(st, ps, i + 1)
       <==> ps[i].0 !in Added(st, ps[..i]).qubitToLocations && ps[i].1 !in Added(st, ps[..i]).locationsToQubit
  {
    var back := Swapped(ps);
    TakenMeans(st.qubitToLocations, ps, i);
    TakenMeans(st.locationsToQubit, back, i);
    assert back[..i] == Swapped(ps[..i]);
    assert forall k :: 0 <= k < i ==> back[k].0 == ps[k].1;
  }

  lemma NextRefused(st: AtomState, ps: seq<(u32, LocationAddr)>, i: nat)
    requires i < |ps| && Addable(st, ps, i)
    ensures ps[i].0 in Added(st, ps[..i]).qubitToLocations ==> FirstRefused(st, ps, i, QubitExists)
    ensures ps[i].0 !in Added(st, ps[..i]).qubitToLocations && ps[i].1 in Added(st, ps[..i]).locationsToQubit
        ==> FirstRefused(st, ps, i, LocationOccupied)
  {
    NextAddable(st, ps, i);
    TakenMeans(st.qubitToLocations, ps, i);
  }

  lemma {:induction false} AddedInSync(st: AtomState, ps: seq<(u32, LocationAddr)>, n: nat)
    requires n <= |ps| && InSync(st) && Addable(st, ps, n)
    ensures InSync(Added(st, ps[..n]))
  {
    if n == 0 {
      NothingAdded(st, ps);
    } else {
      AddedInSync(st, ps, n - 1);
      AddingKeepsSync(st, ps, n - 1, Added(st, ps[..n - 1]));
    }
  }

  lemma AddingKeepsSync(st: AtomState, ps: seq<(u32, LocationAddr)>, i: nat, before: AtomState)
    requires i < |ps| && Addable(st, ps, i + 1) && before == Added(st, ps[..i]) && InSync(before)
    ensures InSync(Added(st, ps[..i + 1]))
  {
    AddedSnoc(st, ps, i);
    NextAddable(st, ps, i);
    PlacingKeepsSync(before, ps[i].0, ps[i].1);
  }

  lemma NothingAdded(st: AtomState, ps: seq<(u32, LocationAddr)>)
    requires InSync(st)
    ensures InSync(Added(st, ps[..0]))
  {
    assert Added(st, ps[..0]).qubitToLocations == st.qubitToLocations;
    assert Added(st, ps[..0]).locationsToQubit == st.locationsToQubit;
  }

  lemma PlacingKeepsSync(st: AtomState, q: u32, x: LocationAddr)
    requires InSync(st) && q !in st.qubitToLocations && x !in st.locationsToQubit
    ensures InSync(st.(locationsToQubit := st.locationsToQubit[x := q],
                       qubitToLocations := st.qubitToLocations[q := x]))
  {
  }
}
