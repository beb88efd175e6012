/** What every run of moves conserves, and how a run is undone. */
module History {
  import opened Basics
  import opened Addr
  import opened Arch
  import opened AtomStates

  // --- Totals ---

  ghost function Total(counts: map<u32, nat>): nat {
    if counts == map[] then 0
    else
      var q :| q in counts;
      counts[q] + Total(counts - {q})
  }

  lemma {:induction false} TotalWithout(counts: map<u32, nat>, q: u32)
    requires q in counts
    ensures Total(counts) == counts[q] + Total(counts - {q})
    decreases |counts|
  {
    var p :| p in counts && Total(counts) == counts[p] + Total(counts - {p});
    if p != q {
      TotalWithout(counts - {p}, q);
      TotalWithout(counts - {q}, p);
      assert counts - {p} - {q} == counts - {q} - {p};
    }
  }

  lemma TotalAfterHop(counts: map<u32, nat>, q: u32)
    ensures Total(counts[q := Count(counts, q) + 1]) == Total(counts) + 1
  {
    var next := counts[q := Count(counts, q) + 1];
    TotalWithout(next, q);
    assert next - {q} == counts - {q};
    if q in counts {
      TotalWithout(counts, q);
    } else {
      assert counts - {q} == counts;
    }
  }

  /** How many of the moves find an atom on their source. */
  function Hops(st: AtomState, ms: seq<Move>): nat {
    if ms == [] then 0
    else
      var init := ms[..|ms| - 1];
      Hops(st, init) + if ms[|ms| - 1].src in RunMoves(st, init).locationsToQubit then 1 else 0
  }

  // --- Conservation ---

  /** Every qubit of `Q` is either placed, or a recorded mover, or a recorded
      victim, and only one of these; the maps agree and no victim is hit twice. */
  ghost predicate Conserved(Q: set<u32>, st: AtomState) {
    var live, movers, victims := st.qubitToLocations.Keys, st.collision.Keys, st.collision.Values;
    && InSync(st)
    && live !! movers !! victims
    && live + movers + victims == Q
    && forall a, b :: a in st.collision && b in st.collision && st.collision[a] == st.collision[b] ==> a == b
  }

  lemma StepInSync(st: AtomState, m: Move)
    requires InSync(st)
    ensures InSync(StepMove(st, m))
  {
  }

  lemma StepConserves(Q: set<u32>, st: AtomState, m: Move)
    requires Conserved(Q, st)
    ensures Conserved(Q, StepMove(st, m))
    ensures forall q :: q in st.collision ==>
              q in StepMove(st, m).collision && StepMove(st, m).collision[q] == st.collision[q]
    ensures Total(StepMove(st, m).moveCount) == Total(st.moveCount) + if m.src in st.locationsToQubit then 1 else 0
  {
    StepInSync(st, m);
    if m.src in st.locationsToQubit {
      var q := st.locationsToQubit[m.src];
      TotalAfterHop(st.moveCount, q);
      var rest := st.locationsToQubit - {m.src};
      if m.dst in rest {
        CrashConserves(Q, st, q, rest[m.dst]);
      } else {
        assert st.qubitToLocations[q := m.dst].Keys == st.qubitToLocations.Keys;
      }
    }
  }

  lemma CrashConserves(Q: set<u32>, st: AtomState, q: u32, other: u32)
    requires Conserved(Q, st)
    requires q in st.qubitToLocations && other in st.qubitToLocations && q != other
    ensures var live, c := (st.qubitToLocations - {q, other}).Keys, st.collision[q := other];
            && live !! c.Keys !! c.Values && live + c.Keys + c.Values == Q
            && forall a, b :: a in c && b in c && c[a] == c[b] ==> a == b
  {
    var c := st.collision[q := other];
    assert c.Keys == st.collision.Keys + {q};
    assert c.Values == st.collision.Values + {other} by {
      forall v | v in st.collision.Values ensures v in c.Values {
        var k :| k in st.collision && st.collision[k] == v;
        assert k in c && c[k] == v;
      }
      assert q in c && c[q] == other;
    }
  }

  /** Movers and victims come in pairs, so the placed qubits plus twice the
      collisions are always the qubits of the start. */
  lemma ConservedCount(Q: set<u32>, st: AtomState)
    requires Conserved(Q, st)
    ensures |st.qubitToLocations| + 2 * |st.collision| == |Q|
  {
    InjectiveValues(st.collision);
    var live, movers, victims := st.qubitToLocations.Keys, st.collision.Keys, st.collision.Values;
    assert |live + movers| == |live| + |movers|;
    assert |live + movers + victims| == |live + movers| + |victims|;
  }

  lemma {:induction false} InjectiveValues(m: map<u32, u32>)
    requires forall a, b :: a in m && b in m && m[a] == m[b] ==> a == b
    ensures |m.Values| == |m|
    decreases |m|
  {
    if m != map[] {
      var k :| k in m;
      var rest := m - {k};
      InjectiveValues(rest);
      forall v ensures v in m.Values <==> v in rest.Values || v == m[k] {
        if v in rest.Values {
          var a :| a in rest && rest[a] == v;
          assert m[a] == v;
        }
        if v in m.Values && v != m[k] {
          var a :| a in m && m[a] == v;
          assert a in rest && rest[a] == v;
        }
      }
      assert m.Values == rest.Values + {m[k]};
      assert m[k] !in rest.Values;
      assert m.Keys == rest.Keys + {k};
    }
  }

  lemma {:induction false} RunConserves(Q: set<u32>, st: AtomState, ms: seq<Move>)
    requires Conserved(Q, st)
    ensures Conserved(Q, RunMoves(st, ms))
    ensures forall q :: q in st.collision
              ==> q in RunMoves(st, ms).collision && RunMoves(st, ms).collision[q] == st.collision[q]
    ensures Total(RunMoves(st, ms).moveCount) == Total(st.moveCount) + Hops(st, ms)
  {
    if ms != [] {
      RunConserves(Q, st, ms[..|ms| - 1]);
      StepConserves(Q, RunMoves(st, ms[..|ms| - 1]), ms[|ms| - 1]);
    }
  }

  /** No counter grows by more than the number of moves, so counters that start low
      enough never leave 32 bits. */
  lemma {:induction false} CountsGrowSlowly(st: AtomState, ms: seq<Move>, q: u32)
    ensures Count(st.moveCount, q) <= Count(RunMoves(st, ms).moveCount, q) <= Count(st.moveCount, q) + |ms|
  {
    if ms != [] {
      CountsGrowSlowly(st, ms[..|ms| - 1], q);
    }
  }

  /** A whole run: one call of `apply_moves` after another. */
  function ApplyAll(spec: ArchSpec, st: AtomState, calls: seq<seq<LaneAddr>>): Option<AtomState>
    decreases |calls|
  {
    if calls == [] then Some(st)
    else
      match Apply(spec, st, calls[0])
      case None => None
      case Some(next) => ApplyAll(spec, next, calls[1..])
  }

  /** Atoms found by the lanes of a whole run. */
  function AllHops(spec: ArchSpec, st: AtomState, calls: seq<seq<LaneAddr>>): nat
    decreases |calls|
  {
    if calls == [] || Apply(spec, st, calls[0]).None? then 0
    else
      Hops(st.(prevLanes := map[]), MovesOf(spec, calls[0]))
      + AllHops(spec, Apply(spec, st, calls[0]).value, calls[1..])
  }

  /** A state no move has touched yet. */
  ghost predicate Initial(st: AtomState) {
    InSync(st) && st.collision == map[]
  }

  /** After any run that resolves, no qubit has been lost or made up: the maps are
      inverse, the collision record and the placed qubits split the initial qubits,
      and the move counters have grown by one for each lane that found an atom. */
  lemma WholeRunConserves(spec: ArchSpec, st: AtomState, calls: seq<seq<LaneAddr>>)
    requires Initial(st) && ApplyAll(spec, st, calls).Some?
    ensures var end := ApplyAll(spec, st, calls).value;
            && Conserved(st.qubitToLocations.Keys, end)
            && |end.qubitToLocations| + 2 * |end.collision| == |st.qubitToLocations|
            && Total(end.moveCount) == Total(st.moveCount) + AllHops(spec, st, calls)
  {
    var Q := st.qubitToLocations.Keys;
    assert Conserved(Q, st);
    CallsConserve(Q, spec, st, calls);
    ConservedCount(Q, ApplyAll(spec, st, calls).value);
  }

  lemma ApplyConserves(Q: set<u32>, spec: ArchSpec, st: AtomState, lanes: seq<LaneAddr>)
    requires Conserved(Q, st) && Apply(spec, st, lanes).Some?
    ensures Conserved(Q, Apply(spec, st, lanes).value)
    ensures Total(Apply(spec, st, lanes).value.moveCount)
         == Total(st.moveCount) + Hops(st.(prevLanes := map[]), MovesOf(spec, lanes))
  {
    RunConserves(Q, st.(prevLanes := map[]), MovesOf(spec, lanes));
  }

  lemma {:induction false} CallsConserve(Q: set<u32>, spec: ArchSpec, st: AtomState, calls: seq<seq<LaneAddr>>)
    requires Conserved(Q, st) && ApplyAll(spec, st, calls).Some?
    ensures Conserved(Q, ApplyAll(spec, st, calls).value)
    ensures Total(ApplyAll(spec, st, calls).value.moveCount) == Total(st.moveCount) + AllHops(spec, st, calls)
    decreases |calls|
  {
    if calls != [] {
      ApplyConserves(Q, spec, st, calls[0]);
      CallsConserve(Q, spec, Apply(spec, st, calls[0]).value, calls[1..]);
    }
  }

  // --- Undo ---

  function Back(m: Move): Move {
    Move(Flip(m.lane), m.dst, m.src)
  }

  /** The moves in reverse order, each turned around. */
  function Undoing(ms: seq<Move>): (r: seq<Move>)
    ensures |r| == |ms|
    ensures forall i :: 0 <= i < |ms| ==> r[i] == Back(ms[|ms| - 1 - i])
  {
    seq(|ms|, i requires 0 <= i < |ms| => Back(ms[|ms| - 1 - i]))
  }

  function UndoingLanes(lanes: seq<LaneAddr>): (r: seq<LaneAddr>)
    ensures |r| == |lanes|
    ensures forall i :: 0 <= i < |lanes| ==> r[i] == Flip(lanes[|lanes| - 1 - i])
  {
    seq(|lanes|, i requires 0 <= i < |lanes| => Flip(lanes[|lanes| - 1 - i]))
  }

  predicate SamePlaces(a: AtomState, b: AtomState) {
    a.locationsToQubit == b.locationsToQubit && a.qubitToLocations == b.qubitToLocations
  }

  /** The move finds an atom and a free destination. */
  predicate Clean(st: AtomState, m: Move) {
    m.src in st.locationsToQubit && m.dst !in st.locationsToQubit - {m.src}
  }

  lemma StepBack(st: AtomState, m: Move, x: AtomState)
    requires InSync(st) && Clean(st, m) && SamePlaces(x, StepMove(st, m))
    ensures SamePlaces(StepMove(x, Back(m)), st)
    ensures StepMove(x, Back(m)).collision == x.collision
  {
    var q := st.locationsToQubit[m.src];
    assert x.locationsToQubit - {m.dst} == st.locationsToQubit - {m.src};
    assert (x.locationsToQubit - {m.dst})[m.src := q] == st.locationsToQubit;
    assert x.qubitToLocations[q := m.src] == st.qubitToLocations;
  }

  lemma {:induction false} RunAppend(st: AtomState, a: seq<Move>, b: seq<Move>)
    ensures RunMoves(st, a + b) == RunMoves(RunMoves(st, a), b)
  {
    if b == [] {
      assert a + b == a;
    } else {
      var c := a + b;
      assert c[..|c| - 1] == a + b[..|b| - 1];
      RunAppend(st, a, b[..|b| - 1]);
    }
  }

  lemma RunFirst(st: AtomState, m: Move, rest: seq<Move>)
    ensures RunMoves(st, [m] + rest) == RunMoves(StepMove(st, m), rest)
  {
    RunAppend(st, [m], rest);
    assert [m][..0] == [];
    assert RunMoves(st, [m][..0]) == st;
  }

  lemma {:induction false} RunBack(Q: set<u32>, st: AtomState, ms: seq<Move>, x: AtomState)
    requires Conserved(Q, st) && SamePlaces(x, RunMoves(st, ms))
    requires Hops(st, ms) == |ms| && RunMoves(st, ms).collision == st.collision
    ensures SamePlaces(RunMoves(x, Undoing(ms)), st)
    ensures RunMoves(x, Undoing(ms)).collision == x.collision
    decreases |ms|
  {
    if ms != [] {
      var init, m := ms[..|ms| - 1], ms[|ms| - 1];
      assert ms == init + [m];
      LastIsClean(Q, st, init, m);
      StepBack(RunMoves(st, init), m, x);
      RunBack(Q, st, init, StepMove(x, Back(m)));
      assert Undoing(ms) == [Back(m)] + Undoing(init);
      RunFirst(x, Back(m), Undoing(init));
    }
  }

  lemma HopsBounded(st: AtomState, ms: seq<Move>)
    ensures Hops(st, ms) <= |ms|
  {
  }

  /** When the record is unchanged at the end, the last move crashed into nothing. */
  lemma LastIsClean(Q: set<u32>, st: AtomState, init: seq<Move>, m: Move)
    requires Conserved(Q, st)
    requires Hops(st, init + [m]) == |init| + 1 && RunMoves(st, init + [m]).collision == st.collision
    ensures InSync(RunMoves(st, init)) && Clean(RunMoves(st, init), m)
    ensures RunMoves(st, init).collision == st.collision && Hops(st, init) == |init|
  {
    assert (init + [m])[..|init|] == init;
    var before := RunMoves(st, init);
    HopsBounded(st, init);
    RunConserves(Q, st, init);
    StepConserves(Q, before, m);
    assert before.locationsToQubit[m.src] in before.qubitToLocations;
    assert before.collision == st.collision;
  }

  /** If every lane of a call found an atom and none crashed, which the move counters
      and the collision record show, the same lanes turned around and taken backwards
      resolve, crash into nothing and put every atom back. */
  lemma UndoRestores(Q: set<u32>, spec: ArchSpec, st: AtomState, lanes: seq<LaneAddr>)
    requires Conserved(Q, st) && Apply(spec, st, lanes).Some?
    requires Apply(spec, st, lanes).value.collision == st.collision
    requires Total(Apply(spec, st, lanes).value.moveCount) == Total(st.moveCount) + |lanes|
    ensures var after := Apply(spec, st, lanes).value;
            var undone := Apply(spec, after, UndoingLanes(lanes));
            && undone.Some? && SamePlaces(undone.value, st) && undone.value.collision == after.collision
  {
    var cleared := st.(prevLanes := map[]);
    var ms := MovesOf(spec, lanes);
    var after := RunMoves(cleared, ms);
    RunConserves(Q, cleared, ms);
    RunBack(Q, cleared, ms, after.(prevLanes := map[]));
    UndoingResolves(spec, lanes);
  }

  lemma UndoingResolves(spec: ArchSpec, lanes: seq<LaneAddr>)
    requires Resolves(spec, lanes)
    ensures Resolves(spec, UndoingLanes(lanes))
    ensures MovesOf(spec, UndoingLanes(lanes)) == Undoing(MovesOf(spec, lanes))
  {
    forall i | 0 <= i < |lanes|
      ensures LaneEndpoints(spec, Flip(lanes[i])).Some? && MoveOf(spec, Flip(lanes[i])) == Back(MoveOf(spec, lanes[i]))
    {
      FlipSwapsEndpoints(spec, lanes[i]);
    }
  }
}
