/** The one-shot parallel move that a move set stands for, and when running its
    lanes one by one gives the same state. */
module Simultaneous {
  import opened Basics
  import opened Addr
  import opened Arch
  import opened AtomStates

  /** No two moves share a source or a destination, and no destination is a source. */
  ghost predicate Parallel(S: set<Move>) {
    && (forall a, b :: a in S && b in S ==> a.src != b.dst)
    && (forall a, b :: a in S && b in S && a != b ==> a.src != b.src && a.dst != b.dst)
  }

  ghost predicate Leaves(S: set<Move>, x: LocationAddr) {
    exists m :: m in S && m.src == x
  }

  ghost function MoveFrom(S: set<Move>, x: LocationAddr): (m: Move)
    requires Leaves(S, x)
    ensures m in S && m.src == x
  {
    var m :| m in S && m.src == x; m
  }

  /** Some atom of `st` travels to `x`. */
  ghost predicate Arrives(st: AtomState, S: set<Move>, x: LocationAddr) {
    exists m :: m in S && m.dst == x && m.src in st.locationsToQubit
  }

  ghost function MoveInto(st: AtomState, S: set<Move>, x: LocationAddr): (m: Move)
    requires Arrives(st, S, x)
    ensures m in S && m.dst == x && m.src in st.locationsToQubit
  {
    var m :| m in S && m.dst == x && m.src in st.locationsToQubit; m
  }

  /** Qubit `q` sits on the source of a move. */
  ghost predicate Travels(st: AtomState, S: set<Move>, q: u32) {
    q in st.qubitToLocations && Leaves(S, st.qubitToLocations[q])
  }

  ghost function Journey(st: AtomState, S: set<Move>, q: u32): Move
    requires Travels(st, S, q)
  {
    MoveFrom(S, st.qubitToLocations[q])
  }

  /** Qubit `q` is still placed afterwards: it travels to a free site, or it
      stays and nothing arrives. */
  ghost predicate Survives(st: AtomState, S: set<Move>, q: u32) {
    && q in st.qubitToLocations
    && if Travels(st, S, q) then Journey(st, S, q).dst !in st.locationsToQubit
       else !Arrives(st, S, st.qubitToLocations[q])
  }

  /** Site `x` holds an atom afterwards. */
  ghost predicate Filled(st: AtomState, S: set<Move>, x: LocationAddr) {
    if Arrives(st, S, x) then x !in st.locationsToQubit
    else x in st.locationsToQubit && !Leaves(S, x)
  }

  ghost function AfterLocations(st: AtomState, S: set<Move>): map<LocationAddr, u32> {
    map x | x in st.locationsToQubit.Keys + (set m | m in S :: m.dst) && Filled(st, S, x)
      :: if Arrives(st, S, x) then st.locationsToQubit[MoveInto(st, S, x).src] else st.locationsToQubit[x]
  }

  ghost function AfterQubits(st: AtomState, S: set<Move>): map<u32, LocationAddr> {
    map q | q in st.qubitToLocations && Survives(st, S, q)
      :: if Travels(st, S, q) then Journey(st, S, q).dst else st.qubitToLocations[q]
  }

  /** The traveller `q` is lost to an occupied destination. */
  ghost predicate Crashes(st: AtomState, S: set<Move>, q: u32) {
    Travels(st, S, q) && Journey(st, S, q).dst in st.locationsToQubit
  }

  ghost function AfterCollisions(st: AtomState, S: set<Move>): map<u32, u32> {
    map q | q in st.collision.Keys + st.qubitToLocations.Keys && (q in st.collision || Crashes(st, S, q))
      :: if Crashes(st, S, q) then st.locationsToQubit[Journey(st, S, q).dst] else st.collision[q]
  }

  ghost function AfterLanes(st: AtomState, S: set<Move>): map<u32, LaneAddr> {
    map q | q in st.prevLanes.Keys + st.qubitToLocations.Keys && (q in st.prevLanes || Travels(st, S, q))
      :: if Travels(st, S, q) then Journey(st, S, q).lane else st.prevLanes[q]
  }

  ghost function AfterCounts(st: AtomState, S: set<Move>): map<u32, nat> {
    map q | q in st.moveCount.Keys + st.qubitToLocations.Keys && (q in st.moveCount || Travels(st, S, q))
      :: if Travels(st, S, q) then Count(st.moveCount, q) + 1 else st.moveCount[q]
  }

  /** Every atom on a source moves at once. One that finds its destination taken
      is lost together with the occupant, and the collision is recorded. */
  ghost function MoveAtOnce(st: AtomState, S: set<Move>): AtomState {
    AtomState(AfterLocations(st, S), AfterQubits(st, S), AfterCollisions(st, S), AfterLanes(st, S), AfterCounts(st, S))
  }

  // --- One more move, one more step ---

  lemma LocationAfter(st: AtomState, S: set<Move>, x: LocationAddr)
    ensures x in AfterLocations(st, S) <==> Filled(st, S, x)
    ensures Filled(st, S, x)
        ==> AfterLocations(st, S)[x]
            == if Arrives(st, S, x) then st.locationsToQubit[MoveInto(st, S, x).src] else st.locationsToQubit[x]
  {
    if Arrives(st, S, x) {
      assert MoveInto(st, S, x).dst in (set m | m in S :: m.dst);
    }
  }

  /** How the moves leaving and reaching one site grow with the set. */
  lemma Grow(st: AtomState, S: set<Move>, m: Move, x: LocationAddr)
    requires Parallel(S + {m})
    ensures Leaves(S, x) ==> Leaves(S + {m}, x) && MoveFrom(S + {m}, x) == MoveFrom(S, x)
    ensures Leaves(S + {m}, x) <==> Leaves(S, x) || x == m.src
    ensures x == m.src ==> MoveFrom(S + {m}, x) == m
    ensures Arrives(st, S, x) ==> Arrives(st, S + {m}, x) && MoveInto(st, S + {m}, x) == MoveInto(st, S, x)
    ensures Arrives(st, S + {m}, x) <==> Arrives(st, S, x) || (x == m.dst && m.src in st.locationsToQubit)
    ensures x == m.dst && m.src in st.locationsToQubit ==> MoveInto(st, S + {m}, x) == m
  {
    var T := S + {m};
    assert m in T;
    if Leaves(S, x) {
      assert MoveFrom(S, x) in T;
    }
    if Arrives(st, S, x) {
      assert MoveInto(st, S, x) in T;
    }
  }

  /** The endpoints of a new move are untouched by the old ones. */
  lemma EndpointsUntouched(st: AtomState, S: set<Move>, m: Move)
    requires m !in S && Parallel(S + {m})
    ensures !Leaves(S, m.src) && !Arrives(st, S, m.src)
    ensures !Leaves(S, m.dst) && !Arrives(st, S, m.dst)
    ensures m.src != m.dst
  {
    var T := S + {m};
    assert m in T;
    assert forall n :: n in S ==> n in T;
  }

  lemma StepLocationAt(st: AtomState, S: set<Move>, m: Move, x: LocationAddr)
    requires m !in S && Parallel(S + {m})
    ensures var stepped, next := StepMove(MoveAtOnce(st, S), m).locationsToQubit, AfterLocations(st, S + {m});
            (x in stepped <==> x in next) && (x in next ==> stepped[x] == next[x])
  {
    EndpointsUntouched(st, S, m);
    Grow(st, S, m, x);
    LocationAfter(st, S, x);
    LocationAfter(st, S + {m}, x);
    LocationAfter(st, S, m.src);
    LocationAfter(st, S, m.dst);
  }

  lemma StepLocations(st: AtomState, S: set<Move>, m: Move)
    requires m !in S && Parallel(S + {m})
    ensures StepMove(MoveAtOnce(st, S), m).locationsToQubit == AfterLocations(st, S + {m})
  {
    forall x
      ensures var stepped, next := StepMove(MoveAtOnce(st, S), m).locationsToQubit, AfterLocations(st, S + {m});
              (x in stepped <==> x in next) && (x in next ==> stepped[x] == next[x])
    {
      StepLocationAt(st, S, m, x);
    }
  }

  /** Whether the qubit `q` is the one picked up, and what the step does to it. */
  lemma PickedUp(st: AtomState, S: set<Move>, m: Move)
    requires m !in S && Parallel(S + {m})
    ensures m.src in AfterLocations(st, S) <==> m.src in st.locationsToQubit
    ensures m.dst in AfterLocations(st, S) <==> m.dst in st.locationsToQubit
    ensures m.src in st.locationsToQubit ==> AfterLocations(st, S)[m.src] == st.locationsToQubit[m.src]
    ensures m.dst in st.locationsToQubit ==> AfterLocations(st, S)[m.dst] == st.locationsToQubit[m.dst]
    ensures m.src != m.dst
  {
    EndpointsUntouched(st, S, m);
    LocationAfter(st, S, m.src);
    LocationAfter(st, S, m.dst);
  }

  /** Among placed qubits, `m` sets in motion just the one on its source. */
  lemma TravelsGrow(st: AtomState, S: set<Move>, m: Move, q: u32)
    requires InSync(st) && m !in S && Parallel(S + {m}) && q in st.qubitToLocations
    ensures !Travels(st, S, q) || st.qubitToLocations[q] != m.src
    ensures Travels(st, S + {m}, q) <==> Travels(st, S, q) || st.qubitToLocations[q] == m.src
    ensures Travels(st, S, q) ==> Journey(st, S + {m}, q) == Journey(st, S, q)
    ensures st.qubitToLocations[q] == m.src ==> Journey(st, S + {m}, q) == m
    ensures st.qubitToLocations[q] == m.src <==> m.src in st.locationsToQubit && st.locationsToQubit[m.src] == q
    ensures st.qubitToLocations[q] == m.dst <==> m.dst in st.locationsToQubit && st.locationsToQubit[m.dst] == q
  {
    EndpointsUntouched(st, S, m);
    Grow(st, S, m, st.qubitToLocations[q]);
  }

  /** `after` is one step past `before`, with the moving qubit and its obstacle read off `st`. */
  ghost predicate Stepped(st: AtomState, m: Move, before: AtomState, after: AtomState) {
    if m.src !in st.locationsToQubit then after == before
    else
      var q := st.locationsToQubit[m.src];
      && after.prevLanes == before.prevLanes[q := m.lane]
      && after.moveCount == before.moveCount[q := Count(before.moveCount, q) + 1]
      && if m.dst in st.locationsToQubit then
           && after.qubitToLocations == before.qubitToLocations - {q, st.locationsToQubit[m.dst]}
           && after.collision == before.collision[q := st.locationsToQubit[m.dst]]
         else
           after.qubitToLocations == before.qubitToLocations[q := m.dst] && after.collision == before.collision
  }

  lemma StepIsStepped(st: AtomState, m: Move, before: AtomState)
    requires m.src != m.dst
    requires m.src in before.locationsToQubit <==> m.src in st.locationsToQubit
    requires m.dst in before.locationsToQubit <==> m.dst in st.locationsToQubit
    requires m.src in st.locationsToQubit ==> before.locationsToQubit[m.src] == st.locationsToQubit[m.src]
    requires m.dst in st.locationsToQubit ==> before.locationsToQubit[m.dst] == st.locationsToQubit[m.dst]
    ensures Stepped(st, m, before, StepMove(before, m))
  {
  }

  lemma SurvivesGrow(st: AtomState, S: set<Move>, m: Move, q: u32)
    requires InSync(st) && m !in S && Parallel(S + {m}) && q in st.qubitToLocations
    ensures var x, l2q := st.qubitToLocations[q], st.locationsToQubit;
            && (x == m.src <==> m.src in l2q && l2q[m.src] == q)
            && (x == m.dst <==> m.dst in l2q && l2q[m.dst] == q)
            && (if x == m.src then
                  && (Survives(st, S + {m}, q) <==> m.dst !in l2q)
                  && Travels(st, S + {m}, q) && Journey(st, S + {m}, q) == m
                else
                  && (Survives(st, S + {m}, q) <==> Survives(st, S, q) && !(x == m.dst && m.src in l2q))
                  && (Travels(st, S + {m}, q) <==> Travels(st, S, q))
                  && (Travels(st, S, q) ==> Journey(st, S + {m}, q) == Journey(st, S, q)))
  {
    TravelsGrow(st, S, m, q);
    EndpointsUntouched(st, S, m);
    Grow(st, S, m, st.qubitToLocations[q]);
  }

  lemma StepQubitAt(st: AtomState, S: set<Move>, m: Move, before: AtomState, after: AtomState, q: u32)
    requires InSync(st) && m !in S && Parallel(S + {m})
    requires Stepped(st, m, before, after) && before.qubitToLocations == AfterQubits(st, S)
    ensures q in after.qubitToLocations <==> Survives(st, S + {m}, q)
    ensures q in after.qubitToLocations ==> after.qubitToLocations[q] == AfterQubits(st, S + {m})[q]
  {
    if q in st.qubitToLocations {
      SurvivesGrow(st, S, m, q);
    } else if m.src in st.locationsToQubit {
      assert st.locationsToQubit[m.src] in st.qubitToLocations;
    }
  }

  lemma CollisionAfter(st: AtomState, S: set<Move>, q: u32)
    ensures q in AfterCollisions(st, S) <==> q in st.collision || Crashes(st, S, q)
    ensures q in AfterCollisions(st, S)
        ==> AfterCollisions(st, S)[q]
            == if Crashes(st, S, q) then st.locationsToQubit[Journey(st, S, q).dst] else st.collision[q]
  {
  }

  lemma CrashesGrow(st: AtomState, S: set<Move>, m: Move, q: u32)
    requires InSync(st) && m !in S && Parallel(S + {m}) && q in st.qubitToLocations
    ensures var l2q := st.locationsToQubit;
            var crashNow := m.src in l2q && l2q[m.src] == q && m.dst in l2q;
            && (Crashes(st, S + {m}, q) <==> Crashes(st, S, q) || crashNow)
            && (crashNow ==> Journey(st, S + {m}, q) == m)
            && (Crashes(st, S, q) ==> !crashNow && Journey(st, S + {m}, q) == Journey(st, S, q))
  {
    TravelsGrow(st, S, m, q);
  }

  lemma StepCollisionAt(st: AtomState, S: set<Move>, m: Move, before: AtomState, after: AtomState, q: u32)
    requires InSync(st) && m !in S && Parallel(S + {m})
    requires Stepped(st, m, before, after) && before.collision == AfterCollisions(st, S)
    ensures q in after.collision <==> q in AfterCollisions(st, S + {m})
    ensures q in after.collision ==> after.collision[q] == AfterCollisions(st, S + {m})[q]
  {
    CollisionAfter(st, S, q);
    CollisionAfter(st, S + {m}, q);
    if q in st.qubitToLocations {
      CrashesGrow(st, S, m, q);
    } else {
      assert !Crashes(st, S, q) && !Crashes(st, S + {m}, q);
      assert m.src in st.locationsToQubit ==> st.locationsToQubit[m.src] in st.qubitToLocations;
    }
  }

  lemma StepLaneAt(st: AtomState, S: set<Move>, m: Move, before: AtomState, after: AtomState, q: u32)
    requires InSync(st) && m !in S && Parallel(S + {m})
    requires Stepped(st, m, before, after) && before.prevLanes == AfterLanes(st, S)
    ensures q in after.prevLanes <==> q in AfterLanes(st, S + {m})
    ensures q in after.prevLanes ==> after.prevLanes[q] == AfterLanes(st, S + {m})[q]
  {
    if q in st.qubitToLocations {
      TravelsGrow(st, S, m, q);
    } else if m.src in st.locationsToQubit {
      assert st.locationsToQubit[m.src] in st.qubitToLocations;
    }
  }

  lemma StepCountAt(st: AtomState, S: set<Move>, m: Move, before: AtomState, after: AtomState, q: u32)
    requires InSync(st) && m !in S && Parallel(S + {m})
    requires Stepped(st, m, before, after) && before.moveCount == AfterCounts(st, S)
    ensures q in after.moveCount <==> q in AfterCounts(st, S + {m})
    ensures q in after.moveCount ==> after.moveCount[q] == AfterCounts(st, S + {m})[q]
  {
    if q in st.qubitToLocations {
      TravelsGrow(st, S, m, q);
    } else if m.src in st.locationsToQubit {
      assert st.locationsToQubit[m.src] in st.qubitToLocations;
    }
  }

  /** Adding a move to the parallel move is one sequential step. */
  lemma StepExtends(st: AtomState, S: set<Move>, m: Move)
    requires InSync(st) && m !in S && Parallel(S + {m})
    ensures StepMove(MoveAtOnce(st, S), m) == MoveAtOnce(st, S + {m})
  {
    var before := MoveAtOnce(st, S);
    PickedUp(st, S, m);
    StepIsStepped(st, m, before);
    StepLocations(st, S, m);
    SamePlaces(st, S, m, before, StepMove(before, m));
    SameCollisions(st, S, m, before, StepMove(before, m));
    SameLanes(st, S, m, before, StepMove(before, m));
    SameCounts(st, S, m, before, StepMove(before, m));
  }

  lemma SamePlaces(st: AtomState, S: set<Move>, m: Move, before: AtomState, after: AtomState)
    requires InSync(st) && m !in S && Parallel(S + {m})
    requires Stepped(st, m, before, after)
    requires before.qubitToLocations == AfterQubits(st, S)
    ensures after.qubitToLocations == AfterQubits(st, S + {m})
  {
    forall q
      ensures q in after.qubitToLocations <==> q in AfterQubits(st, S + {m})
      ensures q in after.qubitToLocations ==> after.qubitToLocations[q] == AfterQubits(st, S + {m})[q]
    {
      StepQubitAt(st, S, m, before, after, q);
    }
  }

  lemma SameCollisions(st: AtomState, S: set<Move>, m: Move, before: AtomState, after: AtomState)
    requires InSync(st) && m !in S && Parallel(S + {m})
    requires Stepped(st, m, before, after)
    requires before.collision == AfterCollisions(st, S)
    ensures after.collision == AfterCollisions(st, S + {m})
  {
    forall q
      ensures q in after.collision <==> q in AfterCollisions(st, S + {m})
      ensures q in after.collision ==> after.collision[q] == AfterCollisions(st, S + {m})[q]
    {
      StepCollisionAt(st, S, m, before, after, q);
    }
  }

  lemma SameLanes(st: AtomState, S: set<Move>, m: Move, before: AtomState, after: AtomState)
    requires InSync(st) && m !in S && Parallel(S + {m})
    requires Stepped(st, m, before, after) && before.prevLanes == AfterLanes(st, S)
    ensures after.prevLanes == AfterLanes(st, S + {m})
  {
    forall q
      ensures q in after.prevLanes <==> q in AfterLanes(st, S + {m})
      ensures q in after.prevLanes ==> after.prevLanes[q] == AfterLanes(st, S + {m})[q]
    {
      StepLaneAt(st, S, m, before, after, q);
    }
  }

  lemma SameCounts(st: AtomState, S: set<Move>, m: Move, before: AtomState, after: AtomState)
    requires InSync(st) && m !in S && Parallel(S + {m})
    requires Stepped(st, m, before, after) && before.moveCount == AfterCounts(st, S)
    ensures after.moveCount == AfterCounts(st, S + {m})
  {
    forall q
      ensures q in after.moveCount <==> q in AfterCounts(st, S + {m})
      ensures q in after.moveCount ==> after.moveCount[q] == AfterCounts(st, S + {m})[q]
    {
      StepCountAt(st, S, m, before, after, q);
    }
  }

  /** A move already made finds its source empty. */
  lemma RepeatIsIdle(st: AtomState, S: set<Move>, m: Move)
    requires m in S && Parallel(S)
    ensures StepMove(MoveAtOnce(st, S), m) == MoveAtOnce(st, S)
  {
    assert Leaves(S, m.src);
    assert !Arrives(st, S, m.src);
  }

  lemma NothingMoves(st: AtomState)
    requires InSync(st)
    ensures MoveAtOnce(st, {}) == st
  {
    forall x ensures x in AfterLocations(st, {}) <==> x in st.locationsToQubit {
      LocationAfter(st, {}, x);
    }
    assert AfterLocations(st, {}) == st.locationsToQubit;
    assert forall q :: !Travels(st, {}, q);
    assert AfterQubits(st, {}) == st.qubitToLocations;
    assert AfterCollisions(st, {}) == st.collision;
    assert AfterLanes(st, {}) == st.prevLanes;
    assert AfterCounts(st, {}) == st.moveCount;
  }

  /** Sequential execution refines the simultaneous move. */
  lemma {:induction false} RunIsMoveAtOnce(st: AtomState, ms: seq<Move>)
    requires InSync(st) && Parallel(Elements(ms))
    ensures RunMoves(st, ms) == MoveAtOnce(st, Elements(ms))
  {
    if ms == [] {
      NothingMoves(st);
      assert Elements(ms) == {};
    } else {
      var init, m := ms[..|ms| - 1], ms[|ms| - 1];
      var S := Elements(init);
      assert ms == init + [m];
      assert Elements(ms) == S + {m};
      RunIsMoveAtOnce(st, init);
      if m in S {
        assert S + {m} == S;
        RepeatIsIdle(st, S, m);
      } else {
        StepExtends(st, S, m);
      }
    }
  }
}
