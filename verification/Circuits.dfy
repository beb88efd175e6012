/** Straight-line circuits, and when two of them mean the same. */
module Circuits {
  type Qubit = nat

  /** A recognised source line. `Other` is any line that is neither gate. */
  datatype Line =
    | U3(a: string, b: string, c: string, q: Qubit)
    | Cz(q0: Qubit, q1: Qubit)
    | Other(text: string)

  /** An unrecognised line may do anything, so it counts as touching every qubit. */
  predicate Touches(g: Line, q: Qubit) {
    match g
    case U3(_, _, _, p) => q == p
    case Cz(p0, p1) => q == p0 || q == p1
    case Other(_) => true
  }

  ghost predicate Independent(g: Line, h: Line) {
    forall q :: !(Touches(g, q) && Touches(h, q))
  }

  /** Gates are independent when they share no qubit; other lines are never. */
  lemma IndependentMeans(a: string, b: string, c: string, p: Qubit, q: Qubit, r: Qubit, s: Qubit, t: string, h: Line)
    ensures Independent(U3(a, b, c, p), U3(a, b, c, q)) <==> p != q
    ensures Independent(U3(a, b, c, p), Cz(q, r)) <==> p != q && p != r
    ensures Independent(Cz(p, q), Cz(r, s)) <==> p != r && p != s && q != r && q != s
    ensures !Independent(Other(t), h)
  {
    assert Touches(Cz(p, q), p) && Touches(Cz(p, q), q) && Touches(Cz(q, r), q) && Touches(Cz(q, r), r);
    assert Touches(Cz(r, s), r) && Touches(Cz(r, s), s) && Touches(U3(a, b, c, p), p) && Touches(U3(a, b, c, q), q);
    assert Touches(h, SomeQubit(h)) && Touches(Other(t), SomeQubit(h));
  }

  function SomeQubit(g: Line): (q: Qubit)
    ensures Touches(g, q)
  {
    match g
    case U3(_, _, _, p) => p
    case Cz(p0, _) => p0
    case Other(_) => 0
  }

  /** The lines that touch `q`, in order. */
  function Proj(q: Qubit, ls: seq<Line>): seq<Line> {
    if ls == [] then []
    else if Touches(ls[0], q) then [ls[0]] + Proj(q, ls[1..])
    else Proj(q, ls[1..])
  }

  lemma {:induction false} ProjAppend(q: Qubit, a: seq<Line>, b: seq<Line>)
    ensures Proj(q, a + b) == Proj(q, a) + Proj(q, b)
  {
    if a == [] {
      assert a + b == b;
    } else {
      assert (a + b)[1..] == a[1..] + b;
      ProjAppend(q, a[1..], b);
    }
  }

  lemma {:induction false} ProjUntouched(q: Qubit, ls: seq<Line>)
    ensures Proj(q, ls) == [] <==> forall i :: 0 <= i < |ls| ==> !Touches(ls[i], q)
  {
    if ls != [] {
      ProjUntouched(q, ls[1..]);
      assert forall i :: 0 <= i < |ls[1..]| ==> ls[1..][i] == ls[i + 1];
      assert forall i :: 0 < i < |ls| ==> ls[i] == ls[1..][i - 1];
    }
  }

  /** Every qubit sees the same lines in the same order. */
  ghost predicate SameOnEveryQubit(a: seq<Line>, b: seq<Line>) {
    forall q :: Proj(q, a) == Proj(q, b)
  }

  // --- Meaning ---

  /** Running lines as transformations of a state of any type. */
  function Run<S>(step: (Line, S) -> S, ls: seq<Line>, s: S): S {
    if ls == [] then s else Run(step, ls[1..], step(ls[0], s))
  }

  /** Lines without a common qubit may be exchanged. */
  ghost predicate Commuting<S(!new)>(step: (Line, S) -> S) {
    forall g, h, s :: Independent(g, h) ==> step(g, step(h, s)) == step(h, step(g, s))
  }

  lemma {:induction false} RunAppend<S>(step: (Line, S) -> S, a: seq<Line>, b: seq<Line>, s: S)
    ensures Run(step, a + b, s) == Run(step, b, Run(step, a, s))
  {
    if a == [] {
      assert a + b == b;
    } else {
      assert (a + b)[1..] == a[1..] + b;
      RunAppend(step, a[1..], b, step(a[0], s));
    }
  }

  lemma {:induction false} SlideToFront<S(!new)>(step: (Line, S) -> S, before: seq<Line>, g: Line, s: S)
    requires Commuting(step)
    requires forall k :: 0 <= k < |before| ==> Independent(before[k], g)
    ensures Run(step, before, step(g, s)) == step(g, Run(step, before, s))
  {
    if before != [] {
      assert Independent(before[0], g);
      SlideToFront(step, before[1..], g, step(before[0], s));
    }
  }

  /** First index whose line touches `q`, which is the head of the projection. */
  lemma {:induction false} FirstTouching(q: Qubit, ls: seq<Line>) returns (j: nat)
    requires Proj(q, ls) != []
    ensures j < |ls| && Touches(ls[j], q) && ls[j] == Proj(q, ls)[0]
    ensures forall k :: 0 <= k < j ==> !Touches(ls[k], q)
  {
    if Touches(ls[0], q) {
      j := 0;
    } else {
      var i := FirstTouching(q, ls[1..]);
      j := i + 1;
    }
  }

  /** The head of `a` occurs in `b` with only independent lines before it. */
  lemma HeadIsReachable(a: seq<Line>, b: seq<Line>) returns (j: nat)
    requires a != [] && SameOnEveryQubit(a, b)
    ensures j < |b| && b[j] == a[0]
    ensures forall k :: 0 <= k < j ==> Independent(b[k], a[0])
  {
    var g := a[0];
    var w := SomeQubit(g);
    assert Proj(w, a)[0] == g;
    assert Proj(w, b) == Proj(w, a);
    j := FirstTouching(w, b);
    forall k, q | 0 <= k < j && Touches(g, q) ensures !Touches(b[k], q) {
      assert Proj(q, a)[0] == g && Proj(q, b) == Proj(q, a);
      var i := FirstTouching(q, b);
      assert b[i] == g;
      assert i >= j;
    }
  }

  lemma RemoveHead(a: seq<Line>, b: seq<Line>, j: nat)
    requires a != [] && SameOnEveryQubit(a, b)
    requires j < |b| && b[j] == a[0] && forall k :: 0 <= k < j ==> Independent(b[k], a[0])
    ensures SameOnEveryQubit(a[1..], b[..j] + b[j + 1..])
  {
    forall q ensures Proj(q, a[1..]) == Proj(q, b[..j] + b[j + 1..]) {
      var g, tail := b[j], b[j + 1..];
      assert b == b[..j] + ([g] + tail);
      ProjAppend(q, b[..j], [g] + tail);
      ProjAppend(q, b[..j], tail);
      assert ([g] + tail)[1..] == tail;
      assert Proj(q, a) == Proj(q, b);
      if Touches(g, q) {
        ProjUntouched(q, b[..j]);
        assert forall k :: 0 <= k < j ==> !Touches(b[k], q);
        assert Proj(q, b) == [g] + Proj(q, tail);
        assert Proj(q, a)[1..] == Proj(q, a[1..]);
        assert Proj(q, b)[1..] == Proj(q, tail);
      }
    }
  }

  /** Circuits that agree on every qubit are permutations of each other and denote
      the same transformation wherever lines on disjoint qubits commute. */
  lemma {:induction false} SameOnEveryQubitSameMeaning<S(!new)>(step: (Line, S) -> S, a: seq<Line>, b: seq<Line>, s: S)
    requires SameOnEveryQubit(a, b) && Commuting(step)
    ensures Run(step, a, s) == Run(step, b, s)
    ensures multiset(a) == multiset(b)
    decreases |a|
  {
    if a == [] {
      if b != [] {
        var q := SomeQubit(b[0]);
        ProjUntouched(q, b);
      }
    } else {
      var j := HeadIsReachable(a, b);
      var rest := b[..j] + b[j + 1..];
      RemoveHead(a, b, j);
      SameOnEveryQubitSameMeaning(step, a[1..], rest, step(a[0], s));
      FrontFirst(step, b, j, s);
      assert a == [a[0]] + a[1..];
      assert b == b[..j] + [b[j]] + b[j + 1..];
    }
  }

  lemma FrontFirst<S(!new)>(step: (Line, S) -> S, b: seq<Line>, j: nat, s: S)
    requires Commuting(step) && j < |b|
    requires forall k :: 0 <= k < j ==> Independent(b[k], b[j])
    ensures Run(step, b, s) == Run(step, b[..j] + b[j + 1..], step(b[j], s))
  {
    var g, tail := b[j], b[j + 1..];
    assert b == b[..j] + ([g] + tail);
    RunAppend(step, b[..j], [g] + tail, s);
    assert ([g] + tail)[1..] == tail;
    RunAppend(step, b[..j], tail, step(g, s));
    SlideToFront(step, b[..j], g, s);
  }
}
