/** Greedy layering of a gate block by per-qubit dependency, and why no
    order-respecting layering is shallower. */
module Layering {
  import opened Circuits

  ghost predicate Gates(ops: seq<Line>) {
    forall i :: 0 <= i < |ops| ==> !ops[i].Other?
  }

  function Max(a: int, b: int): int { if a < b then b else a }

  // --- Levels ---

  /** The level of the last of the first `n` gates on `q`, or -1. */
  ghost function LastLevel(ops: seq<Line>, n: nat, q: Qubit): (r: int)
    requires n <= |ops|
    ensures r >= -1
    decreases n, 0
  {
    if n == 0 then -1
    else if Touches(ops[n - 1], q) then Level(ops, n - 1)
    else LastLevel(ops, n - 1, q)
  }

  /** One past the latest level on any qubit of the gate. */
  ghost function Level(ops: seq<Line>, i: nat): nat
    requires i < |ops|
    decreases i, 1
  {
    match ops[i]
    case U3(_, _, _, q) => LastLevel(ops, i, q) + 1
    case Cz(q0, q1) => Max(LastLevel(ops, i, q0), LastLevel(ops, i, q1)) + 1
    case Other(_) => 0
  }

  ghost function Depth(ops: seq<Line>, n: nat): nat
    requires n <= |ops|
  {
    if n == 0 then 0 else Max(Depth(ops, n - 1), Level(ops, n - 1) + 1)
  }

  lemma LastBelowLevel(ops: seq<Line>, i: nat, q: Qubit)
    requires Gates(ops) && i < |ops| && Touches(ops[i], q)
    ensures LastLevel(ops, i, q) < Level(ops, i)
  {
  }

  lemma {:induction false} LastIsLatest(ops: seq<Line>, n: nat, i: nat, q: Qubit)
    requires Gates(ops) && i < n <= |ops| && Touches(ops[i], q)
    ensures Level(ops, i) <= LastLevel(ops, n, q)
  {
    if i < n - 1 {
      LastIsLatest(ops, n - 1, i, q);
      if Touches(ops[n - 1], q) {
        LastBelowLevel(ops, n - 1, q);
      }
    }
  }

  lemma {:induction false} LastIsSome(ops: seq<Line>, n: nat, q: Qubit) returns (i: nat)
    requires n <= |ops| && LastLevel(ops, n, q) >= 0
    ensures i < n && Touches(ops[i], q) && Level(ops, i) == LastLevel(ops, n, q)
  {
    if Touches(ops[n - 1], q) {
      i := n - 1;
    } else {
      i := LastIsSome(ops, n - 1, q);
    }
  }

  lemma {:induction false} LastBelowDepth(ops: seq<Line>, n: nat, q: Qubit)
    requires n <= |ops|
    ensures LastLevel(ops, n, q) < Depth(ops, n)
  {
    if n > 0 {
      LastBelowDepth(ops, n - 1, q);
    }
  }

  /** Gates on a common qubit are on increasing levels. */
  lemma LevelsIncrease(ops: seq<Line>, i: nat, j: nat, q: Qubit)
    requires Gates(ops) && i < j < |ops| && Touches(ops[i], q) && Touches(ops[j], q)
    ensures Level(ops, i) < Level(ops, j)
  {
    LastIsLatest(ops, j, i, q);
    LastBelowLevel(ops, j, q);
  }

  /** Every gate above level 0 has an earlier gate on a common qubit just below it. */
  lemma TightPredecessor(ops: seq<Line>, j: nat) returns (i: nat, q: Qubit)
    requires Gates(ops) && j < |ops| && Level(ops, j) > 0
    ensures i < j && Touches(ops[i], q) && Touches(ops[j], q) && Level(ops, i) == Level(ops, j) - 1
  {
    match ops[j]
    case U3(_, _, _, p) =>
      q := p;
      i := LastIsSome(ops, j, q);
    case Cz(p0, p1) =>
      q := if LastLevel(ops, j, p0) < LastLevel(ops, j, p1) then p1 else p0;
      i := LastIsSome(ops, j, q);
  }

  /** An assignment of gates to layers that keeps every qubit's gate order. */
  ghost predicate Respects(ops: seq<Line>, layerOf: seq<nat>) {
    && |layerOf| == |ops|
    && forall i, j, q :: 0 <= i < j < |ops| && Touches(ops[i], q) && Touches(ops[j], q) ==> layerOf[i] < layerOf[j]
  }

  lemma {:induction false} LevelIsLeast(ops: seq<Line>, layerOf: seq<nat>, j: nat)
    requires Gates(ops) && Respects(ops, layerOf) && j < |ops|
    ensures Level(ops, j) <= layerOf[j]
  {
    if Level(ops, j) > 0 {
      var i, q := TightPredecessor(ops, j);
      LevelIsLeast(ops, layerOf, i);
    }
  }

  /** No layering that keeps every qubit's gate order uses fewer layers. */
  lemma {:induction false} DepthIsMinimal(ops: seq<Line>, layerOf: seq<nat>, layers: nat)
    requires Gates(ops) && Respects(ops, layerOf)
    requires forall i :: 0 <= i < |ops| ==> layerOf[i] < layers
    ensures Depth(ops, |ops|) <= layers
  {
    DepthUpTo(ops, layerOf, layers, |ops|);
  }

  lemma {:induction false} DepthUpTo(ops: seq<Line>, layerOf: seq<nat>, layers: nat, n: nat)
    requires Gates(ops) && Respects(ops, layerOf) && n <= |ops|
    requires forall i :: 0 <= i < |ops| ==> layerOf[i] < layers
    ensures Depth(ops, n) <= layers
  {
    if n > 0 {
      DepthUpTo(ops, layerOf, layers, n - 1);
      LevelIsLeast(ops, layerOf, n - 1);
    }
  }

  /** The levels themselves are such a layering, so the minimum is reached. */
  lemma LevelsRespect(ops: seq<Line>)
    requires Gates(ops)
    ensures var levels := seq(|ops|, i requires 0 <= i < |ops| => Level(ops, i));
            Respects(ops, levels) && forall i :: 0 <= i < |ops| ==> levels[i] < Depth(ops, |ops|)
  {
    forall i, j, q | 0 <= i < j < |ops| && Touches(ops[i], q) && Touches(ops[j], q)
      ensures Level(ops, i) < Level(ops, j)
    {
      LevelsIncrease(ops, i, j, q);
    }
    forall i | 0 <= i < |ops| ensures Level(ops, i) < Depth(ops, |ops|) {
      LastIsLatest(ops, |ops|, i, SomeQubit(ops[i]));
      LastBelowDepth(ops, |ops|, SomeQubit(ops[i]));
    }
  }

  ghost predicate OnlyU3(ops: seq<Line>) {
    forall i :: 0 <= i < |ops| ==> ops[i].U3?
  }

  lemma {:induction false} LastCountsGates(ops: seq<Line>, n: nat, q: Qubit)
    requires OnlyU3(ops) && n <= |ops|
    ensures LastLevel(ops, n, q) == |Proj(q, ops[..n])| - 1
  {
    if n > 0 {
      LastCountsGates(ops, n - 1, q);
      assert ops[..n] == ops[..n - 1] + [ops[n - 1]];
      ProjAppend(q, ops[..n - 1], [ops[n - 1]]);
    }
  }

  /** Single-qubit blocks need exactly as many layers as the busiest qubit has gates. */
  lemma U3DepthIsBusiestQubit(ops: seq<Line>)
    requires OnlyU3(ops)
    ensures forall q :: |Proj(q, ops)| <= Depth(ops, |ops|)
    ensures ops != [] ==> exists q :: |Proj(q, ops)| == Depth(ops, |ops|)
  {
    assert ops[..|ops|] == ops;
    forall q ensures |Proj(q, ops)| <= Depth(ops, |ops|) {
      LastCountsGates(ops, |ops|, q);
      LastBelowDepth(ops, |ops|, q);
    }
    if ops != [] {
      var i := DeepestGate(ops, |ops|);
      var q := ops[i].q;
      LastIsLatest(ops, |ops|, i, q);
      LastCountsGates(ops, |ops|, q);
    }
  }

  lemma {:induction false} DeepestGate(ops: seq<Line>, n: nat) returns (i: nat)
    requires 0 < n <= |ops|
    ensures i < n && Level(ops, i) + 1 == Depth(ops, n)
  {
    if n > 1 && Depth(ops, n) == Depth(ops, n - 1) {
      i := DeepestGate(ops, n - 1);
    } else {
      i := n - 1;
    }
  }

  // --- The layering loop ---

  function Flat(layers: seq<seq<Line>>): seq<Line> {
    if layers == [] then [] else layers[0] + Flat(layers[1..])
  }

  ghost predicate Disjoint(layer: seq<Line>) {
    forall i, j :: 0 <= i < j < |layer| ==> Independent(layer[i], layer[j])
  }

  lemma {:induction false} FlatUntouched(q: Qubit, layers: seq<seq<Line>>)
    requires forall k :: 0 <= k < |layers| ==> Proj(q, layers[k]) == []
    ensures Proj(q, Flat(layers)) == []
  {
    if layers != [] {
      FlatUntouched(q, layers[1..]);
      ProjAppend(q, layers[0], Flat(layers[1..]));
    }
  }

  lemma {:induction false} FlatSplit(layers: seq<seq<Line>>, k: nat)
    requires k < |layers|
    ensures Flat(layers) == Flat(layers[..k]) + layers[k] + Flat(layers[k + 1..])
  {
    if k == 0 {
      assert Flat(layers[..0]) == [];
    } else {
      FlatSplit(layers[1..], k - 1);
      assert layers[1..][..k - 1] == layers[..k][1..];
      assert layers[1..][k..] == layers[k + 1..];
    }
  }

  /** Adding a gate to layer `k`, past which its qubits are unused, puts it last on them. */
  lemma AddToLayer(layers: seq<seq<Line>>, k: nat, g: Line, q: Qubit)
    requires k < |layers|
    requires Touches(g, q) ==> forall l :: k < l < |layers| ==> Proj(q, layers[l]) == []
    ensures Proj(q, Flat(layers[k := layers[k] + [g]])) == Proj(q, Flat(layers)) + Proj(q, [g])
  {
    var next := layers[k := layers[k] + [g]];
    var front, back := Flat(layers[..k]) + layers[k], Flat(layers[k + 1..]);
    FlatSplit(layers, k);
    FlatSplit(next, k);
    assert next[..k] == layers[..k] && next[k + 1..] == layers[k + 1..];
    assert Flat(next) == front + [g] + back;
    ProjAppend(q, front, back);
    ProjAppend(q, front + [g], back);
    ProjAppend(q, front, [g]);
    if Touches(g, q) {
      FlatUntouched(q, layers[k + 1..]);
    }
  }

  lemma {:induction false} FlatWithEmpty(layers: seq<seq<Line>>)
    ensures Flat(layers + [[]]) == Flat(layers)
  {
    if layers == [] {
      assert Flat(layers + [[]]) == [] + Flat(([[]])[1..]);
    } else {
      assert (layers + [[]])[1..] == layers[1..] + [[]];
      FlatWithEmpty(layers[1..]);
    }
  }

  function LastLayer(last: map<Qubit, int>, q: Qubit): int {
    if q in last then last[q] else -1
  }

  function QubitsOf(g: Line): (r: set<Qubit>)
    requires !g.Other?
    ensures forall q :: q in r <==> Touches(g, q)
  {
    match g
    case U3(_, _, _, q) => {q}
    case Cz(q0, q1) => {q0, q1}
  }

  function StartLayer(last: map<Qubit, int>, g: Line): int
    requires !g.Other?
  {
    match g
    case U3(_, _, _, q) => LastLayer(last, q) + 1
    case Cz(q0, q1) => Max(LastLayer(last, q0), LastLayer(last, q1)) + 1
  }

  /** `used[k]` are the qubits of layer `k`, and none of them is used later than its last gate's level. */
  ghost predicate Uses(ops: seq<Line>, n: nat, layers: seq<seq<Line>>, used: seq<set<Qubit>>)
    requires n <= |ops|
  {
    && |layers| == |used|
    && (forall k, q :: 0 <= k < |used| ==> (q in used[k] <==> Proj(q, layers[k]) != []))
    && (forall k, q :: 0 <= k < |used| && q in used[k] ==> k <= LastLevel(ops, n, q))
  }

  ghost predicate GoodLayers(ops: seq<Line>, layers: seq<seq<Line>>) {
    && (forall k :: 0 <= k < |layers| ==> layers[k] != [] && Disjoint(layers[k]))
    && (forall k, i :: 0 <= k < |layers| && 0 <= i < |layers[k]| ==> layers[k][i] in ops)
  }

  lemma StartIsLevel(ops: seq<Line>, i: nat, last: map<Qubit, int>)
    requires Gates(ops) && i < |ops| && forall q :: LastLayer(last, q) == LastLevel(ops, i, q)
    ensures StartLayer(last, ops[i]) == Level(ops, i) <= Depth(ops, i)
  {
    match ops[i]
    case U3(_, _, _, q) => LastBelowDepth(ops, i, q);
    case Cz(q0, q1) =>
      LastBelowDepth(ops, i, q0);
      LastBelowDepth(ops, i, q1);
  }

  /** The search for a free layer ends where it starts. */
  lemma StartIsFree(ops: seq<Line>, i: nat, layers: seq<seq<Line>>, used: seq<set<Qubit>>)
    requires Gates(ops) && i < |ops| && Uses(ops, i, layers, used)
    ensures forall k :: Level(ops, i) <= k < |used| ==> used[k] * QubitsOf(ops[i]) == {}
  {
    forall k, q | Level(ops, i) <= k < |used| && q in QubitsOf(ops[i]) ensures q !in used[k] {
      LastBelowLevel(ops, i, q);
    }
  }

  lemma PlaceKeepsOrder(ops: seq<Line>, i: nat, layers: seq<seq<Line>>, used: seq<set<Qubit>>)
    requires Gates(ops) && i < |ops| && Uses(ops, i, layers, used) && Level(ops, i) < |layers|
    requires SameOnEveryQubit(Flat(layers), ops[..i])
    ensures var k := Level(ops, i); SameOnEveryQubit(Flat(layers[k := layers[k] + [ops[i]]]), ops[..i + 1])
  {
    var k, g := Level(ops, i), ops[i];
    StartIsFree(ops, i, layers, used);
    var placed := layers[k := layers[k] + [g]];
    forall q ensures Proj(q, Flat(placed)) == Proj(q, ops[..i + 1]) {
      assert Proj(q, Flat(layers)) == Proj(q, ops[..i]);
      assert Touches(g, q) ==> q in QubitsOf(g);
      assert Touches(g, q) ==> forall l :: k < l < |layers| ==> q !in used[l];
      AddToLayer(layers, k, g, q);
      assert ops[..i + 1] == ops[..i] + [g];
      ProjAppend(q, ops[..i], [g]);
    }
  }

  lemma PlaceKeepsUses(ops: seq<Line>, i: nat, layers: seq<seq<Line>>, used: seq<set<Qubit>>)
    requires Gates(ops) && i < |ops| && Uses(ops, i, layers, used) && Level(ops, i) < |layers|
    ensures var k, g := Level(ops, i), ops[i];
            Uses(ops, i + 1, layers[k := layers[k] + [g]], used[k := used[k] + QubitsOf(g)])
  {
    var k, g := Level(ops, i), ops[i];
    var placed, marked := layers[k := layers[k] + [g]], used[k := used[k] + QubitsOf(g)];
    forall l, q | 0 <= l < |marked|
      ensures q in marked[l] <==> Proj(q, placed[l]) != []
      ensures q in marked[l] ==> l <= LastLevel(ops, i + 1, q)
    {
      ProjAppend(q, layers[k], [g]);
      assert Proj(q, [g]) == if Touches(g, q) then [g] else [];
      if Touches(g, q) {
        LastBelowLevel(ops, i, q);
      }
    }
  }

  lemma PlaceKeepsDisjoint(ops: seq<Line>, i: nat, layers: seq<seq<Line>>, used: seq<set<Qubit>>)
    requires Gates(ops) && i < |ops| && Uses(ops, i, layers, used) && Level(ops, i) < |layers|
    requires Disjoint(layers[Level(ops, i)])
    ensures Disjoint(layers[Level(ops, i)] + [ops[i]])
  {
    var layer, g := layers[Level(ops, i)], ops[i];
    StartIsFree(ops, i, layers, used);
    forall a | 0 <= a < |layer| ensures Independent(layer[a], g) {
      forall q | Touches(layer[a], q) ensures !Touches(g, q) {
        ProjUntouched(q, layer);
        assert q in used[Level(ops, i)];
      }
    }
  }

  /** The inner search loop: the first layer from `start` on that uses none of the qubits. */
  method FindLayer(used: seq<set<Qubit>>, start: nat, qubits: set<Qubit>) returns (idx: nat)
    requires start <= |used|
    ensures start <= idx <= |used|
    ensures forall k :: start <= k < idx ==> used[k] * qubits != {}
    ensures idx < |used| ==> used[idx] * qubits == {}
  {
    idx := start;
    while idx < |used| && used[idx] * qubits != {}
      invariant start <= idx <= |used|
      invariant forall k :: start <= k < idx ==> used[k] * qubits != {}
    {
      idx := idx + 1;
    }
  }

  /** The layering both emitters share; a single-qubit gate is the one-qubit case. */
  method LayerGates(ops: seq<Line>) returns (layers: seq<seq<Line>>)
    requires Gates(ops)
    ensures |layers| == Depth(ops, |ops|)
    ensures GoodLayers(ops, layers)
    ensures SameOnEveryQubit(Flat(layers), ops)
  {
    layers := [];
    var used: seq<set<Qubit>> := [];
    var last: map<Qubit, int> := map[];
    for i := 0 to |ops|
      invariant |layers| == Depth(ops, i)
      invariant forall q :: LastLayer(last, q) == LastLevel(ops, i, q)
      invariant Uses(ops, i, layers, used)
      invariant GoodLayers(ops, layers)
      invariant SameOnEveryQubit(Flat(layers), ops[..i])
    {
      var op := ops[i];
      var qubits := QubitsOf(op);
      StartIsLevel(ops, i, last);
      var start := StartLayer(last, op);
      var idx := FindLayer(used, start, qubits);
      StartIsFree(ops, i, layers, used);
      assert start < |used| ==> used[start] * qubits == {};
      assert idx == start;
      if idx == |layers| {
        FlatWithEmpty(layers);
        layers := layers + [[]];
        used := used + [{}];
      }
      PlaceKeepsOrder(ops, i, layers, used);
      PlaceKeepsUses(ops, i, layers, used);
      PlaceKeepsDisjoint(ops, i, layers, used);
      layers := layers[idx := layers[idx] + [op]];
      used := used[idx := used[idx] + qubits];
      last := match op case U3(_, _, _, q) => last[q := idx] case Cz(q0, q1) => last[q0 := idx][q1 := idx];
    }
    assert ops[..|ops|] == ops;
  }
}
