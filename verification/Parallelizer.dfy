/** Turning blocks of single gates into broadcasts, layer by layer. */
module Parallelizer {
  import opened Circuits
  import opened Layering

  datatype OutLine =
    | Single(line: Line)
    | BroadcastU3(a: string, b: string, c: string, qs: seq<Qubit>)
    | BroadcastCz(controls: seq<Qubit>, targets: seq<Qubit>)

  type Angles = (string, string, string)

  /** One gate per qubit, with common angles. */
  function U3s(k: Angles, qs: seq<Qubit>): (r: seq<Line>)
    ensures |r| == |qs| && forall i :: 0 <= i < |qs| ==> r[i] == U3(k.0, k.1, k.2, qs[i])
  {
    seq(|qs|, i requires 0 <= i < |qs| => U3(k.0, k.1, k.2, qs[i]))
  }

  /** The gates an output line stands for; a broadcast pairs its lists elementwise. */
  function ExpandLine(o: OutLine): seq<Line> {
    match o
    case Single(line) => [line]
    case BroadcastU3(a, b, c, qs) => U3s((a, b, c), qs)
    case BroadcastCz(cs, ts) =>
      var n := if |cs| < |ts| then |cs| else |ts|;
      seq(n, i requires 0 <= i < n => Cz(cs[i], ts[i]))
  }

  function Expand(out: seq<OutLine>): seq<Line> {
    if out == [] then [] else ExpandLine(out[0]) + Expand(out[1..])
  }

  lemma {:induction false} ExpandAppend(a: seq<OutLine>, b: seq<OutLine>)
    ensures Expand(a + b) == Expand(a) + Expand(b)
  {
    if a == [] {
      assert a + b == b;
    } else {
      assert (a + b)[1..] == a[1..] + b;
      ExpandAppend(a[1..], b);
    }
  }

  lemma ExpandOne(o: OutLine)
    ensures Expand([o]) == ExpandLine(o)
  {
    assert [o][1..] == [];
  }

  /** A broadcast is only used for several gates. */
  predicate Compact(o: OutLine) {
    match o
    case Single(_) => true
    case BroadcastU3(_, _, _, qs) => |qs| >= 2
    case BroadcastCz(cs, ts) => |cs| == |ts| >= 2
  }

  // --- CZ blocks ---

  ghost predicate OnlyCz(ops: seq<Line>) {
    forall i :: 0 <= i < |ops| ==> ops[i].Cz?
  }

  function CzLine(layer: seq<Line>): (o: OutLine)
    requires layer != [] && OnlyCz(layer)
    ensures ExpandLine(o) == layer && Compact(o)
  {
    if |layer| == 1 then Single(Cz(layer[0].q0, layer[0].q1))
    else BroadcastCz(seq(|layer|, i requires 0 <= i < |layer| => layer[i].q0),
                     seq(|layer|, i requires 0 <= i < |layer| => layer[i].q1))
  }

  /** One line per layer, the gates of a line on different qubits, broadcast when there
      are several, and every qubit's gates in order. `Depth` is the least number of lines
      this can take. */
  ghost predicate CzEmission(ops: seq<Line>, out: seq<OutLine>) {
    && |out| == Depth(ops, |ops|)
    && (forall i :: 0 <= i < |out| ==> Disjoint(ExpandLine(out[i])))
    && (forall i :: 0 <= i < |out| ==> Compact(out[i]))
    && SameOnEveryQubit(Expand(out), ops)
  }

  method EmitCzLayers(ops: seq<Line>) returns (out: seq<OutLine>)
    requires OnlyCz(ops)
    ensures CzEmission(ops, out)
  {
    var layers := LayerGates(ops);
    out := [];
    for k := 0 to |layers|
      invariant |out| == k
      invariant forall i :: 0 <= i < k ==> Disjoint(ExpandLine(out[i]))
      invariant forall i :: 0 <= i < k ==> Compact(out[i])
      invariant Expand(out) == Flat(layers[..k])
    {
      OpsKeepKind(ops, layers, k);
      var line := CzLine(layers[k]);
      ExpandAppend(out, [line]);
      ExpandOne(line);
      FlatSnoc(layers, k);
      out := out + [line];
    }
    assert layers[..|layers|] == layers;
  }

  lemma OpsKeepKind(ops: seq<Line>, layers: seq<seq<Line>>, k: nat)
    requires GoodLayers(ops, layers) && k < |layers|
    ensures OnlyCz(ops) ==> OnlyCz(layers[k])
    ensures OnlyU3(ops) ==> OnlyU3(layers[k])
  {
  }

  lemma FlatSnoc(layers: seq<seq<Line>>, k: nat)
    requires k < |layers|
    ensures Flat(layers[..k + 1]) == Flat(layers[..k]) + layers[k]
  {
    FlatSplit(layers[..k + 1], k);
    assert layers[..k + 1][..k] == layers[..k];
    assert layers[..k + 1][k + 1..] == [];
  }

  // --- U3 blocks ---

  /** The gates of the groups, group by group. */
  function Grouped(order: seq<Angles>, groups: map<Angles, seq<Qubit>>): seq<Line>
    requires forall i :: 0 <= i < |order| ==> order[i] in groups
  {
    if order == [] then [] else U3s(order[0], groups[order[0]]) + Grouped(order[1..], groups)
  }

  ghost predicate Distinct(order: seq<Angles>) {
    forall i, j :: 0 <= i < j < |order| ==> order[i] != order[j]
  }

  lemma {:induction false} GroupedSame(order: seq<Angles>, g1: map<Angles, seq<Qubit>>, g2: map<Angles, seq<Qubit>>)
    requires forall i :: 0 <= i < |order| ==> order[i] in g1 && order[i] in g2 && g1[order[i]] == g2[order[i]]
    ensures Grouped(order, g1) == Grouped(order, g2)
  {
    if order != [] {
      GroupedSame(order[1..], g1, g2);
    }
  }

  /** Adding a qubit to a group inserts one gate somewhere. */
  lemma {:induction false} GroupInsert(order: seq<Angles>, groups: map<Angles, seq<Qubit>>, k: Angles, q: Qubit)
    returns (x: seq<Line>, y: seq<Line>)
    requires Distinct(order) && k in order
    requires forall i :: 0 <= i < |order| ==> order[i] in groups
    ensures Grouped(order, groups) == x + y
    ensures Grouped(order, groups[k := groups[k] + [q]]) == x + [U3(k.0, k.1, k.2, q)] + y
  {
    var next := groups[k := groups[k] + [q]];
    var rest := Grouped(order[1..], groups);
    if order[0] == k {
      GroupedSame(order[1..], groups, next);
      x, y := U3s(k, groups[k]), rest;
      assert U3s(k, next[k]) == x + [U3(k.0, k.1, k.2, q)];
    } else {
      var x', y' := GroupInsert(order[1..], groups, k, q);
      x, y := U3s(order[0], groups[order[0]]) + x', y';
    }
  }

  lemma {:induction false} GroupedSnoc(order: seq<Angles>, groups: map<Angles, seq<Qubit>>, k: Angles)
    requires k !in groups && forall i :: 0 <= i < |order| ==> order[i] in groups
    ensures Grouped(order + [k], groups[k := []]) == Grouped(order, groups)
  {
    var next := groups[k := []];
    if order == [] {
      assert (order + [k])[1..] == [];
    } else {
      assert (order + [k])[1..] == order[1..] + [k];
      GroupedSnoc(order[1..], groups, k);
    }
  }

  /** Inserting a gate on a fresh qubit shows only on that qubit. */
  lemma InsertProj(x: seq<Line>, y: seq<Line>, g: Line, q: Qubit)
    requires Touches(g, q) ==> Proj(q, x + y) == []
    ensures Proj(q, x + [g] + y) == Proj(q, x + y) + Proj(q, [g])
  {
    ProjAppend(q, x, y);
    ProjAppend(q, x + [g], y);
    ProjAppend(q, x, [g]);
  }

  /** Collecting the gates of one layer by angles, in order of first appearance. */
  method GroupLayer(layer: seq<Line>) returns (order: seq<Angles>, groups: map<Angles, seq<Qubit>>)
    requires OnlyU3(layer) && Disjoint(layer)
    ensures Distinct(order) && forall i :: 0 <= i < |order| ==> order[i] in groups && groups[order[i]] != []
    ensures SameOnEveryQubit(Grouped(order, groups), layer)
  {
    order, groups := [], map[];
    for i := 0 to |layer|
      invariant Distinct(order) && forall k :: k in order <==> k in groups
      invariant forall k :: k in groups ==> groups[k] != []
      invariant SameOnEveryQubit(Grouped(order, groups), layer[..i])
    {
      var op := layer[i];
      var key := (op.a, op.b, op.c);
      if key !in groups {
        GroupedSnoc(order, groups, key);
        groups := groups[key := []];
        order := order + [key];
      }
      ghost var x, y := GroupInsert(order, groups, key, op.q);
      LayerInsert(layer, i, x, y);
      groups := groups[key := groups[key] + [op.q]];
    }
    assert layer[..|layer|] == layer;
  }

  lemma LayerInsert(layer: seq<Line>, i: nat, x: seq<Line>, y: seq<Line>)
    requires Disjoint(layer) && i < |layer| && SameOnEveryQubit(x + y, layer[..i])
    ensures SameOnEveryQubit(x + [layer[i]] + y, layer[..i + 1])
  {
    var g := layer[i];
    forall q ensures Proj(q, x + [g] + y) == Proj(q, layer[..i + 1]) {
      assert Proj(q, x + y) == Proj(q, layer[..i]);
      ProjUntouched(q, layer[..i]);
      assert Touches(g, q) ==> forall k :: 0 <= k < i ==> Independent(layer[k], g);
      InsertProj(x, y, g, q);
      assert layer[..i + 1] == layer[..i] + [g];
      ProjAppend(q, layer[..i], [g]);
    }
  }

  /** The angles of a single-qubit line. */
  function AnglesOf(o: OutLine): Angles {
    match o
    case Single(U3(a, b, c, _)) => (a, b, c)
    case BroadcastU3(a, b, c, _) => (a, b, c)
    case _ => ("", "", "")
  }

  function U3Line(k: Angles, qs: seq<Qubit>): (o: OutLine)
    ensures ExpandLine(o) == U3s(k, qs) && AnglesOf(o) == k
    ensures qs != [] ==> Compact(o)
  {
    if |qs| == 1 then Single(U3(k.0, k.1, k.2, qs[0])) else BroadcastU3(k.0, k.1, k.2, qs)
  }

  method EmitGroups(order: seq<Angles>, groups: map<Angles, seq<Qubit>>) returns (out: seq<OutLine>)
    requires forall i :: 0 <= i < |order| ==> order[i] in groups && groups[order[i]] != []
    ensures Expand(out) == Grouped(order, groups)
    ensures |out| == |order| && forall i :: 0 <= i < |out| ==> AnglesOf(out[i]) == order[i]
    ensures forall i :: 0 <= i < |out| ==> Compact(out[i])
  {
    out := [];
    for i := 0 to |order|
      invariant |out| == i && forall k :: 0 <= k < i ==> AnglesOf(out[k]) == order[k]
      invariant forall k :: 0 <= k < i ==> Compact(out[k])
      invariant Expand(out) == Grouped(order[..i], groups)
    {
      var line := U3Line(order[i], groups[order[i]]);
      ExpandAppend(out, [line]);
      ExpandOne(line);
      GroupedLast(order, groups, i);
      out := out + [line];
    }
    assert order[..|order|] == order;
  }

  lemma {:induction false} GroupedLast(order: seq<Angles>, groups: map<Angles, seq<Qubit>>, i: nat)
    requires i < |order| && forall i :: 0 <= i < |order| ==> order[i] in groups
    ensures Grouped(order[..i + 1], groups) == Grouped(order[..i], groups) + U3s(order[i], groups[order[i]])
  {
    if i == 0 {
      assert order[..1][1..] == [];
    } else {
      assert order[..i + 1][1..] == order[1..][..i];
      assert order[..i][1..] == order[1..][..i - 1];
      GroupedLast(order[1..], groups, i - 1);
    }
  }

  function Joined(runs: seq<seq<OutLine>>): seq<OutLine> {
    if runs == [] then [] else Joined(runs[..|runs| - 1]) + runs[|runs| - 1]
  }

  /** The lines of one layer: no angles occur twice and no qubit does, and several gates
      of the same angles are broadcast. */
  ghost predicate LayerRun(run: seq<OutLine>) {
    && (forall i :: 0 <= i < |run| ==> Compact(run[i]))
    && (forall i, j :: 0 <= i < j < |run| ==> AnglesOf(run[i]) != AnglesOf(run[j]))
    && (forall q :: |Proj(q, Expand(run))| <= 1)
  }

  /** The output falls into one run of lines per layer, as many as the busiest qubit
      has gates, and keeps every qubit's gates in order. */
  ghost predicate U3Emission(ops: seq<Line>, out: seq<OutLine>) {
    && (exists runs :: out == Joined(runs) && |runs| == Depth(ops, |ops|)
          && forall k :: 0 <= k < |runs| ==> LayerRun(runs[k]))
    && SameOnEveryQubit(Expand(out), ops)
  }

  lemma {:induction false} DisjointOnce(layer: seq<Line>, q: Qubit)
    requires Disjoint(layer)
    ensures |Proj(q, layer)| <= 1
  {
    if layer != [] {
      DisjointOnce(layer[1..], q);
      if Touches(layer[0], q) {
        assert forall i :: 0 < i < |layer| ==> Independent(layer[0], layer[i]);
        ProjUntouched(q, layer[1..]);
      }
    }
  }

  method EmitU3Layers(ops: seq<Line>) returns (out: seq<OutLine>)
    requires OnlyU3(ops)
    ensures U3Emission(ops, out)
  {
    var layers := LayerGates(ops);
    out := [];
    ghost var runs: seq<seq<OutLine>> := [];
    for k := 0 to |layers|
      invariant out == Joined(runs) && |runs| == k && forall l :: 0 <= l < k ==> LayerRun(runs[l])
      invariant SameOnEveryQubit(Expand(out), Flat(layers[..k]))
    {
      OpsKeepKind(ops, layers, k);
      var order, groups := GroupLayer(layers[k]);
      var lines := EmitGroups(order, groups);
      ExpandAppend(out, lines);
      FlatSnoc(layers, k);
      SameAppend(Expand(out), Flat(layers[..k]), Expand(lines), layers[k]);
      forall q ensures |Proj(q, Expand(lines))| <= 1 {
        DisjointOnce(layers[k], q);
        assert Proj(q, Expand(lines)) == Proj(q, layers[k]);
      }
      assert (runs + [lines])[..k] == runs;
      runs := runs + [lines];
      out := out + lines;
    }
    assert layers[..|layers|] == layers;
  }

  lemma SameAppend(a: seq<Line>, a': seq<Line>, b: seq<Line>, b': seq<Line>)
    requires SameOnEveryQubit(a, a') && SameOnEveryQubit(b, b')
    ensures SameOnEveryQubit(a + b, a' + b')
  {
    forall q ensures Proj(q, a + b) == Proj(q, a' + b') {
      ProjAppend(q, a, b);
      ProjAppend(q, a', b');
      assert Proj(q, a) == Proj(q, a') && Proj(q, b) == Proj(q, b');
    }
  }

  // --- Whole files ---

  datatype Kind = NoBlock | U3Block | CzBlock

  ghost predicate Emission(kind: Kind, ops: seq<Line>, out: seq<OutLine>) {
    match kind
    case NoBlock => out == []
    case U3Block => U3Emission(ops, out)
    case CzBlock => CzEmission(ops, out)
  }

  /** The line belongs to the open block, or opens one. */
  predicate Continues(kind: Kind, line: Line) {
    (line.U3? && kind != CzBlock) || (line.Cz? && kind != U3Block)
  }

  /** The gates of a block being collected. */
  ghost predicate OpenBlock(kind: Kind, ops: seq<Line>) {
    match kind
    case NoBlock => ops == []
    case U3Block => ops != [] && OnlyU3(ops)
    case CzBlock => ops != [] && OnlyCz(ops)
  }

  /** What one line does to the open block and the output. */
  ghost predicate Fed(
    kind: Kind, ops: seq<Line>, output: seq<OutLine>, line: Line, ops': seq<Line>, output': seq<OutLine>)
  {
    if Continues(kind, line) then output' == output && ops' == ops + [line]
    else
      && ops' == (if line.Other? then [] else [line])
      && exists emitted :: Emission(kind, ops, emitted)
           && output' == output + emitted + (if line.Other? then [Single(line)] else [])
  }

  /** The pass over the lines: finished output and the block still open. */
  class BlockParallelizer {
    var output: seq<OutLine>
    var blockKind: Kind
    var blockOps: seq<Line>

    ghost predicate Valid()
      reads this
    {
      OpenBlock(blockKind, blockOps)
    }

    /** The lines consumed so far, as the output and the open block stand for them. */
    ghost function Meaning(): seq<Line>
      reads this
    {
      Expand(output) + blockOps
    }

    constructor ()
      ensures Valid() && output == [] && blockOps == []
    {
      output, blockKind, blockOps := [], NoBlock, [];
    }

    /** Closing the block changes nothing for any qubit. */
    method FlushBlock()
      requires Valid()
      modifies this
      ensures Valid() && blockKind == NoBlock
      ensures exists emitted :: Emission(old(blockKind), old(blockOps), emitted) && output == old(output) + emitted
      ensures SameOnEveryQubit(Meaning(), old(Meaning()))
    {
      if blockOps == [] {
        assert Emission(NoBlock, blockOps, []) && output == output + [];
        return;
      }
      var emitted;
      if blockKind == U3Block {
        emitted := EmitU3Layers(blockOps);
      } else {
        emitted := EmitCzLayers(blockOps);
      }
      ExpandAppend(output, emitted);
      SameAppend(Expand(output), Expand(output), Expand(emitted), blockOps);
      output := output + emitted;
      blockKind := NoBlock;
      blockOps := [];
      assert Meaning() == Expand(output);
    }

    /** One turn of the loop over the source lines. */
    method Feed(line: Line)
      requires Valid()
      modifies this
      ensures Valid()
      ensures Fed(old(blockKind), old(blockOps), old(output), line, blockOps, output)
      ensures SameOnEveryQubit(Meaning(), old(Meaning()) + [line])
    {
      ghost var before := Meaning();
      if line.Other? {
        FlushBlock();
        SameAppend(Meaning(), before, [line], [line]);
        assert Meaning() == Expand(output);
        ExpandAppend(output, [Single(line)]);
        ExpandOne(Single(line));
        output := output + [Single(line)];
        assert Meaning() == Expand(output);
        return;
      }
      var kind := if line.U3? then U3Block else CzBlock;
      if blockKind == NoBlock {
        blockKind := kind;
      } else if blockKind != kind {
        FlushBlock();
        blockKind := kind;
      }
      ghost var middle := Expand(output) + blockOps;
      assert SameOnEveryQubit(middle, before);
      SameAppend(middle, before, [line], [line]);
      blockOps := blockOps + [line];
      assert Meaning() == middle + [line];
    }
  }

  // --- Blocks ---

  predicate SameKind(g: Line, h: Line) {
    (g.U3? && h.U3?) || (g.Cz? && h.Cz?)
  }

  /** The maximal runs of gates of one kind; every other line stands alone. */
  function Blocks(lines: seq<Line>): (r: seq<seq<Line>>)
    ensures lines != [] ==> r != []
    ensures forall k :: 0 <= k < |r| ==> r[k] != []
  {
    if lines == [] then []
    else AddLine(Blocks(lines[..|lines| - 1]), lines[|lines| - 1])
  }

  /** A line of the same kind as all lines of the block, or any line on its own. */
  ghost predicate OneKind(block: seq<Line>) {
    || (forall i :: 0 <= i < |block| ==> block[i].U3?)
    || (forall i :: 0 <= i < |block| ==> block[i].Cz?)
    || (|block| == 1 && block[0].Other?)
  }

  /** Neighbouring blocks could not be one. */
  ghost predicate Bounded(b: seq<Line>, c: seq<Line>)
    requires b != [] && c != []
  {
    !(b[0].U3? && c[0].U3?) && !(b[0].Cz? && c[0].Cz?)
  }

  /** The blocks are runs of one kind that cannot be longer; with `BlocksAreTheLines`
      this leaves only one way to cut the lines. */
  lemma {:induction false} BlocksAreMaximal(lines: seq<Line>)
    ensures forall k :: 0 <= k < |Blocks(lines)| ==> OneKind(Blocks(lines)[k])
    ensures forall k :: 0 < k < |Blocks(lines)| ==> Bounded(Blocks(lines)[k - 1], Blocks(lines)[k])
  {
    if lines != [] {
      var init, line := lines[..|lines| - 1], lines[|lines| - 1];
      BlocksAreMaximal(init);
      AddLineKeeps(Blocks(init), line);
    }
  }

  lemma AddLineKeeps(bs: seq<seq<Line>>, line: Line)
    requires forall k :: 0 <= k < |bs| ==> bs[k] != [] && OneKind(bs[k])
    requires forall k :: 0 < k < |bs| ==> Bounded(bs[k - 1], bs[k])
    ensures var next := AddLine(bs, line);
            && (forall k :: 0 <= k < |next| ==> next[k] != [] && OneKind(next[k]))
            && forall k :: 0 < k < |next| ==> Bounded(next[k - 1], next[k])
  {
  }

  function AddLine(bs: seq<seq<Line>>, line: Line): seq<seq<Line>>
    requires forall k :: 0 <= k < |bs| ==> bs[k] != []
  {
    var n := |bs| - 1;
    if bs != [] && SameKind(bs[n][0], line) then bs[..n] + [bs[n] + [line]] else bs + [[line]]
  }

  /** `out` is what the emitters may make of one block. */
  ghost predicate BlockOutput(block: seq<Line>, out: seq<OutLine>)
    requires block != []
  {
    match block[0]
    case U3(_, _, _, _) => U3Emission(block, out)
    case Cz(_, _) => CzEmission(block, out)
    case Other(_) => block == [block[0]] && out == [Single(block[0])]
  }

  /** The output is made block by block, each with the fewest layers its gates allow. */
  ghost predicate MadeOf(blocks: seq<seq<Line>>, parts: seq<seq<OutLine>>, output: seq<OutLine>) {
    && |parts| == |blocks| && output == Joined(parts)
    && forall k :: 0 <= k < |blocks| ==> blocks[k] != [] && BlockOutput(blocks[k], parts[k])
  }

  /** Finished blocks `done` and the gates of the block still open make up `bs`. */
  ghost predicate Split(bs: seq<seq<Line>>, done: seq<seq<Line>>, open: seq<Line>) {
    && (forall k :: 0 <= k < |done| ==> done[k] != [])
    && bs == (if open == [] then done else done + [open])
    && (open == [] && done != [] ==> done[|done| - 1][0].Other?)
  }

  lemma SplitNext(bs: seq<seq<Line>>, done: seq<seq<Line>>, open: seq<Line>, line: Line)
    requires Split(bs, done, open)
    ensures forall k :: 0 <= k < |bs| ==> bs[k] != []
    ensures line.Other? ==> Split(AddLine(bs, line), bs + [[line]], [])
    ensures !line.Other? && (open == [] || SameKind(open[0], line)) ==> Split(AddLine(bs, line), done, open + [line])
    ensures !line.Other? && open != [] && !SameKind(open[0], line) ==> Split(AddLine(bs, line), done + [open], [line])
  {
    if open == [] {
      assert [] + [line] == [line];
    } else {
      assert bs[..|bs| - 1] == done && bs[|bs| - 1] == open;
    }
  }

  lemma BlocksNext(lines: seq<Line>, i: nat)
    requires i < |lines|
    ensures Blocks(lines[..i + 1]) == AddLine(Blocks(lines[..i]), lines[i])
  {
    assert lines[..i + 1][..i] == lines[..i];
  }

  lemma MadeOfNext(
    blocks: seq<seq<Line>>, parts: seq<seq<OutLine>>, output: seq<OutLine>, block: seq<Line>, part: seq<OutLine>)
    requires MadeOf(blocks, parts, output) && block != [] && BlockOutput(block, part)
    ensures MadeOf(blocks + [block], parts + [part], output + part)
  {
    assert (parts + [part])[..|parts|] == parts;
  }

  lemma Progress(bs: seq<seq<Line>>, line: Line, done: seq<seq<Line>>, parts: seq<seq<OutLine>>,
                 kind: Kind, ops: seq<Line>, output: seq<OutLine>, ops': seq<Line>, output': seq<OutLine>)
    returns (done': seq<seq<Line>>, parts': seq<seq<OutLine>>)
    requires OpenBlock(kind, ops) && Split(bs, done, ops) && MadeOf(done, parts, output)
    requires Fed(kind, ops, output, line, ops', output')
    ensures forall k :: 0 <= k < |bs| ==> bs[k] != []
    ensures Split(AddLine(bs, line), done', ops') && MadeOf(done', parts', output')
  {
    SplitNext(bs, done, ops, line);
    done', parts' := done, parts;
    if !Continues(kind, line) {
      var emitted :| Emission(kind, ops, emitted)
                     && output' == output + emitted + (if line.Other? then [Single(line)] else []);
      done', parts' := CloseBlock(bs, done, parts, kind, ops, output, emitted);
      if line.Other? {
        MadeOfNext(done', parts', output + emitted, [line], [Single(line)]);
        done', parts' := done' + [[line]], parts' + [[Single(line)]];
      }
    }
  }

  lemma CloseBlock(bs: seq<seq<Line>>, done: seq<seq<Line>>, parts: seq<seq<OutLine>>,
                   kind: Kind, ops: seq<Line>, output: seq<OutLine>, emitted: seq<OutLine>)
    returns (done': seq<seq<Line>>, parts': seq<seq<OutLine>>)
    requires OpenBlock(kind, ops) && Split(bs, done, ops) && MadeOf(done, parts, output)
    requires Emission(kind, ops, emitted)
    ensures done' == bs && MadeOf(done', parts', output + emitted)
  {
    done', parts' := done, parts;
    if ops != [] {
      MadeOfNext(done, parts, output, ops, emitted);
      done', parts' := done + [ops], parts + [emitted];
    } else {
      assert output + emitted == output;
    }
  }

  lemma {:induction false} BlocksAreTheLines(lines: seq<Line>)
    ensures Flat(Blocks(lines)) == lines
  {
    if lines != [] {
      var init, line := lines[..|lines| - 1], lines[|lines| - 1];
      BlocksAreTheLines(init);
      var bs := Blocks(init);
      var n := |bs| - 1;
      assert lines == init + [line];
      if bs != [] && SameKind(bs[n][0], line) {
        FlatLast(bs[..n], bs[n]);
        FlatLast(bs[..n], bs[n] + [line]);
        assert bs == bs[..n] + [bs[n]];
      } else {
        FlatLast(bs, [line]);
      }
    }
  }

  lemma FlatLast(layers: seq<seq<Line>>, layer: seq<Line>)
    ensures Flat(layers + [layer]) == Flat(layers) + layer
  {
    FlatSnoc(layers + [layer], |layers|);
    assert (layers + [layer])[..|layers|] == layers && (layers + [layer])[..|layers| + 1] == layers + [layer];
  }

  lemma LastOfMade(blocks: seq<seq<Line>>, parts: seq<seq<OutLine>>, output: seq<OutLine>)
    returns (block: seq<Line>, part: seq<OutLine>, before: seq<OutLine>)
    requires blocks != [] && MadeOf(blocks, parts, output)
    ensures |parts| == |blocks| && MadeOf(blocks[..|blocks| - 1], parts[..|blocks| - 1], before)
    ensures output == before + part && blocks == blocks[..|blocks| - 1] + [block]
    ensures block != [] && BlockOutput(block, part)
  {
    var n := |blocks| - 1;
    block, part, before := blocks[n], parts[n], Joined(parts[..n]);
  }

  /** What is made block by block keeps every qubit's lines in order. */
  lemma {:induction false} MadeOfKeepsOrder(blocks: seq<seq<Line>>, parts: seq<seq<OutLine>>, output: seq<OutLine>)
    requires MadeOf(blocks, parts, output)
    ensures SameOnEveryQubit(Expand(output), Flat(blocks))
  {
    if blocks != [] {
      var init := blocks[..|blocks| - 1];
      var block, part, before := LastOfMade(blocks, parts, output);
      MadeOfKeepsOrder(init, parts[..|init|], before);
      ExpandAppend(before, part);
      FlatLast(init, block);
      BlockKeepsOrder(block, part);
      SameAppend(Expand(before), Flat(init), Expand(part), block);
    }
  }

  lemma BlockKeepsOrder(block: seq<Line>, out: seq<OutLine>)
    requires block != [] && BlockOutput(block, out)
    ensures SameOnEveryQubit(Expand(out), block)
  {
    if block[0].Other? {
      ExpandOne(Single(block[0]));
    }
  }

  /** The output, broadcasts expanded, shows every qubit the input's lines in the
      input's order, with every other line kept as a barrier; and it is made block by
      block, each in as few layers as its gates allow. */
  method ParallelizeSquinBlocks(lines: seq<Line>) returns (output: seq<OutLine>)
    ensures SameOnEveryQubit(Expand(output), lines)
    ensures exists parts :: MadeOf(Blocks(lines), parts, output)
  {
    var pass := new BlockParallelizer();
    ghost var done: seq<seq<Line>>, parts: seq<seq<OutLine>>, bs: seq<seq<Line>> := [], [], [];
    assert lines[..0] == [];
    for i := 0 to |lines|
      invariant pass.Valid() && fresh(pass)
      invariant bs == Blocks(lines[..i])
      invariant Split(bs, done, pass.blockOps)
      invariant MadeOf(done, parts, pass.output)
    {
      ghost var kind, ops, out := pass.blockKind, pass.blockOps, pass.output;
      pass.Feed(lines[i]);
      done, parts := Progress(bs, lines[i], done, parts, kind, ops, out, pass.blockOps, pass.output);
      BlocksNext(lines, i);
      bs := AddLine(bs, lines[i]);
    }
    assert lines[..|lines|] == lines;
    ghost var kind, ops, out := pass.blockKind, pass.blockOps, pass.output;
    pass.FlushBlock();
    ghost var emitted :| Emission(kind, ops, emitted) && pass.output == out + emitted;
    done, parts := CloseBlock(bs, done, parts, kind, ops, out, emitted);
    MadeOfKeepsOrder(bs, parts, pass.output);
    BlocksAreTheLines(lines);
    return pass.output;
  }
}
