/** The grid-distance rule between CZ pairs of one stage. */
module Separation {
  import opened Basics
  import opened Addr
  import opened Arch

  /** Where each qubit is. */
  type Config = map<u32, LocationAddr>

  const PAIR_SEPARATION_MIN_GRID_DISTANCE := 2

  datatype GridPoint = GridPoint(zone: u32, x: u32, y: u32)

  function GridIndex(spec: ArchSpec, loc: LocationAddr): Option<GridPoint> {
    if loc.wordId >= |spec.words| || loc.siteId >= |spec.words[loc.wordId].sites| then None
    else
      var site := spec.words[loc.wordId].sites[loc.siteId];
      Some(GridPoint(loc.zoneId, site.0, site.1))
  }

  function QubitPoint(spec: ArchSpec, config: Config, q: u32): Option<GridPoint> {
    if q in config then GridIndex(spec, config[q]) else None
  }

  function AbsDiff(a: int, b: int): int {
    if a < b then b - a else a - b
  }

  predicate AtomsApart(a: GridPoint, b: GridPoint) {
    a.zone != b.zone
    || AbsDiff(a.x, b.x) >= PAIR_SEPARATION_MIN_GRID_DISTANCE
    || AbsDiff(a.y, b.y) >= PAIR_SEPARATION_MIN_GRID_DISTANCE
  }

  predicate PairResolves(spec: ArchSpec, config: Config, p: (u32, u32)) {
    QubitPoint(spec, config, p.0).Some? && QubitPoint(spec, config, p.1).Some?
  }

  /** Every atom of `p` is apart from every atom of `r`. */
  predicate PairsApart(spec: ArchSpec, config: Config, p: (u32, u32), r: (u32, u32))
    requires PairResolves(spec, config, p) && PairResolves(spec, config, r)
  {
    var pa, pb := QubitPoint(spec, config, p.0).value, QubitPoint(spec, config, p.1).value;
    var ra, rb := QubitPoint(spec, config, r.0).value, QubitPoint(spec, config, r.1).value;
    AtomsApart(pa, ra) && AtomsApart(pa, rb) && AtomsApart(pb, ra) && AtomsApart(pb, rb)
  }

  ghost predicate Separated(spec: ArchSpec, config: Config, pairs: seq<(u32, u32)>) {
    |pairs| < 2
    || (&& (forall i :: 0 <= i < |pairs| ==> PairResolves(spec, config, pairs[i]))
        && (forall i, j :: 0 <= i < j < |pairs| ==> PairsApart(spec, config, pairs[i], pairs[j])))
  }

  method PairsGridSeparated(spec: ArchSpec, config: Config, pairs: seq<(u32, u32)>) returns (ok: bool)
    ensures ok <==> Separated(spec, config, pairs)
  {
    if |pairs| < 2 {
      return true;
    }
    var grids: seq<(GridPoint, GridPoint)> := [];
    for i := 0 to |pairs|
      invariant |grids| == i
      invariant forall k :: 0 <= k < i ==> PairResolves(spec, config, pairs[k])
      invariant forall k :: 0 <= k < i ==>
                  grids[k] == (QubitPoint(spec, config, pairs[k].0).value, QubitPoint(spec, config, pairs[k].1).value)
    {
      var ga := QubitPoint(spec, config, pairs[i].0);
      if ga.None? {
        return false;
      }
      var gb := QubitPoint(spec, config, pairs[i].1);
      if gb.None? {
        return false;
      }
      grids := grids + [(ga.value, gb.value)];
    }
    for i := 0 to |grids|
      invariant forall k, j :: 0 <= k < i && k < j < |pairs| ==> PairsApart(spec, config, pairs[k], pairs[j])
    {
      for j := i + 1 to |grids|
        invariant forall k :: i < k < j ==> PairsApart(spec, config, pairs[i], pairs[k])
      {
        var (pa, pb) := grids[i];
        var (ra, rb) := grids[j];
        if !AtomsApart(pa, ra) || !AtomsApart(pa, rb) || !AtomsApart(pb, ra) || !AtomsApart(pb, rb) {
          assert !PairsApart(spec, config, pairs[i], pairs[j]);
          return false;
        }
      }
    }
    return true;
  }

  /** Accepted pairs never share a qubit. */
  lemma SeparatedPairsAreDisjoint(spec: ArchSpec, config: Config, pairs: seq<(u32, u32)>)
    requires Separated(spec, config, pairs)
    ensures forall i, j :: 0 <= i < j < |pairs| ==> {pairs[i].0, pairs[i].1} !! {pairs[j].0, pairs[j].1}
  {
    forall i, j | 0 <= i < j < |pairs| ensures {pairs[i].0, pairs[i].1} !! {pairs[j].0, pairs[j].1} {
      assert PairsApart(spec, config, pairs[i], pairs[j]);
    }
  }

  // --- Order and orientation ---

  /** Each pair of `b` is a pair of `a`, possibly turned around, and none is used twice. */
  ghost predicate Selects(a: seq<(u32, u32)>, b: seq<(u32, u32)>, from: seq<int>) {
    && |from| == |b|
    && (forall k :: 0 <= k < |b| ==> 0 <= from[k] < |a| && (b[k] == a[from[k]] || (b[k].1, b[k].0) == a[from[k]]))
    && (forall k, l :: 0 <= k < l < |b| ==> from[k] != from[l])
  }

  /** Any selection of accepted pairs, in any order and orientation, is accepted. */
  lemma SeparationIsHereditary(spec: ArchSpec, config: Config, a: seq<(u32, u32)>, b: seq<(u32, u32)>, from: seq<int>)
    requires Separated(spec, config, a) && Selects(a, b, from)
    ensures Separated(spec, config, b)
  {
    if |b| >= 2 {
      assert from[0] != from[1];
      forall k | 0 <= k < |b| ensures PairResolves(spec, config, b[k]) {
        assert PairResolves(spec, config, a[from[k]]);
      }
      forall k, l | 0 <= k < l < |b| ensures PairsApart(spec, config, b[k], b[l]) {
        assert PairsApart(spec, config, a[from[k]], a[from[l]]) by {
          EitherOrder(spec, config, a, from[k], from[l]);
        }
        Turning(spec, config, a[from[k]], a[from[l]], b[k], b[l]);
      }
    }
  }

  lemma EitherOrder(spec: ArchSpec, config: Config, pairs: seq<(u32, u32)>, i: int, j: int)
    requires Separated(spec, config, pairs) && 0 <= i < |pairs| && 0 <= j < |pairs| && i != j
    ensures PairResolves(spec, config, pairs[i]) && PairResolves(spec, config, pairs[j])
    ensures PairsApart(spec, config, pairs[i], pairs[j])
  {
    if i < j {
      assert PairsApart(spec, config, pairs[i], pairs[j]);
    } else {
      assert PairsApart(spec, config, pairs[j], pairs[i]);
    }
  }

  lemma Turning(spec: ArchSpec, config: Config, p: (u32, u32), r: (u32, u32), p': (u32, u32), r': (u32, u32))
    requires PairResolves(spec, config, p) && PairResolves(spec, config, r) && PairsApart(spec, config, p, r)
    requires p' == p || (p'.1, p'.0) == p
    requires r' == r || (r'.1, r'.0) == r
    ensures PairResolves(spec, config, p') && PairResolves(spec, config, r') && PairsApart(spec, config, p', r')
  {
  }

  /** Acceptance depends neither on the order of the pairs nor on which qubit of a
      pair is written first. */
  lemma SeparationIgnoresOrder(
    spec: ArchSpec, config: Config, a: seq<(u32, u32)>, b: seq<(u32, u32)>, there: seq<int>, back: seq<int>)
    requires Selects(a, b, there) && Selects(b, a, back)
    ensures Separated(spec, config, a) <==> Separated(spec, config, b)
  {
    if Separated(spec, config, a) {
      SeparationIsHereditary(spec, config, a, b, there);
    }
    if Separated(spec, config, b) {
      SeparationIsHereditary(spec, config, b, a, back);
    }
  }

  // --- Packing ---

  /** The pairs whose first atom lies in zone `zone`, inside a `w` by `h` grid. */
  function FirstAtomIn(spec: ArchSpec, config: Config, pairs: seq<(u32, u32)>, zone: u32, w: nat, h: nat): set<nat> {
    set i: nat | i < |pairs| && InBox(QubitPoint(spec, config, pairs[i].0), zone, w, h)
  }

  predicate InBox(g: Option<GridPoint>, zone: u32, w: nat, h: nat) {
    g.Some? && g.value.zone == zone && g.value.x < w && g.value.y < h
  }

  lemma {:induction false} Pigeonhole(s: set<nat>, f: map<nat, int>, n: nat)
    requires s <= f.Keys
    requires forall i :: i in s ==> 0 <= f[i] < n
    requires forall i, j :: i in s && j in s && f[i] == f[j] ==> i == j
    ensures |s| <= n
  {
    if n == 0 {
      assert s == {};
    } else if k :| k in s && f[k] == n - 1 {
      Pigeonhole(s - {k}, f, n - 1);
      assert s == (s - {k}) + {k};
    } else {
      Pigeonhole(s, f, n - 1);
    }
  }

  /** The 2x2 block of a grid point, numbered row by row. */
  function Block(g: GridPoint, w: nat): int {
    g.y / 2 * ((w + 1) / 2) + g.x / 2
  }

  lemma BlocksDiffer(a: GridPoint, b: GridPoint, w: nat)
    requires a.zone == b.zone && a.x < w && b.x < w && AtomsApart(a, b)
    ensures Block(a, w) != Block(b, w)
  {
    Split(a.y / 2, a.x / 2, (w + 1) / 2);
    Split(b.y / 2, b.x / 2, (w + 1) / 2);
  }

  lemma BlockInRange(g: GridPoint, w: nat, h: nat)
    requires g.x < w && g.y < h
    ensures 0 <= Block(g, w) < (w + 1) / 2 * ((h + 1) / 2)
  {
    var row: int, cw: int, ch: int := g.y / 2, (w + 1) / 2, (h + 1) / 2;
    RowFits(row, g.x / 2, cw, ch);
  }

  lemma RowFits(row: int, col: int, cw: int, ch: int)
    requires 0 <= row < ch && 0 <= col < cw
    ensures 0 <= row * cw + col < cw * ch
  {
    assert row * cw + cw == (row + 1) * cw;
    assert (row + 1) * cw <= ch * cw;
    assert row * cw >= 0;
  }

  /** At most one accepted pair starts in each 2x2 block, so a `w` by `h` zone
      holds at most ceil(w/2) * ceil(h/2) of them. */
  lemma PackingBound(spec: ArchSpec, config: Config, pairs: seq<(u32, u32)>, zone: u32, w: nat, h: nat)
    requires Separated(spec, config, pairs)
    ensures |FirstAtomIn(spec, config, pairs, zone, w, h)| <= (w + 1) / 2 * ((h + 1) / 2)
  {
    var s := FirstAtomIn(spec, config, pairs, zone, w, h);
    var f := map i | i in s :: Block(QubitPoint(spec, config, pairs[i].0).value, w);
    forall i | i in s ensures 0 <= f[i] < (w + 1) / 2 * ((h + 1) / 2) {
      BlockInRange(QubitPoint(spec, config, pairs[i].0).value, w, h);
    }
    forall i, j | i in s && j in s && f[i] == f[j] ensures i == j {
      if i != j {
        var a, b := QubitPoint(spec, config, pairs[i].0).value, QubitPoint(spec, config, pairs[j].0).value;
        EitherOrder(spec, config, pairs, i, j);
        BlocksDiffer(a, b, w);
      }
    }
    BoundNonNegative(w, h);
    Pigeonhole(s, f, (w + 1) / 2 * ((h + 1) / 2));
  }

  lemma BoundNonNegative(w: nat, h: nat)
    ensures (w + 1) / 2 * ((h + 1) / 2) >= 0
  {
  }

  /** Two steps in one direction are enough, and one is not. */
  lemma ApartMeans(a: GridPoint, b: GridPoint)
    ensures AtomsApart(a, b)
       <==> a.zone != b.zone || a.x >= b.x + 2 || b.x >= a.x + 2 || a.y >= b.y + 2 || b.y >= a.y + 2
  {
  }

  // --- The bound is reached ---

  /** One word with a site on every second column and row. */
  function FullSpec(cw: nat, ch: nat): ArchSpec
    requires cw > 0 && 2 * cw < 0x1_0000_0000 && 2 * ch < 0x1_0000_0000
  {
    ArchSpec([Word(seq(cw * ch, i requires 0 <= i < cw * ch => Spot(cw, ch, i)))], [], [])
  }

  function Spot(cw: nat, ch: nat, i: nat): (u32, u32)
    requires i < cw * ch && cw > 0 && 2 * cw < 0x1_0000_0000 && 2 * ch < 0x1_0000_0000
  {
    RowBelow(cw, ch, i);
    (2 * (i % cw), 2 * (i / cw))
  }

  lemma RowBelow(cw: nat, ch: nat, i: nat)
    requires i < cw * ch && cw > 0
    ensures i / cw < ch && i % cw < cw && i == i / cw * cw + i % cw
  {
    if i / cw >= ch {
      AtLeastRows(i / cw, ch, cw);
    }
  }

  lemma AtLeastRows(row: nat, ch: nat, cw: nat)
    requires row >= ch
    ensures row * cw >= ch * cw
  {
  }

  /** Pair `i` sits on spot `i`, its first qubit in zone 0 and its second in zone 1. */
  function FullConfig(n: nat): Config
    requires 2 * n < 0x1_0000_0000
  {
    map q: u32 | 0 <= q < 2 * n :: LocationAddr(q % 2, 0, q / 2)
  }

  function FullPairs(n: nat): (r: seq<(u32, u32)>)
    requires 2 * n < 0x1_0000_0000
    ensures |r| == n && forall i :: 0 <= i < n ==> r[i] == (2 * i, 2 * i + 1)
  {
    seq(n, i requires 0 <= i < n => (2 * i, 2 * i + 1))
  }

  lemma SpotsApart(cw: nat, ch: nat, i: nat, j: nat, zone: u32)
    requires i < j < cw * ch && cw > 0 && 2 * cw < 0x1_0000_0000 && 2 * ch < 0x1_0000_0000
    ensures var (xi, yi) := Spot(cw, ch, i);
            var (xj, yj) := Spot(cw, ch, j);
            AtomsApart(GridPoint(zone, xi, yi), GridPoint(zone, xj, yj))
  {
    RowBelow(cw, ch, i);
    RowBelow(cw, ch, j);
    if i / cw == j / cw && i % cw == j % cw {
      assert false;
    }
  }

  lemma FullPoint(cw: nat, ch: nat, n: nat, q: u32)
    requires cw > 0 && n == cw * ch && 2 * n < 0x1_0000_0000 && 2 * cw < 0x1_0000_0000 && 2 * ch < 0x1_0000_0000
    requires q < 2 * n
    ensures var (x, y) := Spot(cw, ch, q / 2);
            QubitPoint(FullSpec(cw, ch), FullConfig(n), q) == Some(GridPoint(q % 2, x, y))
  {
  }

  /** For every grid size there are accepted pairs that fill it: as many start in one
      zone as `PackingBound` allows. */
  lemma PackingBoundIsReached(w: nat, h: nat)
    requires 2 * ((w + 1) / 2) < 0x1_0000_0000 && 2 * ((h + 1) / 2) < 0x1_0000_0000
    requires 2 * ((w + 1) / 2 * ((h + 1) / 2)) < 0x1_0000_0000
    ensures exists spec, config, pairs ::
              Separated(spec, config, pairs)
              && |FirstAtomIn(spec, config, pairs, 0, w, h)| == (w + 1) / 2 * ((h + 1) / 2)
  {
    var cw, ch := (w + 1) / 2, (h + 1) / 2;
    var n := cw * ch;
    if w == 0 {
      var spec := ArchSpec([], [], []);
      assert Separated(spec, map[], []) && FirstAtomIn(spec, map[], [], 0, w, h) == {};
      return;
    }
    FullIsSeparated(cw, ch, n);
    FullIsInside(w, h, cw, ch, n);
    assert Separated(FullSpec(cw, ch), FullConfig(n), FullPairs(n))
        && |FirstAtomIn(FullSpec(cw, ch), FullConfig(n), FullPairs(n), 0, w, h)| == n;
  }

  lemma FullIsSeparated(cw: nat, ch: nat, n: nat)
    requires cw > 0 && n == cw * ch && 2 * n < 0x1_0000_0000 && 2 * cw < 0x1_0000_0000 && 2 * ch < 0x1_0000_0000
    ensures Separated(FullSpec(cw, ch), FullConfig(n), FullPairs(n))
  {
    var spec, config, pairs := FullSpec(cw, ch), FullConfig(n), FullPairs(n);
    forall i | 0 <= i < n ensures PairResolves(spec, config, pairs[i]) {
      FullPoint(cw, ch, n, 2 * i);
      FullPoint(cw, ch, n, 2 * i + 1);
    }
    forall i, j | 0 <= i < j < n ensures PairsApart(spec, config, pairs[i], pairs[j]) {
      FullPoint(cw, ch, n, 2 * i);
      FullPoint(cw, ch, n, 2 * i + 1);
      FullPoint(cw, ch, n, 2 * j);
      FullPoint(cw, ch, n, 2 * j + 1);
      SpotsApart(cw, ch, i, j, 0);
      SpotsApart(cw, ch, i, j, 1);
    }
  }

  lemma FullIsInside(w: nat, h: nat, cw: nat, ch: nat, n: nat)
    requires w > 0 && cw == (w + 1) / 2 && ch == (h + 1) / 2 && n == cw * ch
    requires 2 * n < 0x1_0000_0000 && 2 * cw < 0x1_0000_0000 && 2 * ch < 0x1_0000_0000
    ensures |FirstAtomIn(FullSpec(cw, ch), FullConfig(n), FullPairs(n), 0, w, h)| == n
  {
    var inside := FirstAtomIn(FullSpec(cw, ch), FullConfig(n), FullPairs(n), 0, w, h);
    forall i: nat ensures i in inside <==> i < n {
      if i < n {
        FullPoint(cw, ch, n, 2 * i);
        RowBelow(cw, ch, i);
      }
    }
    Initial(inside, n);
  }

  lemma {:induction false} Initial(s: set<nat>, n: nat)
    requires forall i: nat :: i in s <==> i < n
    ensures |s| == n
  {
    if n > 0 {
      Initial(s - {n - 1}, n - 1);
      assert s == s - {n - 1} + {n - 1};
    } else {
      assert s == {};
    }
  }
}
