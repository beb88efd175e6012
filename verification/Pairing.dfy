/** Which qubits a CZ pulse on a zone pairs up. */
module Pairing {
  import opened Basics
  import opened Addr
  import opened Arch
  import opened AtomStates

  // --- Qubits in id order ---

  lemma {:induction false} HasLeast(s: set<u32>, y: u32)
    requires y in s
    ensures exists m :: m in s && forall x :: x in s ==> m <= x
    decreases y
  {
    if z :| z in s && z < y {
      HasLeast(s, z);
    }
  }

  function Least(s: set<u32>): (m: u32)
    requires s != {}
    ensures m in s && forall x :: x in s ==> m <= x
  {
    assert exists m :: m in s && forall x :: x in s ==> m <= x by {
      var y :| y in s;
      HasLeast(s, y);
    }
    var m :| m in s && forall x :: x in s ==> m <= x;
    m
  }

  /** The members of a set in increasing order. */
  function InOrder(s: set<u32>): (r: seq<u32>)
    ensures StrictlyIncreasing(r) && forall x :: x in r <==> x in s
  {
    if s == {} then []
    else [Least(s)] + InOrder(s - {Least(s)})
  }

  // --- The pairing loop ---

  datatype Pairs = Pairs(controls: seq<u32>, targets: seq<u32>, unpaired: seq<u32>, visited: set<u32>)

  const NO_PAIRS := Pairs([], [], [], {})

  /** The qubit on the blockade partner of `q`'s site. */
  function PartnerQubit(spec: ArchSpec, st: AtomState, q: u32): Option<u32>
    requires q in st.qubitToLocations
  {
    match CzPartner(spec, st.qubitToLocations[q])
    case None => None
    case Some(site) => if site in st.locationsToQubit then Some(st.locationsToQubit[site]) else None
  }

  function PairNext(spec: ArchSpec, st: AtomState, zoneId: u32, p: Pairs, q: u32): Pairs
    requires q in st.qubitToLocations
  {
    if q in p.visited then p
    else if st.qubitToLocations[q].zoneId != zoneId then p.(visited := p.visited + {q})
    else
      match PartnerQubit(spec, st, q)
      case None => p.(visited := p.visited + {q}, unpaired := p.unpaired + [q])
      case Some(t) => Pairs(p.controls + [q], p.targets + [t], p.unpaired, p.visited + {q} + {t})
  }

  function PairUp(spec: ArchSpec, st: AtomState, zoneId: u32, qubits: seq<u32>): Pairs
    requires forall q :: q in qubits ==> q in st.qubitToLocations
  {
    if qubits == [] then NO_PAIRS
    else
      var init, q := qubits[..|qubits| - 1], qubits[|qubits| - 1];
      PairNext(spec, st, zoneId, PairUp(spec, st, zoneId, init), q)
  }

  function ZonePairs(spec: ArchSpec, st: AtomState, zoneId: u32): Pairs {
    PairUp(spec, st, zoneId, InOrder(st.qubitToLocations.Keys))
  }

  lemma PairUpSnoc(spec: ArchSpec, st: AtomState, zoneId: u32, qubits: seq<u32>, i: nat)
    requires i < |qubits| && forall q :: q in qubits ==> q in st.qubitToLocations
    ensures PairUp(spec, st, zoneId, qubits[..i + 1])
         == PairNext(spec, st, zoneId, PairUp(spec, st, zoneId, qubits[..i]), qubits[i])
  {
    assert qubits[..i + 1][..i] == qubits[..i];
  }

  method GetQubitPairing(spec: ArchSpec, st: AtomState, zoneId: u32)
    returns (r: Option<(seq<u32>, seq<u32>, seq<u32>)>)
    ensures zoneId >= |spec.zones| ==> r == None
    ensures zoneId < |spec.zones| ==>
              r == Some((ZonePairs(spec, st, zoneId).controls, ZonePairs(spec, st, zoneId).targets,
                         ZonePairs(spec, st, zoneId).unpaired))
  {
    if zoneId >= |spec.zones| {
      return None;
    }
    var controls: seq<u32>, targets: seq<u32>, unpaired: seq<u32> := [], [], [];
    var visited: set<u32> := {};
    var sorted := InOrder(st.qubitToLocations.Keys);
    for i := 0 to |sorted|
      invariant Pairs(controls, targets, unpaired, visited) == PairUp(spec, st, zoneId, sorted[..i])
    {
      var qubit := sorted[i];
      PairUpSnoc(spec, st, zoneId, sorted, i);
      if qubit in visited {
        continue;
      }
      visited := visited + {qubit};
      var loc := st.qubitToLocations[qubit];
      if loc.zoneId != zoneId {
        continue;
      }
      var blockaded := CzPartner(spec, loc);
      if blockaded.None? || blockaded.value !in st.locationsToQubit {
        unpaired := unpaired + [qubit];
        continue;
      }
      var target := st.locationsToQubit[blockaded.value];
      controls := controls + [qubit];
      targets := targets + [target];
      visited := visited + {target};
    }
    assert sorted[..|sorted|] == sorted;
    return Some((controls, targets, unpaired));
  }

  // --- Partition ---

  /** Being partners is mutual, and no word is its own partner. */
  ghost predicate PartnersMatch(pairs: seq<(u32, u32)>) {
    forall w :: PartnerWord(pairs, w).Some?
            ==> PartnerWord(pairs, w).value != w && PartnerWord(pairs, PartnerWord(pairs, w).value) == Some(w)
  }

  ghost predicate ZoneMatches(spec: ArchSpec, zoneId: u32) {
    zoneId < |spec.zones| ==> PartnersMatch(spec.zones[zoneId].entanglingPairs)
  }

  /** The placed qubits of a zone. */
  function InZone(st: AtomState, zoneId: u32): set<u32> {
    set q | q in st.qubitToLocations && st.qubitToLocations[q].zoneId == zoneId
  }

  /** With mutual partner words and maps in sync, being partner qubits is mutual too. */
  lemma PartnerQubitsMutual(spec: ArchSpec, st: AtomState, zoneId: u32, q: u32)
    requires InSync(st) && ZoneMatches(spec, zoneId) && q in InZone(st, zoneId)
    ensures PartnerQubit(spec, st, q).Some? ==>
              var t := PartnerQubit(spec, st, q).value;
              t in InZone(st, zoneId) && t != q && PartnerQubit(spec, st, t) == Some(q)
  {
  }

  /** What holds of the lists on every spec once the qubits `done` are handled. */
  ghost predicate ListedSoFar(spec: ArchSpec, st: AtomState, zoneId: u32, done: seq<u32>, p: Pairs)
    requires forall q :: q in done ==> q in st.qubitToLocations
  {
    && |p.controls| == |p.targets|
    && StrictlyIncreasing(p.controls) && StrictlyIncreasing(p.unpaired)
    && (forall q :: q in p.controls || q in p.unpaired ==> q in done && q in InZone(st, zoneId))
    && (forall q :: q in p.unpaired ==> PartnerQubit(spec, st, q) == None)
    && (forall i :: 0 <= i < |p.controls| ==> PartnerQubit(spec, st, p.controls[i]) == Some(p.targets[i]))
  }

  lemma PairNextLists(spec: ArchSpec, st: AtomState, zoneId: u32, done: seq<u32>, q: u32, p: Pairs)
    requires forall x :: x in done + [q] ==> x in st.qubitToLocations
    requires StrictlyIncreasing(done + [q]) && q in done + [q] && ListedSoFar(spec, st, zoneId, done, p)
    ensures ListedSoFar(spec, st, zoneId, done + [q], PairNext(spec, st, zoneId, p, q))
  {
    assert forall x :: x in done + [q] <==> x in done || x == q;
    AppendLater(done, q, p.controls);
    AppendLater(done, q, p.unpaired);
  }

  lemma {:induction false} PairUpLists(spec: ArchSpec, st: AtomState, zoneId: u32, done: seq<u32>)
    requires StrictlyIncreasing(done) && forall x :: x in done ==> x in st.qubitToLocations
    ensures ListedSoFar(spec, st, zoneId, done, PairUp(spec, st, zoneId, done))
  {
    if done != [] {
      var init, q := done[..|done| - 1], done[|done| - 1];
      assert done == init + [q];
      PairUpLists(spec, st, zoneId, init);
      PairNextLists(spec, st, zoneId, init, q, PairUp(spec, st, zoneId, init));
    }
  }

  lemma AppendLater(done: seq<u32>, q: u32, xs: seq<u32>)
    requires StrictlyIncreasing(done + [q]) && StrictlyIncreasing(xs)
    requires forall x :: x in xs ==> x in done
    ensures StrictlyIncreasing(xs + [q])
  {
    forall k | 0 <= k < |xs| ensures xs[k] < q {
      assert xs[k] in done;
      var i :| 0 <= i < |done| && done[i] == xs[k];
      assert (done + [q])[i] < (done + [q])[|done|];
    }
  }

  /** What the loop has established once it has handled the qubits `done`. */
  ghost predicate PairedSoFar(spec: ArchSpec, st: AtomState, zoneId: u32, done: seq<u32>, p: Pairs)
    requires forall q :: q in done ==> q in st.qubitToLocations
  {
    && ListedSoFar(spec, st, zoneId, done, p)
    && (forall q :: q in done ==> q in p.visited)
    && (forall q :: q in p.visited ==> q in done || q in p.targets)
    && (forall q :: q in p.targets ==> q in p.visited)
    && (forall i :: 0 <= i < |p.controls| ==> p.controls[i] < p.targets[i])
    && (forall q :: q in done && q in InZone(st, zoneId) ==> q in p.controls || q in p.targets || q in p.unpaired)
  }

  lemma PairNextKeeps(spec: ArchSpec, st: AtomState, zoneId: u32, done: seq<u32>, q: u32, p: Pairs)
    requires InSync(st) && ZoneMatches(spec, zoneId)
    requires forall x :: x in done + [q] ==> x in st.qubitToLocations
    requires StrictlyIncreasing(done + [q])
    requires forall x :: x in st.qubitToLocations && x <= q ==> x in done + [q]
    requires PairedSoFar(spec, st, zoneId, done, p)
    ensures PairedSoFar(spec, st, zoneId, done + [q], PairNext(spec, st, zoneId, p, q))
  {
    assert forall x :: x in done + [q] <==> x in done || x == q;
    PairNextLists(spec, st, zoneId, done, q, p);
    if q !in p.visited && q in InZone(st, zoneId) {
      if PartnerQubit(spec, st, q).Some? {
        PartnerIsLater(spec, st, zoneId, done, q, p, PartnerQubit(spec, st, q).value);
      }
    }
  }

  /** An unvisited qubit's partner cannot have been handled before it. */
  lemma PartnerIsLater(spec: ArchSpec, st: AtomState, zoneId: u32, done: seq<u32>, q: u32, p: Pairs, t: u32)
    requires InSync(st) && ZoneMatches(spec, zoneId)
    requires forall x :: x in done + [q] ==> x in st.qubitToLocations
    requires forall x :: x in st.qubitToLocations && x <= q ==> x in done + [q]
    requires PairedSoFar(spec, st, zoneId, done, p)
    requires q !in p.visited && q in InZone(st, zoneId) && PartnerQubit(spec, st, q) == Some(t)
    ensures q < t
  {
    PartnerQubitsMutual(spec, st, zoneId, q);
    forall i | 0 <= i < |p.controls| ensures p.controls[i] != t && p.targets[i] != t {
      assert p.controls[i] in p.controls && p.targets[i] in p.targets;
      PartnerQubitsMutual(spec, st, zoneId, p.controls[i]);
    }
  }

  lemma {:induction false} PairUpKeeps(spec: ArchSpec, st: AtomState, zoneId: u32, done: seq<u32>)
    requires InSync(st) && ZoneMatches(spec, zoneId) && StrictlyIncreasing(done)
    requires forall x :: x in done ==> x in st.qubitToLocations
    requires forall x, y :: x in st.qubitToLocations && y in done && x <= y ==> x in done
    ensures PairedSoFar(spec, st, zoneId, done, PairUp(spec, st, zoneId, done))
  {
    if done != [] {
      var init, q := done[..|done| - 1], done[|done| - 1];
      assert done == init + [q];
      forall x, y | x in st.qubitToLocations && y in init && x <= y ensures x in init {
        var i :| 0 <= i < |init| && init[i] == y;
        assert done[i] < done[|init|];
        assert y in done && x in init + [q];
      }
      assert q in done;
      PairUpKeeps(spec, st, zoneId, init);
      PairNextKeeps(spec, st, zoneId, init, q, PairUp(spec, st, zoneId, init));
    }
  }

  /** Every placed qubit of the zone is listed exactly once, and nothing else is. */
  ghost predicate Partitioned(spec: ArchSpec, st: AtomState, zoneId: u32) {
    var p := ZonePairs(spec, st, zoneId);
    multiset(p.controls) + multiset(p.targets) + multiset(p.unpaired) == multiset(InZone(st, zoneId))
  }

  /** On every spec the lists are in id order, controls and targets are in the zone,
      and each two sit on partner sites. */
  lemma PairsAreSound(spec: ArchSpec, st: AtomState, zoneId: u32)
    requires InSync(st)
    ensures var p := ZonePairs(spec, st, zoneId);
            && |p.controls| == |p.targets| && StrictlyIncreasing(p.controls) && StrictlyIncreasing(p.unpaired)
            && forall i :: 0 <= i < |p.controls| ==>
                 && p.controls[i] in InZone(st, zoneId) && p.targets[i] in InZone(st, zoneId)
                 && CzPartner(spec, st.qubitToLocations[p.controls[i]]) == Some(st.qubitToLocations[p.targets[i]])
  {
    var p := ZonePairs(spec, st, zoneId);
    PairUpLists(spec, st, zoneId, InOrder(st.qubitToLocations.Keys));
    forall i | 0 <= i < |p.controls|
      ensures p.controls[i] in InZone(st, zoneId) && p.targets[i] in InZone(st, zoneId)
      ensures CzPartner(spec, st.qubitToLocations[p.controls[i]]) == Some(st.qubitToLocations[p.targets[i]])
    {
      assert p.controls[i] in p.controls;
    }
  }

  /** With mutual, distinct partner words each control precedes its target. */
  lemma ControlsPrecedeTargets(spec: ArchSpec, st: AtomState, zoneId: u32)
    requires InSync(st) && ZoneMatches(spec, zoneId)
    ensures var p := ZonePairs(spec, st, zoneId);
            |p.controls| == |p.targets| && forall i :: 0 <= i < |p.controls| ==> p.controls[i] < p.targets[i]
  {
    PairUpKeeps(spec, st, zoneId, InOrder(st.qubitToLocations.Keys));
  }

  lemma {:induction false} DistinctCounts(xs: seq<u32>, x: u32)
    requires forall i, j :: 0 <= i < j < |xs| ==> xs[i] != xs[j]
    ensures multiset(xs)[x] == if x in xs then 1 else 0
  {
    if xs != [] {
      var init := xs[..|xs| - 1];
      assert xs == init + [xs[|xs| - 1]];
      DistinctCounts(init, x);
    }
  }

  lemma MatchingPartitions(spec: ArchSpec, st: AtomState, zoneId: u32)
    requires InSync(st) && ZoneMatches(spec, zoneId)
    ensures Partitioned(spec, st, zoneId)
  {
    var p := ZonePairs(spec, st, zoneId);
    PairUpKeeps(spec, st, zoneId, InOrder(st.qubitToLocations.Keys));
    PairsAreSound(spec, st, zoneId);
    forall i, j | 0 <= i < j < |p.targets| ensures p.targets[i] != p.targets[j] {
      PartnerQubitsMutual(spec, st, zoneId, p.controls[i]);
      PartnerQubitsMutual(spec, st, zoneId, p.controls[j]);
    }
    forall q
      ensures (multiset(p.controls) + multiset(p.targets) + multiset(p.unpaired))[q] == multiset(InZone(st, zoneId))[q]
    {
      OnlyOneList(spec, st, zoneId, q);
      ListedOnce(p, InZone(st, zoneId), q);
    }
  }

  lemma ListedOnce(p: Pairs, s: set<u32>, q: u32)
    requires StrictlyIncreasing(p.controls) && StrictlyIncreasing(p.unpaired)
    requires forall i, j :: 0 <= i < j < |p.targets| ==> p.targets[i] != p.targets[j]
    requires !(q in p.controls && q in p.targets) && !(q in p.controls && q in p.unpaired)
    requires !(q in p.targets && q in p.unpaired)
    requires q in p.controls || q in p.targets || q in p.unpaired <==> q in s
    ensures (multiset(p.controls) + multiset(p.targets) + multiset(p.unpaired))[q] == multiset(s)[q]
  {
    DistinctCounts(p.controls, q);
    DistinctCounts(p.targets, q);
    DistinctCounts(p.unpaired, q);
  }

  lemma OnlyOneList(spec: ArchSpec, st: AtomState, zoneId: u32, q: u32)
    requires InSync(st) && ZoneMatches(spec, zoneId)
    ensures var p := ZonePairs(spec, st, zoneId);
            && !(q in p.controls && q in p.targets)
            && !(q in p.controls && q in p.unpaired)
            && !(q in p.targets && q in p.unpaired)
            && (q in p.controls || q in p.targets || q in p.unpaired <==> q in InZone(st, zoneId))
  {
    var p := ZonePairs(spec, st, zoneId);
    PairUpKeeps(spec, st, zoneId, InOrder(st.qubitToLocations.Keys));
    PairsAreSound(spec, st, zoneId);
    forall i, j | 0 <= i < |p.controls| && 0 <= j < |p.targets| ensures p.controls[i] != p.targets[j] {
      assert p.controls[j] in p.controls;
      PartnerQubitsMutual(spec, st, zoneId, p.controls[j]);
    }
    if q in p.targets {
      var j :| 0 <= j < |p.targets| && p.targets[j] == q;
      assert p.controls[j] in p.controls;
      PartnerQubitsMutual(spec, st, zoneId, p.controls[j]);
    }
  }

  // --- The matching hypothesis is necessary ---

  lemma ListedTwice(spec: ArchSpec, st: AtomState, zoneId: u32, q: u32)
    requires var p := ZonePairs(spec, st, zoneId); q in p.targets && (q in p.controls || q in p.unpaired)
    ensures !Partitioned(spec, st, zoneId)
  {
    var p := ZonePairs(spec, st, zoneId);
    assert (multiset(p.controls) + multiset(p.targets) + multiset(p.unpaired))[q] >= 2;
    assert multiset(InZone(st, zoneId))[q] <= 1;
  }

  function Site(zoneId: u32, wordId: u32): LocationAddr {
    LocationAddr(zoneId, wordId, 0)
  }

  lemma PairOne(spec: ArchSpec, st: AtomState, zoneId: u32)
    requires st.qubitToLocations.Keys == {0}
    ensures ZonePairs(spec, st, zoneId) == PairNext(spec, st, zoneId, NO_PAIRS, 0)
  {
    SameElementsSameList(InOrder({0}), [0]);
    assert [0][..0] == [];
    assert PairUp(spec, st, zoneId, [0][..0]) == NO_PAIRS;
  }

  lemma PairTwo(spec: ArchSpec, st: AtomState, zoneId: u32)
    requires st.qubitToLocations.Keys == {0, 1}
    ensures ZonePairs(spec, st, zoneId) == PairNext(spec, st, zoneId, PairNext(spec, st, zoneId, NO_PAIRS, 0), 1)
  {
    SameElementsSameList(InOrder({0, 1}), [0, 1]);
    assert [0, 1][..1] == [0] && [0][..0] == [];
    assert PairUp(spec, st, zoneId, [0][..0]) == NO_PAIRS;
    assert PairUp(spec, st, zoneId, [0, 1][..1]) == PairNext(spec, st, zoneId, NO_PAIRS, 0);
  }

  /** A self-paired word lists its qubit as its own target. */
  lemma SelfPairedTwice(spec: ArchSpec, zoneId: u32, w: u32)
    requires zoneId < |spec.zones| && PartnerWord(spec.zones[zoneId].entanglingPairs, w) == Some(w)
    ensures exists st :: InSync(st) && !Partitioned(spec, st, zoneId)
  {
    var x := Site(zoneId, w);
    var st := AtomState(map[x := 0], map[0 := x], map[], map[], map[]);
    PairOne(spec, st, zoneId);
    assert PartnerQubit(spec, st, 0) == Some(0);
    ListedTwice(spec, st, zoneId, 0);
    assert InSync(st) && !Partitioned(spec, st, zoneId);
  }

  /** When `v` is not paired back with `w`, the qubit on `v` is listed twice. */
  lemma OneSidedTwice(spec: ArchSpec, zoneId: u32, w: u32, v: u32)
    requires zoneId < |spec.zones| && v != w
    requires PartnerWord(spec.zones[zoneId].entanglingPairs, w) == Some(v)
    requires PartnerWord(spec.zones[zoneId].entanglingPairs, v) != Some(w)
    requires PartnerWord(spec.zones[zoneId].entanglingPairs, v) != Some(v)
    ensures exists st :: InSync(st) && !Partitioned(spec, st, zoneId)
  {
    var x, y := Site(zoneId, v), Site(zoneId, w);
    var st := AtomState(map[x := 0, y := 1], map[0 := x, 1 := y], map[], map[], map[]);
    TwoPartners(spec, st, zoneId, w, v);
    TargetOfTwo(spec, st, zoneId);
    ListedTwice(spec, st, zoneId, 0);
    assert InSync(st) && !Partitioned(spec, st, zoneId);
  }

  lemma TwoPartners(spec: ArchSpec, st: AtomState, zoneId: u32, w: u32, v: u32)
    requires zoneId < |spec.zones| && v != w
    requires PartnerWord(spec.zones[zoneId].entanglingPairs, w) == Some(v)
    requires PartnerWord(spec.zones[zoneId].entanglingPairs, v) != Some(w)
    requires PartnerWord(spec.zones[zoneId].entanglingPairs, v) != Some(v)
    requires st.qubitToLocations == map[0 := Site(zoneId, v), 1 := Site(zoneId, w)]
    requires st.locationsToQubit == map[Site(zoneId, v) := 0, Site(zoneId, w) := 1]
    ensures PartnerQubit(spec, st, 0) == None && PartnerQubit(spec, st, 1) == Some(0)
  {
  }

  lemma TargetOfTwo(spec: ArchSpec, st: AtomState, zoneId: u32)
    requires st.qubitToLocations.Keys == {0, 1} && InZone(st, zoneId) == {0, 1}
    requires PartnerQubit(spec, st, 0) == None && PartnerQubit(spec, st, 1) == Some(0)
    ensures 0 in ZonePairs(spec, st, zoneId).targets && 0 in ZonePairs(spec, st, zoneId).unpaired
  {
    PairTwo(spec, st, zoneId);
    assert 0 in InZone(st, zoneId) && 1 in InZone(st, zoneId);
  }

  /** The pairing splits the zone's qubits for every synchronised state exactly when
      partner words are mutual and distinct. The validator does not check this. */
  lemma PartitionIffMatching(spec: ArchSpec, zoneId: u32)
    requires zoneId < |spec.zones|
    ensures (forall st :: InSync(st) ==> Partitioned(spec, st, zoneId)) <==> ZoneMatches(spec, zoneId)
  {
    if ZoneMatches(spec, zoneId) {
      forall st | InSync(st) ensures Partitioned(spec, st, zoneId) {
        MatchingPartitions(spec, st, zoneId);
      }
    } else {
      var pairs := spec.zones[zoneId].entanglingPairs;
      var w :| PartnerWord(pairs, w).Some?
            && (PartnerWord(pairs, w).value == w || PartnerWord(pairs, PartnerWord(pairs, w).value) != Some(w));
      var v := PartnerWord(pairs, w).value;
      if v == w {
        SelfPairedTwice(spec, zoneId, w);
      } else if PartnerWord(pairs, v) == Some(v) {
        SelfPairedTwice(spec, zoneId, v);
      } else {
        OneSidedTwice(spec, zoneId, w, v);
      }
    }
  }
}
