/** When a configuration may fire, and why that is exactly when the pulse pairs
    what was asked for. */
module EntanglingGoal {
  import opened Basics
  import opened Addr
  import opened Arch
  import opened AtomStates
  import Pairing
  import Separation

  type Config = Separation.Config

  // --- Placements ---

  /** The two partner locations that pair `k` of zone `z` has at site `s`. */
  function PairSites(spec: ArchSpec, z: nat, k: nat, s: u32): (LocationAddr, LocationAddr)
    requires z < |spec.zones| && k < |spec.zones[z].entanglingPairs|
  {
    var (a, b) := spec.zones[z].entanglingPairs[k];
    (LocationAddr(AsU32(z), a, s), LocationAddr(AsU32(z), b, s))
  }

  function Packed(p: (LocationAddr, LocationAddr)): (u64, u64) {
    (EncodeLocation(p.0), EncodeLocation(p.1))
  }

  function Turned<T>(p: (T, T)): (T, T) {
    (p.1, p.0)
  }

  /** Some entangling pair puts `e` on partner sites, in one order or the other. */
  ghost predicate IsPlacement(spec: ArchSpec, e: (u64, u64)) {
    exists z: nat, k: nat, s: u32 ::
      && IsSitePair(spec, z, k, s)
      && (e == Packed(PairSites(spec, z, k, s)) || e == Turned(Packed(PairSites(spec, z, k, s))))
  }

  predicate IsSitePair(spec: ArchSpec, z: nat, k: nat, s: u32) {
    z < |spec.zones| && k < |spec.zones[z].entanglingPairs| && s < AsU32(SitesPerWord(spec))
  }

  method BuildEntanglingSet(spec: ArchSpec) returns (placements: set<(u64, u64)>)
    ensures forall e :: e in placements <==> IsPlacement(spec, e)
  {
    placements := {};
    for z := 0 to |spec.zones|
      invariant forall e :: e in placements ==> IsPlacement(spec, e)
      invariant forall z': nat, k: nat, s: u32 ::
                  IsSitePair(spec, z', k, s) && z' < z ==> Listed(spec, placements, z', k, s)
    {
      var pairs := spec.zones[z].entanglingPairs;
      for k := 0 to |pairs|
        invariant forall e :: e in placements ==> IsPlacement(spec, e)
        invariant forall z': nat, k': nat, s: u32 ::
                    IsSitePair(spec, z', k', s) && (z' < z || (z' == z && k' < k))
                    ==> Listed(spec, placements, z', k', s)
      {
        placements := AddSites(spec, z, k, placements);
      }
    }
  }

  ghost predicate Listed(spec: ArchSpec, placements: set<(u64, u64)>, z: nat, k: nat, s: u32)
    requires IsSitePair(spec, z, k, s)
  {
    Packed(PairSites(spec, z, k, s)) in placements && Turned(Packed(PairSites(spec, z, k, s))) in placements
  }

  /** The innermost loop: every site of one entangling pair. */
  method AddSites(spec: ArchSpec, z: nat, k: nat, before: set<(u64, u64)>) returns (placements: set<(u64, u64)>)
    requires z < |spec.zones| && k < |spec.zones[z].entanglingPairs|
    requires forall e :: e in before ==> IsPlacement(spec, e)
    ensures before <= placements
    ensures forall e :: e in placements ==> IsPlacement(spec, e)
    ensures forall s: u32 :: IsSitePair(spec, z, k, s) ==> Listed(spec, placements, z, k, s)
  {
    placements := before;
    for site := 0 to AsU32(SitesPerWord(spec))
      invariant before <= placements
      invariant forall e :: e in placements ==> IsPlacement(spec, e)
      invariant forall s: u32 :: s < site ==> IsSitePair(spec, z, k, s) && Listed(spec, placements, z, k, s)
    {
      assert IsSitePair(spec, z, k, site);
      var e := Packed(PairSites(spec, z, k, site));
      placements := placements + {e, Turned(e)};
      assert Listed(spec, placements, z, k, site);
    }
  }

  /** A map giving every first component one of its second components. */
  ghost predicate IsPartnerMap(placements: set<(u64, u64)>, m: map<u64, u64>) {
    && (forall e :: e in placements ==> e.0 in m)
    && (forall a :: a in m ==> (a, m[a]) in placements)
  }

  method BuildPartnerMap(placements: set<(u64, u64)>) returns (m: map<u64, u64>)
    ensures IsPartnerMap(placements, m)
  {
    m := map[];
    var rest := placements;
    while rest != {}
      invariant rest <= placements
      invariant IsPartnerMap(placements - rest, m)
    {
      var e :| e in rest;
      m := m[e.0 := e.1];
      rest := rest - {e};
    }
  }

  // --- The goal ---

  datatype Goal = Goal(
    pairs: seq<(u32, u32)>, validPlacements: set<(u64, u64)>, czQubits: set<u32>, partnerMap: map<u64, u64>)

  function QubitsOf(pairs: seq<(u32, u32)>): set<u32> {
    (set p | p in pairs :: p.0) + (set p | p in pairs :: p.1)
  }

  /** What the constructor precomputes. */
  ghost predicate Prepared(g: Goal) {
    g.czQubits == QubitsOf(g.pairs) && IsPartnerMap(g.validPlacements, g.partnerMap)
  }

  method NewGoal(pairs: seq<(u32, u32)>, placements: set<(u64, u64)>) returns (g: Goal)
    ensures g.pairs == pairs && g.validPlacements == placements && Prepared(g)
  {
    var partners := BuildPartnerMap(placements);
    g := Goal(pairs, placements, QubitsOf(pairs), partners);
  }

  /** The first qubit, in id order, at a packed location. */
  function QubitAt(config: Config, packed: u64): Option<u32> {
    var there := set q | q in config && EncodeLocation(config[q]) == packed;
    if there == {} then None else Some(Pairing.Least(there))
  }

  predicate PairPlaced(g: Goal, config: Config, p: (u32, u32)) {
    && p.0 in config && p.1 in config
    && (EncodeLocation(config[p.0]), EncodeLocation(config[p.1])) in g.validPlacements
  }

  /** Spectator `q` shares a blockade with another spectator. */
  predicate Accident(g: Goal, config: Config, q: u32)
    requires q in config
  {
    var here := EncodeLocation(config[q]);
    && q !in g.czQubits
    && here in g.partnerMap
    && QubitAt(config, g.partnerMap[here]).Some?
    && QubitAt(config, g.partnerMap[here]).value !in g.czQubits
  }

  ghost predicate Accepts(g: Goal, config: Config) {
    (forall p :: p in g.pairs ==> PairPlaced(g, config, p)) && (forall q :: q in config ==> !Accident(g, config, q))
  }

  method IsGoal(g: Goal, config: Config) returns (ok: bool)
    ensures ok <==> Accepts(g, config)
  {
    for i := 0 to |g.pairs|
      invariant forall k :: 0 <= k < i ==> PairPlaced(g, config, g.pairs[k])
    {
      if !PairPlaced(g, config, g.pairs[i]) {
        return false;
      }
    }
    var qubits := Pairing.InOrder(config.Keys);
    for i := 0 to |qubits|
      invariant forall k :: 0 <= k < i ==> !Accident(g, config, qubits[k])
    {
      var qid := qubits[i];
      if qid in g.czQubits {
        continue;
      }
      var here := EncodeLocation(config[qid]);
      if here in g.partnerMap {
        var other := QubitAt(config, g.partnerMap[here]);
        if other.Some? && other.value !in g.czQubits {
          assert Accident(g, config, qid);
          return false;
        }
      }
    }
    forall q | q in config ensures !Accident(g, config, q) {
      assert q in qubits;
    }
    return true;
  }

  // --- Exactness ---

  /** Each word is in at most one pair, and no word is paired with itself. */
  ghost predicate Matching(pairs: seq<(u32, u32)>) {
    && (forall i :: 0 <= i < |pairs| ==> pairs[i].0 != pairs[i].1)
    && (forall i, j :: 0 <= i < j < |pairs| ==> {pairs[i].0, pairs[i].1} !! {pairs[j].0, pairs[j].1})
  }

  lemma {:induction false} PartnerWordMeans(pairs: seq<(u32, u32)>, w: u32, v: u32)
    requires Matching(pairs)
    ensures PartnerWord(pairs, w) == Some(v) <==> (w, v) in pairs || (v, w) in pairs
  {
    if pairs != [] {
      var rest := pairs[1..];
      assert pairs == [pairs[0]] + rest;
      PartnerWordMeans(rest, w, v);
      if w in {pairs[0].0, pairs[0].1} {
        forall j | 0 <= j < |rest| ensures rest[j].0 != w && rest[j].1 != w {
          assert rest[j] == pairs[j + 1];
        }
      }
    }
  }

  lemma MatchingIsMutual(pairs: seq<(u32, u32)>)
    requires Matching(pairs)
    ensures Pairing.PartnersMatch(pairs)
  {
    forall w | PartnerWord(pairs, w).Some?
      ensures PartnerWord(pairs, w).value != w && PartnerWord(pairs, PartnerWord(pairs, w).value) == Some(w)
    {
      var v := PartnerWord(pairs, w).value;
      PartnerWordMeans(pairs, w, v);
      PartnerWordMeans(pairs, v, w);
    }
  }

  /** Every id of the spec fits its packed field, and partner words exist. */
  ghost predicate Addressable(spec: ArchSpec) {
    && |spec.zones| <= 0x100 && |spec.words| <= 0x1_0000 && SitesPerWord(spec) <= 0x1_0000
    && forall z :: 0 <= z < |spec.zones| ==>
         forall p :: p in spec.zones[z].entanglingPairs ==> p.0 < |spec.words| && p.1 < |spec.words|
  }

  ghost predicate AllMatching(spec: ArchSpec) {
    forall z :: 0 <= z < |spec.zones| ==> Matching(spec.zones[z].entanglingPairs)
  }

  lemma ValidIsInRange(spec: ArchSpec, x: LocationAddr)
    requires Addressable(spec) && CheckLocation(spec, x) == None
    ensures LocationInRange(x)
    ensures x.zoneId < |spec.zones| && x.siteId < AsU32(SitesPerWord(spec))
  {
  }

  /** On valid locations the placements are exactly the blockade partners. */
  lemma PlacementIsPartner(spec: ArchSpec, x: LocationAddr, y: LocationAddr)
    requires Addressable(spec) && AllMatching(spec)
    requires CheckLocation(spec, x) == None && LocationInRange(y)
    ensures IsPlacement(spec, Packed((x, y))) <==> CzPartner(spec, x) == Some(y)
  {
    ValidIsInRange(spec, x);
    var z: nat := x.zoneId;
    var pairs := spec.zones[z].entanglingPairs;
    PartnerWordMeans(pairs, x.wordId, y.wordId);
    if CzPartner(spec, x) == Some(y) {
      var p :| p in pairs && (p == (x.wordId, y.wordId) || p == (y.wordId, x.wordId));
      var k: nat :| k < |pairs| && pairs[k] == p;
      assert IsSitePair(spec, z, k, x.siteId);
      assert AsU32(z) == x.zoneId;
      assert y == LocationAddr(x.zoneId, y.wordId, x.siteId);
      assert pairs[k] == (x.wordId, y.wordId) || pairs[k] == (y.wordId, x.wordId);
      if pairs[k] == (x.wordId, y.wordId) {
        assert PairSites(spec, z, k, x.siteId) == (x, y);
      } else {
        assert PairSites(spec, z, k, x.siteId) == (y, x);
      }
    }
    if IsPlacement(spec, Packed((x, y))) {
      var t := PlacementTarget(spec, x, Packed((x, y)));
      LocationEncodingInjective(y, t);
    }
  }

  lemma SitesArePartners(spec: ArchSpec, z: nat, k: nat, s: u32)
    requires Addressable(spec) && AllMatching(spec) && IsSitePair(spec, z, k, s)
    ensures var (a, b) := PairSites(spec, z, k, s);
            && LocationInRange(a) && LocationInRange(b)
            && CzPartner(spec, a) == Some(b) && CzPartner(spec, b) == Some(a)
  {
    var pairs := spec.zones[z].entanglingPairs;
    var (a, b) := pairs[k];
    assert pairs[k] in pairs;
    assert AsU32(z) == z;
    PartnerWordMeans(pairs, a, b);
    PartnerWordMeans(pairs, b, a);
  }

  /** A placement's unpacked locations: any in-range `x` packing to its first half
      has the unpacked second half as its partner. */
  lemma PlacementTarget(spec: ArchSpec, x: LocationAddr, e: (u64, u64)) returns (y: LocationAddr)
    requires Addressable(spec) && AllMatching(spec) && LocationInRange(x)
    requires IsPlacement(spec, e) && e.0 == EncodeLocation(x)
    ensures LocationInRange(y) && e.1 == EncodeLocation(y) && CzPartner(spec, x) == Some(y)
  {
    var z: nat, k: nat, s: u32 :| IsSitePair(spec, z, k, s)
      && (e == Packed(PairSites(spec, z, k, s)) || e == Turned(Packed(PairSites(spec, z, k, s))));
    SitesArePartners(spec, z, k, s);
    var (a, b) := PairSites(spec, z, k, s);
    LocationEncodingInjective(x, a);
    LocationEncodingInjective(x, b);
    y := if e == Packed((a, b)) then b else a;
  }

  /** A valid, injective configuration seen as an atom state. */
  ghost predicate Represents(spec: ArchSpec, config: Config, st: AtomState) {
    && InSync(st) && st.qubitToLocations == config
    && forall q :: q in config ==> CheckLocation(spec, config[q]) == None
  }

  /** The pulse pairs `a` with `b` in some zone. */
  ghost predicate Reported(spec: ArchSpec, st: AtomState, a: u32, b: u32) {
    exists z: u32, i :: z < |spec.zones| && ReportedIn(spec, st, z, i, a, b)
  }

  predicate ReportedIn(spec: ArchSpec, st: AtomState, z: u32, i: int, a: u32, b: u32) {
    var p := Pairing.ZonePairs(spec, st, z);
    && 0 <= i < |p.controls| && i < |p.targets|
    && (a, b) in {(p.controls[i], p.targets[i]), (p.targets[i], p.controls[i])}
  }

  ghost predicate Requested(pairs: seq<(u32, u32)>, a: u32, b: u32) {
    (a, b) in pairs || (b, a) in pairs
  }

  lemma ReportedIffPartners(spec: ArchSpec, config: Config, st: AtomState, a: u32, b: u32)
    requires Addressable(spec) && AllMatching(spec) && Represents(spec, config, st)
    ensures Reported(spec, st, a, b) <==> a in config && Pairing.PartnerQubit(spec, st, a) == Some(b)
  {
    if Reported(spec, st, a, b) {
      var z: u32, i :| z < |spec.zones| && ReportedIn(spec, st, z, i, a, b);
      MatchingIsMutual(spec.zones[z].entanglingPairs);
      Pairing.PairsAreSound(spec, st, z);
      var p := Pairing.ZonePairs(spec, st, z);
      Pairing.PartnerQubitsMutual(spec, st, z, p.controls[i]);
    }
    if a in config && Pairing.PartnerQubit(spec, st, a) == Some(b) {
      var z := config[a].zoneId;
      ValidIsInRange(spec, config[a]);
      MatchingIsMutual(spec.zones[z].entanglingPairs);
      PartnersAreReported(spec, st, z, a, b);
    }
  }

  lemma PartnersAreReported(spec: ArchSpec, st: AtomState, z: u32, a: u32, b: u32)
    requires z < |spec.zones| && InSync(st) && Pairing.ZoneMatches(spec, z)
    requires a in Pairing.InZone(st, z) && Pairing.PartnerQubit(spec, st, a) == Some(b)
    ensures Reported(spec, st, a, b)
  {
    var p := Pairing.ZonePairs(spec, st, z);
    Pairing.PairUpKeeps(spec, st, z, Pairing.InOrder(st.qubitToLocations.Keys));
    Pairing.OnlyOneList(spec, st, z, a);
    if a in p.controls {
      var i :| 0 <= i < |p.controls| && p.controls[i] == a;
      assert ReportedIn(spec, st, z, i, a, b);
    } else {
      assert a in p.targets;
      var i :| 0 <= i < |p.targets| && p.targets[i] == a;
      assert p.controls[i] in p.controls;
      Pairing.PartnerQubitsMutual(spec, st, z, p.controls[i]);
      assert ReportedIn(spec, st, z, i, a, b);
    }
  }

  ghost predicate GoalFor(spec: ArchSpec, g: Goal) {
    Prepared(g) && forall e :: e in g.validPlacements <==> IsPlacement(spec, e)
  }

  lemma PlacedIffPartners(spec: ArchSpec, g: Goal, config: Config, st: AtomState, a: u32, b: u32)
    requires Addressable(spec) && AllMatching(spec) && Represents(spec, config, st) && GoalFor(spec, g)
    ensures PairPlaced(g, config, (a, b)) <==> a in config && Pairing.PartnerQubit(spec, st, a) == Some(b)
  {
    if a in config && b in config {
      ValidIsInRange(spec, config[b]);
      PlacementIsPartner(spec, config[a], config[b]);
    }
  }

  /** A spectator is in an accident exactly when the pulse would pair it with another. */
  lemma AccidentIffPartners(spec: ArchSpec, g: Goal, config: Config, st: AtomState, q: u32)
    requires Addressable(spec) && AllMatching(spec) && Represents(spec, config, st) && GoalFor(spec, g)
    requires q in config
    ensures Accident(g, config, q)
       <==> && q !in g.czQubits && Pairing.PartnerQubit(spec, st, q).Some?
            && Pairing.PartnerQubit(spec, st, q).value !in g.czQubits
  {
    var x := config[q];
    ValidIsInRange(spec, x);
    if EncodeLocation(x) in g.partnerMap {
      var e := g.partnerMap[EncodeLocation(x)];
      assert IsPlacement(spec, (EncodeLocation(x), e));
      var y := PlacementTarget(spec, x, (EncodeLocation(x), e));
      QubitAtSite(spec, config, st, y);
    }
    if CzPartner(spec, x).Some? {
      var y := CzPartner(spec, x).value;
      PartnerInRange(spec, x);
      PlacementIsPartner(spec, x, y);
      assert Packed((x, y)) in g.validPlacements;
      assert Packed((x, y)).0 in g.partnerMap;
    }
  }

  lemma PartnerInRange(spec: ArchSpec, x: LocationAddr)
    requires Addressable(spec) && AllMatching(spec) && CheckLocation(spec, x) == None && CzPartner(spec, x).Some?
    ensures LocationInRange(CzPartner(spec, x).value)
  {
    ValidIsInRange(spec, x);
    PartnerWordMeans(spec.zones[x.zoneId].entanglingPairs, x.wordId, CzPartner(spec, x).value.wordId);
  }

  lemma QubitAtSite(spec: ArchSpec, config: Config, st: AtomState, y: LocationAddr)
    requires Addressable(spec) && Represents(spec, config, st) && LocationInRange(y)
    ensures QubitAt(config, EncodeLocation(y))
         == if y in st.locationsToQubit then Some(st.locationsToQubit[y]) else None
  {
    var there := set q | q in config && EncodeLocation(config[q]) == EncodeLocation(y);
    forall q | q in config ensures q in there <==> config[q] == y {
      ValidIsInRange(spec, config[q]);
      LocationEncodingInjective(config[q], y);
    }
    if y in st.locationsToQubit {
      assert st.locationsToQubit[y] in there;
      assert Pairing.Least(there) in there;
    }
  }

  /** The goal accepts a configuration exactly when the pairs the pulse reports over
      all zones are the requested ones, up to orientation: none missing, none extra.
      This holds for every list of requests, also when pairs repeat, share a qubit or
      name one qubit twice. */
  lemma GoalIsExact(spec: ArchSpec, g: Goal, config: Config, st: AtomState)
    requires Addressable(spec) && AllMatching(spec) && Represents(spec, config, st) && GoalFor(spec, g)
    ensures Accepts(g, config) <==> forall a, b :: Reported(spec, st, a, b) <==> Requested(g.pairs, a, b)
  {
    if Accepts(g, config) {
      forall a, b ensures Reported(spec, st, a, b) <==> Requested(g.pairs, a, b) {
        ReportedIffPartners(spec, config, st, a, b);
        ReportedIffPartners(spec, config, st, b, a);
        AcceptedPairs(spec, g, config, st, a, b);
      }
    }
    if forall a, b :: Reported(spec, st, a, b) <==> Requested(g.pairs, a, b) {
      forall p | p in g.pairs ensures PairPlaced(g, config, p) {
        assert Requested(g.pairs, p.0, p.1);
        ReportedIffPartners(spec, config, st, p.0, p.1);
        PlacedIffPartners(spec, g, config, st, p.0, p.1);
      }
      forall q | q in config ensures !Accident(g, config, q) {
        AccidentIffPartners(spec, g, config, st, q);
        if Pairing.PartnerQubit(spec, st, q).Some? {
          var o := Pairing.PartnerQubit(spec, st, q).value;
          ReportedIffPartners(spec, config, st, q, o);
          assert Requested(g.pairs, q, o);
          RequestedAreCz(g, q, o);
        }
      }
    }
  }

  lemma RequestedAreCz(g: Goal, a: u32, b: u32)
    requires Prepared(g) && Requested(g.pairs, a, b)
    ensures a in g.czQubits && b in g.czQubits
  {
    var p :| p in g.pairs && (p == (a, b) || p == (b, a));
  }

  lemma AcceptedPairs(spec: ArchSpec, g: Goal, config: Config, st: AtomState, a: u32, b: u32)
    requires Addressable(spec) && AllMatching(spec) && Represents(spec, config, st) && GoalFor(spec, g)
    requires Accepts(g, config)
    ensures a in config && Pairing.PartnerQubit(spec, st, a) == Some(b) <==> Requested(g.pairs, a, b)
  {
    if Requested(g.pairs, a, b) {
      RequestedPartners(spec, g, config, st, a, b);
    }
    if a in config && Pairing.PartnerQubit(spec, st, a) == Some(b) {
      AccidentIffPartners(spec, g, config, st, a);
      if a in g.czQubits {
        var o := RequestedWith(g, a);
        RequestedPartners(spec, g, config, st, a, o);
      } else {
        var o := RequestedWith(g, b);
        RequestedPartners(spec, g, config, st, b, o);
        MutualHere(spec, config, st, a, b);
      }
    }
  }

  lemma RequestedWith(g: Goal, a: u32) returns (o: u32)
    requires Prepared(g) && a in g.czQubits
    ensures Requested(g.pairs, a, o)
  {
    var p :| p in g.pairs && (p.0 == a || p.1 == a);
    o := if p.0 == a then p.1 else p.0;
  }

  lemma MutualHere(spec: ArchSpec, config: Config, st: AtomState, a: u32, b: u32)
    requires Addressable(spec) && AllMatching(spec) && Represents(spec, config, st)
    requires a in config && Pairing.PartnerQubit(spec, st, a) == Some(b)
    ensures b in config && Pairing.PartnerQubit(spec, st, b) == Some(a)
  {
    var z := config[a].zoneId;
    ValidIsInRange(spec, config[a]);
    MatchingIsMutual(spec.zones[z].entanglingPairs);
    Pairing.PartnerQubitsMutual(spec, st, z, a);
  }

  lemma RequestedPartners(spec: ArchSpec, g: Goal, config: Config, st: AtomState, a: u32, b: u32)
    requires Addressable(spec) && AllMatching(spec) && Represents(spec, config, st) && GoalFor(spec, g)
    requires Accepts(g, config) && Requested(g.pairs, a, b)
    ensures a in config && Pairing.PartnerQubit(spec, st, a) == Some(b)
  {
    if (a, b) in g.pairs {
      PlacedIffPartners(spec, g, config, st, a, b);
    } else {
      PlacedIffPartners(spec, g, config, st, b, a);
      MutualHere(spec, config, st, b, a);
    }
  }
}
