/** Structural validation of an architecture: every rule is checked and every
    failure is logged, rather than stopping at the first. */
module Validate {
  import opened Basics
  import opened Addr
  import opened Arch

  datatype ArchSpecError = Structure | ZoneBusError | InterZoneBus | EntanglingPair

  /** The shared error list the checks push into. */
  class ErrorLog {
    var errors: seq<ArchSpecError>

    constructor ()
      ensures errors == []
    {
      errors := [];
    }

    method Push(e: ArchSpecError)
      modifies this
      ensures errors == old(errors) + [e]
    {
      errors := errors + [e];
    }

    method PushIf(condition: bool, e: ArchSpecError)
      modifies this
      ensures Grown(old(errors), errors, e, !condition)
    {
      if condition {
        Push(e);
      }
    }
  }

  /** A check of kind `k` ran: it only appended errors of that kind, and appended
      some exactly when its rule is broken. */
  ghost predicate Grown(before: seq<ArchSpecError>, after: seq<ArchSpecError>, k: ArchSpecError, ok: bool) {
    && before <= after
    && (forall i :: |before| <= i < |after| ==> after[i] == k)
    && (after == before <==> ok)
  }

  lemma GrownKinds(a: seq<ArchSpecError>, b: seq<ArchSpecError>, k: ArchSpecError, p: bool)
    requires Grown(a, b, k, p)
    ensures forall e :: e in b <==> e in a || (e == k && !p)
  {
    forall e ensures e in b <==> e in a || (e == k && !p) {
      if !p {
        assert b[|a|] == k;
      }
      if e in a {
        var i :| 0 <= i < |a| && a[i] == e;
        assert b[i] == e;
      }
    }
  }

  // --- The rules ---

  predicate NonNegative(xs: seq<real>) {
    forall i :: 0 <= i < |xs| ==> xs[i] >= 0.0
  }

  predicate MinimumCounts(spec: ArchSpec) {
    spec.zones != [] && spec.words != []
  }

  predicate SpacingsNonNegative(spec: ArchSpec, n: nat)
    requires n <= |spec.zones|
  {
    forall z :: 0 <= z < n ==> NonNegative(spec.zones[z].grid.xSpacing) && NonNegative(spec.zones[z].grid.ySpacing)
  }

  predicate SameDimensions(a: Grid, b: Grid) {
    |a.xSpacing| == |b.xSpacing| && |a.ySpacing| == |b.ySpacing|
  }

  predicate GridsUniform(spec: ArchSpec, n: nat)
    requires n <= |spec.zones|
  {
    forall z :: 0 < z < n ==> SameDimensions(spec.zones[z].grid, spec.zones[0].grid)
  }

  predicate WordsUniform(spec: ArchSpec, n: nat)
    requires n <= |spec.words|
  {
    forall w :: 0 < w < n ==> |spec.words[w].sites| == |spec.words[0].sites|
  }

  predicate SiteFits(site: (u32, u32), g: Grid) {
    site.0 < |g.xSpacing| + 1 && site.1 < |g.ySpacing| + 1
  }

  predicate SitesFit(sites: seq<(u32, u32)>, g: Grid, n: nat)
    requires n <= |sites|
  {
    forall s :: 0 <= s < n ==> SiteFits(sites[s], g)
  }

  predicate WordSitesFit(spec: ArchSpec, n: nat)
    requires n <= |spec.words|
  {
    spec.zones == []
    || forall w :: 0 <= w < n ==> SitesFit(spec.words[w].sites, spec.zones[0].grid, |spec.words[w].sites|)
  }

  predicate AllBelow(xs: seq<int>, n: nat, limit: nat)
    requires n <= |xs|
  {
    forall i :: 0 <= i < n ==> xs[i] < limit
  }

  predicate BusWellFormed(bus: Bus<u16>, limit: nat) {
    |bus.src| == |bus.dst| && AllBelow(bus.src, |bus.src|, limit) && AllBelow(bus.dst, |bus.dst|, limit)
  }

  predicate BusesWellFormed(buses: seq<Bus<u16>>, n: nat, limit: nat)
    requires n <= |buses|
  {
    forall b :: 0 <= b < n ==> BusWellFormed(buses[b], limit)
  }

  predicate RefsBelow(refs: seq<ZonedWordRef>, n: nat, zones: nat, words: nat)
    requires n <= |refs|
  {
    forall i :: 0 <= i < n ==> refs[i].zoneId < zones && refs[i].wordId < words
  }

  /** Each of the first `n` entries with both ends leaves its zone. */
  predicate Crosses(bus: Bus<ZonedWordRef>, n: nat)
    requires n <= |bus.src| && n <= |bus.dst|
  {
    forall i :: 0 <= i < n ==> bus.src[i].zoneId != bus.dst[i].zoneId
  }

  /** Entries with both ends. */
  function PairCount(bus: Bus<ZonedWordRef>): (n: nat)
    ensures n <= |bus.src| && n <= |bus.dst|
  {
    if |bus.src| < |bus.dst| then |bus.src| else |bus.dst|
  }

  predicate ZoneBusWellFormed(bus: Bus<ZonedWordRef>, zones: nat, words: nat) {
    && |bus.src| == |bus.dst|
    && RefsBelow(bus.src, |bus.src|, zones, words) && RefsBelow(bus.dst, |bus.dst|, zones, words)
    && Crosses(bus, PairCount(bus))
  }

  predicate ZoneBusesWellFormed(spec: ArchSpec, n: nat)
    requires n <= |spec.zoneBuses|
  {
    forall b :: 0 <= b < n ==> ZoneBusWellFormed(spec.zoneBuses[b], |spec.zones|, |spec.words|)
  }

  predicate ZoneBusRules(zone: Zone, words: nat, sites: nat) {
    && AllBelow(zone.wordsWithSiteBuses, |zone.wordsWithSiteBuses|, words)
    && AllBelow(zone.sitesWithWordBuses, |zone.sitesWithWordBuses|, sites)
    && BusesWellFormed(zone.siteBuses, |zone.siteBuses|, sites)
    && BusesWellFormed(zone.wordBuses, |zone.wordBuses|, words)
  }

  predicate SamePair(p: (u32, u32), r: (u32, u32)) {
    p == r || (p.1, p.0) == r
  }

  /** Words exist and differ, and no earlier pair is the same up to order. */
  predicate PairsWellFormed(pairs: seq<(u32, u32)>, n: nat, words: nat)
    requires n <= |pairs|
  {
    && (forall i :: 0 <= i < n ==> pairs[i].0 < words && pairs[i].1 < words && pairs[i].0 != pairs[i].1)
    && (forall i, j :: 0 <= i < j < n ==> !SamePair(pairs[i], pairs[j]))
  }

  predicate AllZoneBusRules(spec: ArchSpec, n: nat)
    requires n <= |spec.zones|
  {
    forall z :: 0 <= z < n ==> ZoneBusRules(spec.zones[z], |spec.words|, SitesPerWord(spec))
  }

  predicate AllPairRules(spec: ArchSpec, n: nat)
    requires n <= |spec.zones|
  {
    forall z :: 0 <= z < n ==>
      PairsWellFormed(spec.zones[z].entanglingPairs, |spec.zones[z].entanglingPairs|, |spec.words|)
  }

  datatype Box = Box(xMin: real, xMax: real, yMin: real, yMax: real)

  function Min(a: real, b: real): real { if a <= b then a else b }

  function Max(a: real, b: real): real { if a <= b then b else a }

  function BoundingBox(g: Grid): Box {
    var xEnd, yEnd := g.xStart + Sum(g.xSpacing), g.yStart + Sum(g.ySpacing);
    Box(Min(g.xStart, xEnd), Max(g.xStart, xEnd), Min(g.yStart, yEnd), Max(g.yStart, yEnd))
  }

  predicate Overlap(a: Box, b: Box) {
    a.xMin < b.xMax && b.xMin < a.xMax && a.yMin < b.yMax && b.yMin < a.yMax
  }

  predicate ZonesApart(spec: ArchSpec, i: nat, j: nat)
    requires i < |spec.zones| && j < |spec.zones|
  {
    !Overlap(BoundingBox(spec.zones[i].grid), BoundingBox(spec.zones[j].grid))
  }

  predicate NoOverlap(spec: ArchSpec, n: nat)
    requires n <= |spec.zones|
  {
    forall i, j :: 0 <= i < n && i < j < |spec.zones| ==> ZonesApart(spec, i, j)
  }

  predicate StructureRules(spec: ArchSpec) {
    && MinimumCounts(spec) && SpacingsNonNegative(spec, |spec.zones|) && GridsUniform(spec, |spec.zones|)
    && WordsUniform(spec, |spec.words|) && WordSitesFit(spec, |spec.words|) && NoOverlap(spec, |spec.zones|)
  }

  predicate ValidSpec(spec: ArchSpec) {
    && StructureRules(spec)
    && AllZoneBusRules(spec, |spec.zones|)
    && AllPairRules(spec, |spec.zones|)
    && ZoneBusesWellFormed(spec, |spec.zoneBuses|)
  }

  // --- The checks ---

  method CheckMinimumCounts(spec: ArchSpec, log: ErrorLog)
    modifies log
    ensures Grown(old(log.errors), log.errors, Structure, MinimumCounts(spec))
  {
    log.PushIf(spec.zones == [], Structure);
    log.PushIf(spec.words == [], Structure);
  }

  method HasNegative(xs: seq<real>) returns (r: bool)
    ensures r <==> !NonNegative(xs)
  {
    for i := 0 to |xs|
      invariant forall k :: 0 <= k < i ==> xs[k] >= 0.0
    {
      if xs[i] < 0.0 {
        return true;
      }
    }
    return false;
  }

  method CheckNonNegativeGridSpacings(spec: ArchSpec, log: ErrorLog)
    modifies log
    ensures Grown(old(log.errors), log.errors, Structure, SpacingsNonNegative(spec, |spec.zones|))
  {
    for z := 0 to |spec.zones|
      invariant Grown(old(log.errors), log.errors, Structure, SpacingsNonNegative(spec, z))
    {
      var badX := HasNegative(spec.zones[z].grid.xSpacing);
      log.PushIf(badX, Structure);
      var badY := HasNegative(spec.zones[z].grid.ySpacing);
      log.PushIf(badY, Structure);
    }
  }

  method CheckUniformGridDimensions(spec: ArchSpec, log: ErrorLog)
    modifies log
    ensures Grown(old(log.errors), log.errors, Structure, GridsUniform(spec, |spec.zones|))
  {
    if spec.zones == [] {
      return;
    }
    for z := 1 to |spec.zones|
      invariant Grown(old(log.errors), log.errors, Structure, GridsUniform(spec, z))
    {
      log.PushIf(!SameDimensions(spec.zones[z].grid, spec.zones[0].grid), Structure);
    }
  }

  method CheckUniformWordSiteCounts(spec: ArchSpec, log: ErrorLog)
    modifies log
    ensures Grown(old(log.errors), log.errors, Structure, WordsUniform(spec, |spec.words|))
  {
    if spec.words == [] {
      return;
    }
    for w := 1 to |spec.words|
      invariant Grown(old(log.errors), log.errors, Structure, WordsUniform(spec, w))
    {
      log.PushIf(|spec.words[w].sites| != |spec.words[0].sites|, Structure);
    }
  }

  method CheckSites(sites: seq<(u32, u32)>, g: Grid, log: ErrorLog)
    modifies log
    ensures Grown(old(log.errors), log.errors, Structure, SitesFit(sites, g, |sites|))
  {
    for s := 0 to |sites|
      invariant Grown(old(log.errors), log.errors, Structure, SitesFit(sites, g, s))
    {
      log.PushIf(sites[s].0 >= |g.xSpacing| + 1, Structure);
      log.PushIf(sites[s].1 >= |g.ySpacing| + 1, Structure);
    }
  }

  method CheckWordSiteIndices(spec: ArchSpec, log: ErrorLog)
    modifies log
    ensures Grown(old(log.errors), log.errors, Structure, WordSitesFit(spec, |spec.words|))
  {
    if spec.zones == [] {
      return;
    }
    for w := 0 to |spec.words|
      invariant Grown(old(log.errors), log.errors, Structure, WordSitesFit(spec, w))
    {
      CheckSites(spec.words[w].sites, spec.zones[0].grid, log);
    }
  }

  method CheckBelow(xs: seq<int>, limit: nat, log: ErrorLog)
    modifies log
    ensures Grown(old(log.errors), log.errors, ZoneBusError, AllBelow(xs, |xs|, limit))
  {
    for i := 0 to |xs|
      invariant Grown(old(log.errors), log.errors, ZoneBusError, AllBelow(xs, i, limit))
    {
      log.PushIf(xs[i] >= limit, ZoneBusError);
    }
  }

  /** Site buses against the sites of a word, word buses against the words. */
  method CheckBuses(buses: seq<Bus<u16>>, limit: nat, log: ErrorLog)
    modifies log
    ensures Grown(old(log.errors), log.errors, ZoneBusError, BusesWellFormed(buses, |buses|, limit))
  {
    for b := 0 to |buses|
      invariant Grown(old(log.errors), log.errors, ZoneBusError, BusesWellFormed(buses, b, limit))
    {
      var bus := buses[b];
      log.PushIf(|bus.src| != |bus.dst|, ZoneBusError);
      CheckBelow(bus.src, limit, log);
      CheckBelow(bus.dst, limit, log);
    }
  }

  method CheckZoneBusRules(zone: Zone, words: nat, sites: nat, log: ErrorLog)
    modifies log
    ensures Grown(old(log.errors), log.errors, ZoneBusError, ZoneBusRules(zone, words, sites))
  {
    CheckBelow(zone.wordsWithSiteBuses, words, log);
    CheckBelow(zone.sitesWithWordBuses, sites, log);
    CheckBuses(zone.siteBuses, sites, log);
    CheckBuses(zone.wordBuses, words, log);
  }

  method CheckZoneEntanglingPairs(pairs: seq<(u32, u32)>, words: nat, log: ErrorLog)
    modifies log
    ensures Grown(old(log.errors), log.errors, EntanglingPair, PairsWellFormed(pairs, |pairs|, words))
  {
    var seen: set<(u32, u32)> := {};
    for i := 0 to |pairs|
      invariant Grown(old(log.errors), log.errors, EntanglingPair, PairsWellFormed(pairs, i, words))
      invariant forall p :: p in seen <==> exists k :: 0 <= k < i && p == Normalized(pairs[k])
    {
      var (a, b) := pairs[i];
      log.PushIf(a >= words, EntanglingPair);
      log.PushIf(b >= words, EntanglingPair);
      log.PushIf(a == b, EntanglingPair);
      NormalizedMeans(pairs, i);
      log.PushIf(Normalized(pairs[i]) in seen, EntanglingPair);
      seen := seen + {Normalized(pairs[i])};
      PairsSnoc(pairs, i, words);
    }
  }

  function Normalized(p: (u32, u32)): (u32, u32) {
    if p.0 <= p.1 then p else (p.1, p.0)
  }

  lemma NormalizedMeans(pairs: seq<(u32, u32)>, i: nat)
    requires i < |pairs|
    ensures (exists k :: 0 <= k < i && Normalized(pairs[i]) == Normalized(pairs[k]))
       <==> exists k :: 0 <= k < i && SamePair(pairs[k], pairs[i])
  {
    forall k | 0 <= k < i ensures Normalized(pairs[i]) == Normalized(pairs[k]) <==> SamePair(pairs[k], pairs[i]) {
    }
  }

  lemma PairsSnoc(pairs: seq<(u32, u32)>, i: nat, words: nat)
    requires i < |pairs|
    ensures PairsWellFormed(pairs, i + 1, words)
       <==> && PairsWellFormed(pairs, i, words)
            && pairs[i].0 < words && pairs[i].1 < words && pairs[i].0 != pairs[i].1
            && !exists k :: 0 <= k < i && SamePair(pairs[k], pairs[i])
  {
  }

  method CheckRefs(refs: seq<ZonedWordRef>, zones: nat, words: nat, log: ErrorLog)
    modifies log
    ensures Grown(old(log.errors), log.errors, InterZoneBus, RefsBelow(refs, |refs|, zones, words))
  {
    for i := 0 to |refs|
      invariant Grown(old(log.errors), log.errors, InterZoneBus, RefsBelow(refs, i, zones, words))
    {
      log.PushIf(refs[i].zoneId >= zones, InterZoneBus);
      log.PushIf(refs[i].wordId >= words, InterZoneBus);
    }
  }

  method CheckCrossings(bus: Bus<ZonedWordRef>, log: ErrorLog)
    modifies log
    ensures Grown(old(log.errors), log.errors, InterZoneBus, Crosses(bus, PairCount(bus)))
  {
    var pairCount := PairCount(bus);
    for i := 0 to pairCount
      invariant Grown(old(log.errors), log.errors, InterZoneBus, Crosses(bus, i))
    {
      log.PushIf(bus.src[i].zoneId == bus.dst[i].zoneId, InterZoneBus);
    }
  }

  method CheckZoneBuses(spec: ArchSpec, log: ErrorLog)
    modifies log
    ensures Grown(old(log.errors), log.errors, InterZoneBus, ZoneBusesWellFormed(spec, |spec.zoneBuses|))
  {
    for b := 0 to |spec.zoneBuses|
      invariant Grown(old(log.errors), log.errors, InterZoneBus, ZoneBusesWellFormed(spec, b))
    {
      var bus := spec.zoneBuses[b];
      log.PushIf(|bus.src| != |bus.dst|, InterZoneBus);
      CheckRefs(bus.src, |spec.zones|, |spec.words|, log);
      CheckRefs(bus.dst, |spec.zones|, |spec.words|, log);
      CheckCrossings(bus, log);
    }
  }

  predicate ApartFromLater(spec: ArchSpec, i: nat, n: nat)
    requires i < |spec.zones| && n <= |spec.zones|
  {
    forall k :: i < k < n ==> ZonesApart(spec, i, k)
  }

  method CheckOverlapsOf(spec: ArchSpec, i: nat, log: ErrorLog)
    requires i < |spec.zones|
    modifies log
    ensures Grown(old(log.errors), log.errors, Structure, ApartFromLater(spec, i, |spec.zones|))
  {
    for j := i + 1 to |spec.zones|
      invariant Grown(old(log.errors), log.errors, Structure, ApartFromLater(spec, i, j))
    {
      log.PushIf(!ZonesApart(spec, i, j), Structure);
    }
  }

  method CheckZoneOverlap(spec: ArchSpec, log: ErrorLog)
    modifies log
    ensures Grown(old(log.errors), log.errors, Structure, NoOverlap(spec, |spec.zones|))
  {
    for i := 0 to |spec.zones|
      invariant Grown(old(log.errors), log.errors, Structure, NoOverlap(spec, i))
    {
      CheckOverlapsOf(spec, i, log);
    }
  }

  /** The loop over zones, which logs two kinds of error. */
  method CheckZones(spec: ArchSpec, log: ErrorLog)
    modifies log
    ensures forall e :: e in log.errors <==>
              e in old(log.errors)
              || (e == ZoneBusError && !AllZoneBusRules(spec, |spec.zones|))
              || (e == EntanglingPair && !AllPairRules(spec, |spec.zones|))
  {
    for z := 0 to |spec.zones|
      invariant forall e :: e in log.errors <==>
                  e in old(log.errors)
                  || (e == ZoneBusError && !AllZoneBusRules(spec, z))
                  || (e == EntanglingPair && !AllPairRules(spec, z))
    {
      var zone := spec.zones[z];
      ghost var before := log.errors;
      CheckZoneBusRules(zone, |spec.words|, SitesPerWord(spec), log);
      GrownKinds(before, log.errors, ZoneBusError, ZoneBusRules(zone, |spec.words|, SitesPerWord(spec)));
      ghost var middle := log.errors;
      CheckZoneEntanglingPairs(zone.entanglingPairs, |spec.words|, log);
      GrownKinds(middle, log.errors, EntanglingPair,
                 PairsWellFormed(zone.entanglingPairs, |zone.entanglingPairs|, |spec.words|));
    }
  }

  /** Accepts exactly the valid specs, and otherwise reports an error of each kind
      whose rules are broken and of no other kind. */
  method ValidateSpec(spec: ArchSpec) returns (r: Result<(), seq<ArchSpecError>>)
    ensures r.Ok? <==> ValidSpec(spec)
    ensures r.Err? ==>
              && (Structure in r.error <==> !StructureRules(spec))
              && (ZoneBusError in r.error <==> !AllZoneBusRules(spec, |spec.zones|))
              && (EntanglingPair in r.error <==> !AllPairRules(spec, |spec.zones|))
              && (InterZoneBus in r.error <==> !ZoneBusesWellFormed(spec, |spec.zoneBuses|))
  {
    var log := new ErrorLog();
    CheckStructure(spec, log);
    ghost var e0 := log.errors;
    CheckZones(spec, log);
    ghost var e1 := log.errors;
    CheckZoneBuses(spec, log);
    ghost var e2 := log.errors;
    GrownKinds(e1, e2, InterZoneBus, ZoneBusesWellFormed(spec, |spec.zoneBuses|));
    CheckZoneOverlap(spec, log);
    GrownKinds(e2, log.errors, Structure, NoOverlap(spec, |spec.zones|));
    if log.errors == [] {
      assert Structure !in log.errors && ZoneBusError !in log.errors;
      assert EntanglingPair !in log.errors && InterZoneBus !in log.errors;
      return Ok(());
    }
    assert log.errors[0] in log.errors;
    return Err(log.errors);
  }

  method CheckStructure(spec: ArchSpec, log: ErrorLog)
    modifies log
    requires log.errors == []
    ensures forall e :: e in log.errors <==>
              e == Structure
              && !(&& MinimumCounts(spec) && SpacingsNonNegative(spec, |spec.zones|) && GridsUniform(spec, |spec.zones|)
                   && WordsUniform(spec, |spec.words|) && WordSitesFit(spec, |spec.words|))
  {
    CheckMinimumCounts(spec, log);
    CheckNonNegativeGridSpacings(spec, log);
    CheckUniformGridDimensions(spec, log);
    CheckUniformWordSiteCounts(spec, log);
    CheckWordSiteIndices(spec, log);
    GrownKinds([], log.errors, Structure,
               && MinimumCounts(spec) && SpacingsNonNegative(spec, |spec.zones|) && GridsUniform(spec, |spec.zones|)
               && WordsUniform(spec, |spec.words|) && WordSitesFit(spec, |spec.words|));
  }
}
