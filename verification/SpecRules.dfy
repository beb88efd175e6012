/** The validator's rules said outright, and what each of them is good for. */
module SpecRules {
  import opened Basics
  import opened Addr
  import opened Arch
  import opened Validate
  import opened ValidSpecs
  import Lookups

  // --- The rules outright ---

  lemma StructureMeans(spec: ArchSpec)
    ensures StructureRules(spec)
       <==> && |spec.zones| > 0 && |spec.words| > 0
            && (forall z, i :: 0 <= z < |spec.zones| && 0 <= i < |spec.zones[z].grid.xSpacing| ==>
                  spec.zones[z].grid.xSpacing[i] >= 0.0)
            && (forall z, i :: 0 <= z < |spec.zones| && 0 <= i < |spec.zones[z].grid.ySpacing| ==>
                  spec.zones[z].grid.ySpacing[i] >= 0.0)
            && (forall z :: 0 <= z < |spec.zones| ==>
                  && |spec.zones[z].grid.xSpacing| == |spec.zones[0].grid.xSpacing|
                  && |spec.zones[z].grid.ySpacing| == |spec.zones[0].grid.ySpacing|)
            && (forall w :: 0 <= w < |spec.words| ==> |spec.words[w].sites| == |spec.words[0].sites|)
            && (forall w, s :: 0 <= w < |spec.words| && 0 <= s < |spec.words[w].sites| ==>
                  && spec.words[w].sites[s].0 <= |spec.zones[0].grid.xSpacing|
                  && spec.words[w].sites[s].1 <= |spec.zones[0].grid.ySpacing|)
            && (forall y, z :: 0 <= y < z < |spec.zones| ==> Apart(spec.zones[y].grid, spec.zones[z].grid))
  {
    if SpacingsNonNegative(spec, |spec.zones|) {
      forall y, z | 0 <= y < z < |spec.zones|
        ensures ZonesApart(spec, y, z) <==> Apart(spec.zones[y].grid, spec.zones[z].grid)
      {
        ApartMeans(spec.zones[y].grid, spec.zones[z].grid);
      }
      assert NoOverlap(spec, |spec.zones|)
        <==> forall y, z :: 0 <= y < z < |spec.zones| ==> Apart(spec.zones[y].grid, spec.zones[z].grid);
    }
    SpacingsMean(spec);
  }

  lemma SpacingsMean(spec: ArchSpec)
    ensures SpacingsNonNegative(spec, |spec.zones|)
       <==> && (forall z, i :: 0 <= z < |spec.zones| && 0 <= i < |spec.zones[z].grid.xSpacing| ==>
                  spec.zones[z].grid.xSpacing[i] >= 0.0)
            && (forall z, i :: 0 <= z < |spec.zones| && 0 <= i < |spec.zones[z].grid.ySpacing| ==>
                  spec.zones[z].grid.ySpacing[i] >= 0.0)
  {
  }

  /** The last point of one grid does not lie beyond the first of the other, in x or in y. */
  predicate Apart(g: Grid, h: Grid) {
    || g.xStart >= h.xStart + Sum(h.xSpacing) || h.xStart >= g.xStart + Sum(g.xSpacing)
    || g.yStart >= h.yStart + Sum(h.ySpacing) || h.yStart >= g.yStart + Sum(g.ySpacing)
  }

  lemma ApartMeans(g: Grid, h: Grid)
    requires NonNegative(g.xSpacing) && NonNegative(g.ySpacing) && NonNegative(h.xSpacing) && NonNegative(h.ySpacing)
    ensures !Overlap(BoundingBox(g), BoundingBox(h)) <==> Apart(g, h)
  {
    PrefixSums(g.xSpacing, 0);
    PrefixSums(g.ySpacing, 0);
    PrefixSums(h.xSpacing, 0);
    PrefixSums(h.ySpacing, 0);
  }

  /** The corners of the box are the first and the last point of the grid. */
  lemma BoxIsTight(g: Grid)
    requires NonNegative(g.xSpacing) && NonNegative(g.ySpacing)
    ensures XPosition(g, 0) == Some(BoundingBox(g).xMin) && XPosition(g, |g.xSpacing|) == Some(BoundingBox(g).xMax)
    ensures YPosition(g, 0) == Some(BoundingBox(g).yMin) && YPosition(g, |g.ySpacing|) == Some(BoundingBox(g).yMax)
  {
    PrefixSums(g.xSpacing, 0);
    PrefixSums(g.ySpacing, 0);
    assert g.xSpacing[..|g.xSpacing|] == g.xSpacing && g.ySpacing[..|g.ySpacing|] == g.ySpacing;
    assert g.xSpacing[..0] == [] && g.ySpacing[..0] == [];
  }

  lemma BusRulesMean(zone: Zone, words: nat, sites: nat)
    ensures ZoneBusRules(zone, words, sites)
       <==> && (forall w :: w in zone.wordsWithSiteBuses ==> w < words)
            && (forall s :: s in zone.sitesWithWordBuses ==> s < sites)
            && (forall b, i :: 0 <= b < |zone.siteBuses| && 0 <= i < |zone.siteBuses[b].src| ==>
                  zone.siteBuses[b].src[i] < sites)
            && (forall b, i :: 0 <= b < |zone.siteBuses| && 0 <= i < |zone.siteBuses[b].dst| ==>
                  zone.siteBuses[b].dst[i] < sites)
            && (forall b :: 0 <= b < |zone.siteBuses| ==> |zone.siteBuses[b].src| == |zone.siteBuses[b].dst|)
            && (forall b, i :: 0 <= b < |zone.wordBuses| && 0 <= i < |zone.wordBuses[b].src| ==>
                  zone.wordBuses[b].src[i] < words)
            && (forall b, i :: 0 <= b < |zone.wordBuses| && 0 <= i < |zone.wordBuses[b].dst| ==>
                  zone.wordBuses[b].dst[i] < words)
            && (forall b :: 0 <= b < |zone.wordBuses| ==> |zone.wordBuses[b].src| == |zone.wordBuses[b].dst|)
  {
    BusesMean(zone.siteBuses, sites);
    BusesMean(zone.wordBuses, words);
    BelowMeans(zone.wordsWithSiteBuses, words);
    BelowMeans(zone.sitesWithWordBuses, sites);
  }

  lemma BelowMeans(xs: seq<u32>, limit: nat)
    ensures AllBelow(xs, |xs|, limit) <==> forall x :: x in xs ==> x < limit
  {
    if AllBelow(xs, |xs|, limit) {
      forall x | x in xs ensures x < limit {
        var i :| 0 <= i < |xs| && xs[i] == x;
      }
    }
    if forall x :: x in xs ==> x < limit {
      forall i | 0 <= i < |xs| ensures xs[i] < limit {
        assert xs[i] in xs;
      }
    }
  }

  lemma BusesMean(buses: seq<Bus<u16>>, limit: nat)
    ensures BusesWellFormed(buses, |buses|, limit)
       <==> && (forall b, i :: 0 <= b < |buses| && 0 <= i < |buses[b].src| ==> buses[b].src[i] < limit)
            && (forall b, i :: 0 <= b < |buses| && 0 <= i < |buses[b].dst| ==> buses[b].dst[i] < limit)
            && (forall b :: 0 <= b < |buses| ==> |buses[b].src| == |buses[b].dst|)
  {
  }

  lemma ZoneBusesMean(spec: ArchSpec)
    ensures ZoneBusesWellFormed(spec, |spec.zoneBuses|)
       <==> forall b :: 0 <= b < |spec.zoneBuses| ==>
              var bus := spec.zoneBuses[b];
              && |bus.src| == |bus.dst|
              && forall i :: 0 <= i < |bus.src| ==>
                   && bus.src[i].zoneId < |spec.zones| && bus.src[i].wordId < |spec.words|
                   && bus.dst[i].zoneId < |spec.zones| && bus.dst[i].wordId < |spec.words|
                   && bus.src[i].zoneId != bus.dst[i].zoneId
  {
    forall b | 0 <= b < |spec.zoneBuses|
      ensures ZoneBusWellFormed(spec.zoneBuses[b], |spec.zones|, |spec.words|)
         <==> && |spec.zoneBuses[b].src| == |spec.zoneBuses[b].dst|
              && forall i :: 0 <= i < |spec.zoneBuses[b].src| ==>
                   && spec.zoneBuses[b].src[i].zoneId < |spec.zones| && spec.zoneBuses[b].src[i].wordId < |spec.words|
                   && spec.zoneBuses[b].dst[i].zoneId < |spec.zones| && spec.zoneBuses[b].dst[i].wordId < |spec.words|
                   && spec.zoneBuses[b].src[i].zoneId != spec.zoneBuses[b].dst[i].zoneId
    {
    }
  }

  lemma PairRulesMean(pairs: seq<(u32, u32)>, words: nat)
    ensures PairsWellFormed(pairs, |pairs|, words)
       <==> && (forall i :: 0 <= i < |pairs| ==>
                  pairs[i].0 < words && pairs[i].1 < words && pairs[i].0 != pairs[i].1)
            && (forall i, j :: 0 <= i < |pairs| && 0 <= j < |pairs| && i != j ==>
                  {pairs[i].0, pairs[i].1} != {pairs[j].0, pairs[j].1})
  {
    if forall i :: 0 <= i < |pairs| ==> pairs[i].0 != pairs[i].1 {
      forall i, j | 0 <= i < |pairs| && 0 <= j < |pairs|
        ensures SamePair(pairs[i], pairs[j]) <==> {pairs[i].0, pairs[i].1} == {pairs[j].0, pairs[j].1}
      {
        SameSets(pairs[i], pairs[j]);
      }
    }
  }

  lemma SameSets(p: (u32, u32), r: (u32, u32))
    requires p.0 != p.1
    ensures SamePair(p, r) <==> {p.0, p.1} == {r.0, r.1}
  {
    if {p.0, p.1} == {r.0, r.1} {
      assert p.0 in {r.0, r.1} && p.1 in {r.0, r.1};
    }
  }

  /** A spec is valid when its structure, every zone's buses and pairs and the zone buses are. */
  lemma ValidSpecMeans(spec: ArchSpec)
    ensures ValidSpec(spec)
       <==> && StructureRules(spec)
            && (forall z :: 0 <= z < |spec.zones| ==>
                  ZoneBusRules(spec.zones[z], |spec.words|, |spec.words[0].sites|))
            && (forall z :: 0 <= z < |spec.zones| ==>
                  PairsWellFormed(spec.zones[z].entanglingPairs, |spec.zones[z].entanglingPairs|, |spec.words|))
            && ZoneBusesWellFormed(spec, |spec.zoneBuses|)
  {
  }

  // --- What the rules are good for ---

  /** On a valid spec every entry of a zone's site bus is a lane of every listed word. */
  lemma SiteEntryIsLane(spec: ArchSpec, z: u32, b: u32, i: nat, word: u32)
    requires ValidSpec(spec) && CountsFit(spec)
    requires z < |spec.zones| && b < |spec.zones[z].siteBuses| && i < |spec.zones[z].siteBuses[b].src|
    requires word in spec.zones[z].wordsWithSiteBuses
    requires FirstAt(spec.zones[z].siteBuses[b].src, i)
    ensures i < |spec.zones[z].siteBuses[b].dst|
    ensures var bus := spec.zones[z].siteBuses[b];
            LaneEndpoints(spec, LaneAddr(Forward, SiteBus, z, word, bus.src[i], b))
              == Some((LocationAddr(z, word, bus.src[i]), LocationAddr(z, word, bus.dst[i])))
  {
    BusRulesMean(spec.zones[z], |spec.words|, SitesPerWord(spec));
    assert ZoneBusRules(spec.zones[z], |spec.words|, SitesPerWord(spec));
    var bus := spec.zones[z].siteBuses[b];
    var lane := LaneAddr(Forward, SiteBus, z, word, bus.src[i], b);
    assert Lookups.Linked(bus, bus.src[i], bus.dst[i]);
    Lookups.EndpointsMean(spec, lane, LocationAddr(z, word, bus.src[i]), LocationAddr(z, word, bus.dst[i]));
  }

  /** On a valid spec every entry of a zone's word bus is a lane at every listed site. */
  lemma WordEntryIsLane(spec: ArchSpec, z: u32, b: u32, i: nat, site: u32)
    requires ValidSpec(spec) && CountsFit(spec)
    requires z < |spec.zones| && b < |spec.zones[z].wordBuses| && i < |spec.zones[z].wordBuses[b].src|
    requires site in spec.zones[z].sitesWithWordBuses
    requires FirstAt(spec.zones[z].wordBuses[b].src, i)
    ensures i < |spec.zones[z].wordBuses[b].dst|
    ensures var bus := spec.zones[z].wordBuses[b];
            LaneEndpoints(spec, LaneAddr(Forward, WordBus, z, bus.src[i], site, b))
              == Some((LocationAddr(z, bus.src[i], site), LocationAddr(z, bus.dst[i], site)))
  {
    BusRulesMean(spec.zones[z], |spec.words|, SitesPerWord(spec));
    assert ZoneBusRules(spec.zones[z], |spec.words|, SitesPerWord(spec));
    var bus := spec.zones[z].wordBuses[b];
    var lane := LaneAddr(Forward, WordBus, z, bus.src[i], site, b);
    assert Lookups.Linked(bus, bus.src[i], bus.dst[i]);
    Lookups.EndpointsMean(spec, lane, LocationAddr(z, bus.src[i], site), LocationAddr(z, bus.dst[i], site));
  }

  /** On a valid spec every entry of a zone bus is a lane at every site. */
  lemma ZoneEntryIsLane(spec: ArchSpec, b: u32, i: nat, site: u32)
    requires ValidSpec(spec) && CountsFit(spec)
    requires b < |spec.zoneBuses| && i < |spec.zoneBuses[b].src| && site < |spec.words[0].sites|
    requires FirstAt(spec.zoneBuses[b].src, i)
    ensures i < |spec.zoneBuses[b].dst|
    ensures var s, d := spec.zoneBuses[b].src[i], spec.zoneBuses[b].dst[i];
            LaneEndpoints(spec, LaneAddr(Forward, ZoneBus, s.zoneId, s.wordId, site, b))
              == Some((LocationAddr(s.zoneId, s.wordId, site), LocationAddr(d.zoneId, d.wordId, site)))
  {
    ZoneBusesMean(spec);
    var bus := spec.zoneBuses[b];
    var s, d := bus.src[i], bus.dst[i];
    var lane := LaneAddr(Forward, ZoneBus, s.zoneId, s.wordId, site, b);
    assert Lookups.Linked(bus, s, d);
    Lookups.EndpointsMean(spec, lane, LocationAddr(s.zoneId, s.wordId, site), LocationAddr(d.zoneId, d.wordId, site));
  }

  /** On a valid spec a zone-bus lane always ends in another zone, while a site-bus lane
      stays in its zone and word, and a word-bus lane in its zone and at its site. */
  lemma LanesStayOrLeave(spec: ArchSpec, lane: LaneAddr, s: LocationAddr, d: LocationAddr)
    requires ValidSpec(spec) && LaneEndpoints(spec, lane) == Some((s, d))
    ensures lane.moveType == ZoneBus ==> s.zoneId != d.zoneId && s.siteId == d.siteId
    ensures lane.moveType == WordBus ==> s.zoneId == d.zoneId && s.siteId == d.siteId
    ensures lane.moveType == SiteBus ==> s.zoneId == d.zoneId && s.wordId == d.wordId
  {
    Lookups.EndpointsMean(spec, lane, s, d);
    if lane.moveType == ZoneBus {
      ZoneBusesMean(spec);
      var bus, far := spec.zoneBuses[lane.busId], if lane.direction == Forward then d else s;
      var x := ZonedWordRef(lane.zoneId % 0x100, lane.wordId % 0x1_0000);
      assert Lookups.Linked(bus, x, ZonedWordRef(far.zoneId, far.wordId));
    }
  }

  /** On a valid spec no word and no location is its own blockade partner, and a word
      and its partner both exist. */
  lemma PartnersDiffer(spec: ArchSpec, x: LocationAddr)
    requires ValidSpec(spec) && CzPartner(spec, x).Some?
    ensures CzPartner(spec, x) != Some(x)
    ensures x.wordId < |spec.words| && CzPartner(spec, x).value.wordId < |spec.words|
    ensures x.wordId != CzPartner(spec, x).value.wordId
  {
    var y := CzPartner(spec, x).value;
    Lookups.PartnerMeans(spec, x, y);
    var pairs := spec.zones[x.zoneId].entanglingPairs;
    PairRulesMean(pairs, |spec.words|);
    assert PairsWellFormed(pairs, |pairs|, |spec.words|);
  }

  // --- Examples on both sides of the rules ---

  /** Two zones side by side of three words of two sites, with every kind of bus; the
      zone bus has the one entry `x` to `y`, and the zones the given pairs, listed word
      and listed site. */
  function TwoZones(x: ZonedWordRef, y: ZonedWordRef, pairs: seq<(u32, u32)>, word: u32, site: u32): ArchSpec {
    ArchSpec([Word([(0, 0), (0, 1)]), Word([(1, 0), (1, 1)]), Word([(2, 0), (2, 1)])],
             [SmallZone(0.0, pairs, word, site), SmallZone(10.0, pairs, word, site)],
             [Bus([x], [y])])
  }

  function SmallZone(start: real, pairs: seq<(u32, u32)>, word: u32, site: u32): Zone {
    Zone(Grid(start, 0.0, [5.0, 5.0], [3.0]), [Bus([0], [1])], [Bus([0], [1])], [word], [site], pairs)
  }

  /** Such a spec is accepted exactly when the entry crosses from zone to zone, the pairs
      are of different words, each once, and the listed word and site exist. */
  lemma TwoZonesValidIff(x: ZonedWordRef, y: ZonedWordRef, p: (u32, u32), r: (u32, u32), word: u32, site: u32)
    ensures ValidSpec(TwoZones(x, y, [p, r], word, site))
       <==> && x.zoneId < 2 && x.wordId < 3 && y.zoneId < 2 && y.wordId < 3 && x.zoneId != y.zoneId
            && p.0 < 3 && p.1 < 3 && r.0 < 3 && r.1 < 3 && p.0 != p.1 && r.0 != r.1 && {p.0, p.1} != {r.0, r.1}
            && word < 3 && site < 2
  {
    var spec := TwoZones(x, y, [p, r], word, site);
    SmallStructure(x, y, [p, r], word, site);
    SmallZoneRules(0.0, [p, r], word, site);
    SmallZoneRules(10.0, [p, r], word, site);
    OneZoneBus(spec, x, y);
    TwoPairs(p, r);
    ValidSpecMeans(spec);
    assert spec.zones[0] == SmallZone(0.0, [p, r], word, site) && spec.zones[1] == SmallZone(10.0, [p, r], word, site);
  }

  lemma SmallStructure(x: ZonedWordRef, y: ZonedWordRef, pairs: seq<(u32, u32)>, word: u32, site: u32)
    ensures StructureRules(TwoZones(x, y, pairs, word, site))
  {
    var spec := TwoZones(x, y, pairs, word, site);
    var xs: seq<real>, ys: seq<real> := [5.0, 5.0], [3.0];
    assert xs[..1] == [5.0] && xs[..1][..0] == [] && ys[..0] == [];
    assert Sum(xs[..1]) == 5.0 && Sum(xs) == 10.0 && Sum(ys) == 3.0;
    assert Apart(spec.zones[0].grid, spec.zones[1].grid);
    StructureMeans(spec);
  }

  lemma SmallZoneRules(start: real, pairs: seq<(u32, u32)>, word: u32, site: u32)
    ensures ZoneBusRules(SmallZone(start, pairs, word, site), 3, 2) <==> word < 3 && site < 2
  {
    var zone := SmallZone(start, pairs, word, site);
    BusRulesMean(zone, 3, 2);
    assert word in zone.wordsWithSiteBuses && site in zone.sitesWithWordBuses;
  }

  lemma OneZoneBus(spec: ArchSpec, x: ZonedWordRef, y: ZonedWordRef)
    requires spec.zoneBuses == [Bus([x], [y])] && |spec.zones| == 2 && |spec.words| == 3
    ensures ZoneBusesWellFormed(spec, 1)
       <==> x.zoneId < 2 && x.wordId < 3 && y.zoneId < 2 && y.wordId < 3 && x.zoneId != y.zoneId
  {
    ZoneBusesMean(spec);
    assert spec.zoneBuses[0].src[0] == x && spec.zoneBuses[0].dst[0] == y;
  }

  lemma TwoPairs(p: (u32, u32), r: (u32, u32))
    ensures PairsWellFormed([p, r], 2, 3)
       <==> p.0 < 3 && p.1 < 3 && r.0 < 3 && r.1 < 3 && p.0 != p.1 && r.0 != r.1 && {p.0, p.1} != {r.0, r.1}
  {
    var pairs := [p, r];
    PairRulesMean(pairs, 3);
    assert pairs[0] == p && pairs[1] == r;
  }

  /** A crossing entry is accepted and carries atoms across; one that stays is refused. */
  lemma CrossingIsAcceptedStayingIsNot(site: u32)
    requires site < 2
    ensures var spec := TwoZones(ZonedWordRef(0, 0), ZonedWordRef(1, 0), [(0, 1), (1, 2)], 0, 0);
            && ValidSpec(spec)
            && LaneEndpoints(spec, LaneAddr(Forward, ZoneBus, 0, 0, site, 0))
                 == Some((LocationAddr(0, 0, site), LocationAddr(1, 0, site)))
            && LaneEndpoints(spec, LaneAddr(Forward, WordBus, 0, 0, 0, 0))
                 == Some((LocationAddr(0, 0, 0), LocationAddr(0, 1, 0)))
            && LaneEndpoints(spec, LaneAddr(Backward, SiteBus, 1, 0, 0, 0))
                 == Some((LocationAddr(1, 0, 1), LocationAddr(1, 0, 0)))
    ensures !ValidSpec(TwoZones(ZonedWordRef(0, 0), ZonedWordRef(0, 1), [(0, 1), (1, 2)], 0, 0))
  {
    var x, y := ZonedWordRef(0, 0), ZonedWordRef(1, 0);
    var spec := TwoZones(x, y, [(0, 1), (1, 2)], 0, 0);
    assert 2 in {1, 2} && 2 !in {0, 1};
    TwoZonesValidIff(x, y, (0, 1), (1, 2), 0, 0);
    TwoZonesValidIff(x, ZonedWordRef(0, 1), (0, 1), (1, 2), 0, 0);
    SmallLanes(spec, site);
  }

  lemma SmallLanes(spec: ArchSpec, site: u32)
    requires spec == TwoZones(ZonedWordRef(0, 0), ZonedWordRef(1, 0), [(0, 1), (1, 2)], 0, 0)
    requires ValidSpec(spec) && site < 2
    ensures LaneEndpoints(spec, LaneAddr(Forward, ZoneBus, 0, 0, site, 0))
         == Some((LocationAddr(0, 0, site), LocationAddr(1, 0, site)))
    ensures LaneEndpoints(spec, LaneAddr(Forward, WordBus, 0, 0, 0, 0))
         == Some((LocationAddr(0, 0, 0), LocationAddr(0, 1, 0)))
    ensures LaneEndpoints(spec, LaneAddr(Backward, SiteBus, 1, 0, 0, 0))
         == Some((LocationAddr(1, 0, 1), LocationAddr(1, 0, 0)))
  {
    ZoneEntryIsLane(spec, 0, 0, site);
    WordEntryIsLane(spec, 0, 0, 0, 0);
    SiteEntryIsLane(spec, 1, 0, 0, 0);
    FlipSwapsEndpoints(spec, LaneAddr(Forward, SiteBus, 1, 0, 0, 0));
  }
}
