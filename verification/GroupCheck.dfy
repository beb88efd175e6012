/** Validation of a group of lanes moved together. */
module GroupCheck {
  import opened Basics
  import opened Addr
  import opened Arch
  import Pairing
  import Validate
  import ValidSpecs

  datatype Mismatch = ZoneMismatch | BusMismatch | TypeMismatch | DirectionMismatch

  datatype LaneGroupError =
    | InvalidLane(error: LaneError)
    | DuplicateAddress(address: (u32, u32))
    | Inconsistent(mismatch: Mismatch)
    | WordNotListed(zoneId: u32, wordId: u32)
    | SiteNotListed(zoneId: u32, siteId: u32)
    | AODConstraintViolation

  // --- Consistency ---

  predicate Mismatches(a: LaneAddr, b: LaneAddr, m: Mismatch) {
    match m
    case ZoneMismatch => a.zoneId != b.zoneId
    case BusMismatch => a.busId != b.busId
    case TypeMismatch => a.moveType != b.moveType
    case DirectionMismatch => a.direction != b.direction
  }

  function LaneMismatches(first: LaneAddr, lane: LaneAddr): (r: seq<Mismatch>)
    ensures forall m :: m in r <==> Mismatches(first, lane, m)
  {
    (if first.zoneId != lane.zoneId then [ZoneMismatch] else [])
    + (if first.busId != lane.busId then [BusMismatch] else [])
    + (if first.moveType != lane.moveType then [TypeMismatch] else [])
    + (if first.direction != lane.direction then [DirectionMismatch] else [])
  }

  /** The mismatches of every later lane with the first, lane after lane. */
  function AllMismatches(lanes: seq<LaneAddr>): seq<Mismatch> {
    if |lanes| < 2 then []
    else AllMismatches(lanes[..|lanes| - 1]) + LaneMismatches(lanes[0], lanes[|lanes| - 1])
  }

  method CheckLaneGroupConsistency(lanes: seq<LaneAddr>) returns (errors: seq<Mismatch>)
    ensures errors == AllMismatches(lanes)
    ensures forall m :: m in errors <==> exists i :: 0 < i < |lanes| && Mismatches(lanes[0], lanes[i], m)
  {
    errors := [];
    if lanes == [] {
      return;
    }
    for i := 1 to |lanes|
      invariant errors == AllMismatches(lanes[..i])
      invariant forall m :: m in errors <==> exists k :: 0 < k < i && Mismatches(lanes[0], lanes[k], m)
    {
      assert lanes[..i + 1][..i] == lanes[..i];
      errors := errors + LaneMismatches(lanes[0], lanes[i]);
    }
    assert lanes[..|lanes|] == lanes;
  }

  // --- Membership ---

  predicate BadWord(spec: ArchSpec, lane: LaneAddr) {
    && lane.zoneId < |spec.zones| && lane.moveType.SiteBus?
    && lane.wordId !in spec.zones[lane.zoneId].wordsWithSiteBuses
  }

  predicate BadSite(spec: ArchSpec, lane: LaneAddr) {
    && lane.zoneId < |spec.zones| && lane.moveType.WordBus?
    && lane.siteId !in spec.zones[lane.zoneId].sitesWithWordBuses
  }

  /** The offending words and sites, each once and in increasing order. */
  method CheckLaneGroupMembership(spec: ArchSpec, lanes: seq<LaneAddr>) returns (words: seq<u32>, sites: seq<u32>)
    ensures StrictlyIncreasing(words) && StrictlyIncreasing(sites)
    ensures forall w :: w in words <==> exists i :: 0 <= i < |lanes| && BadWord(spec, lanes[i]) && lanes[i].wordId == w
    ensures forall s :: s in sites <==> exists i :: 0 <= i < |lanes| && BadSite(spec, lanes[i]) && lanes[i].siteId == s
  {
    var badWords: set<u32>, badSites: set<u32> := {}, {};
    for i := 0 to |lanes|
      invariant forall w :: w in badWords <==> exists k :: 0 <= k < i && BadWord(spec, lanes[k]) && lanes[k].wordId == w
      invariant forall s :: s in badSites <==> exists k :: 0 <= k < i && BadSite(spec, lanes[k]) && lanes[k].siteId == s
    {
      if lanes[i].zoneId >= |spec.zones| {
        continue;
      }
      var zone := spec.zones[lanes[i].zoneId];
      match lanes[i].moveType {
        case SiteBus =>
          if lanes[i].wordId !in zone.wordsWithSiteBuses {
            badWords := badWords + {lanes[i].wordId};
          }
        case WordBus =>
          if lanes[i].siteId !in zone.sitesWithWordBuses {
            badSites := badSites + {lanes[i].siteId};
          }
        case ZoneBus =>
      }
    }
    words, sites := Pairing.InOrder(badWords), Pairing.InOrder(badSites);
  }

  // --- Geometry ---

  function LanePosition(spec: ArchSpec, lane: LaneAddr): Option<(real, real)> {
    LocationPosition(spec, ForwardSource(lane))
  }

  predicate AllPositioned(spec: ArchSpec, lanes: seq<LaneAddr>) {
    forall i :: 0 <= i < |lanes| ==> LanePosition(spec, lanes[i]).Some?
  }

  function Positions(spec: ArchSpec, lanes: seq<LaneAddr>): set<(real, real)>
    requires AllPositioned(spec, lanes)
  {
    set i | 0 <= i < |lanes| :: LanePosition(spec, lanes[i]).value
  }

  function Firsts<A(==), B(==)>(s: set<(A, B)>): set<A> {
    set p | p in s :: p.0
  }

  function Seconds<A(==), B(==)>(s: set<(A, B)>): set<B> {
    set p | p in s :: p.1
  }

  function Product<A(==), B(==)>(xs: set<A>, ys: set<B>): set<(A, B)> {
    set x, y | x in xs && y in ys :: (x, y)
  }

  /** The positions are every combination of the x and y values in use. */
  predicate CompleteGrid<A(==), B(==)>(s: set<(A, B)>) {
    s == Product(Firsts(s), Seconds(s))
  }

  predicate GeometryOk(spec: ArchSpec, lanes: seq<LaneAddr>) {
    AllPositioned(spec, lanes) && CompleteGrid(Positions(spec, lanes))
  }

  lemma {:induction false} ProductSize<A, B>(xs: set<A>, ys: set<B>)
    ensures |Product(xs, ys)| == |xs| * |ys|
    decreases |xs|
  {
    if xs == {} {
      assert Product(xs, ys) == {};
    } else {
      var x :| x in xs;
      ProductSize(xs - {x}, ys);
      ColumnSize(x, ys);
      assert Product(xs, ys) == Product(xs - {x}, ys) + Product({x}, ys);
      assert Product(xs - {x}, ys) !! Product({x}, ys);
      Distribute(|xs - {x}|, |ys|);
    }
  }

  lemma Distribute(a: int, b: int)
    ensures (a + 1) * b == a * b + b
  {
  }

  lemma {:induction false} ColumnSize<A, B>(x: A, ys: set<B>)
    ensures |Product({x}, ys)| == |ys|
    decreases |ys|
  {
    if ys == {} {
      assert Product({x}, ys) == {};
    } else {
      var y :| y in ys;
      ColumnSize(x, ys - {y});
      assert Product({x}, ys) == Product({x}, ys - {y}) + {(x, y)};
    }
  }

  lemma SubsetOfSameSize<T>(a: set<T>, b: set<T>)
    requires a <= b && |a| == |b|
    ensures a == b
  {
    assert b == a + (b - a);
    assert |b - a| == 0;
  }

  /** A set of positions is a complete grid exactly when it is as large as one. */
  lemma CompleteGridIffCount<A, B>(s: set<(A, B)>)
    ensures CompleteGrid(s) <==> |s| == |Firsts(s)| * |Seconds(s)|
  {
    var full := Product(Firsts(s), Seconds(s));
    ProductSize(Firsts(s), Seconds(s));
    assert s <= full by {
      forall p | p in s ensures p in full {
        assert p == (p.0, p.1) && p.0 in Firsts(s) && p.1 in Seconds(s);
      }
    }
    if |s| == |full| {
      SubsetOfSameSize(s, full);
    }
  }

  // --- The whole check ---

  /** Index `i` is the first with its packed address. */
  predicate FirstOfCode(lanes: seq<LaneAddr>, i: int)
    requires 0 <= i < |lanes|
  {
    forall k :: 0 <= k < i ==> EncodeLane(lanes[k]) != EncodeLane(lanes[i])
  }

  ghost predicate Repeated(lanes: seq<LaneAddr>, n: nat, code: (u32, u32))
    requires n <= |lanes|
  {
    exists i, j :: 0 <= i < j < n && EncodeLane(lanes[i]) == code && EncodeLane(lanes[j]) == code
  }

  /** One of the first `n` lanes, the first with its address, has the error. */
  ghost predicate Invalid(spec: ArchSpec, lanes: seq<LaneAddr>, n: nat, e: LaneError)
    requires n <= |lanes|
  {
    exists i :: 0 <= i < n && FirstOfCode(lanes, i) && e in CheckLane(spec, lanes[i])
  }

  lemma InvalidNext(spec: ArchSpec, lanes: seq<LaneAddr>, i: nat, found: seq<LaneError>)
    requires i < |lanes| && found == CheckLane(spec, lanes[i])
    ensures forall e :: Invalid(spec, lanes, i + 1, e)
              <==> Invalid(spec, lanes, i, e) || (FirstOfCode(lanes, i) && e in found)
  {
  }

  method InvalidLanes(spec: ArchSpec, lanes: seq<LaneAddr>) returns (errors: seq<LaneError>)
    ensures forall e :: e in errors <==> Invalid(spec, lanes, |lanes|, e)
  {
    errors := [];
    var checked: set<(u32, u32)> := {};
    for i := 0 to |lanes|
      invariant forall c :: c in checked <==> exists k :: 0 <= k < i && EncodeLane(lanes[k]) == c
      invariant forall e :: e in errors <==> Invalid(spec, lanes, i, e)
    {
      var bits, found := EncodeLane(lanes[i]), CheckLane(spec, lanes[i]);
      InvalidNext(spec, lanes, i, found);
      assert bits in checked <==> !FirstOfCode(lanes, i);
      if bits !in checked {
        checked := checked + {bits};
        errors := errors + found;
      }
    }
  }

  method Duplicates(lanes: seq<LaneAddr>) returns (codes: seq<(u32, u32)>)
    ensures forall c :: c in codes <==> Repeated(lanes, |lanes|, c)
    ensures forall i, j :: 0 <= i < j < |codes| ==> codes[i] != codes[j]
  {
    codes := [];
    var seen: set<(u32, u32)>, reported: set<(u32, u32)> := {}, {};
    for i := 0 to |lanes|
      invariant forall c :: c in seen <==> exists k :: 0 <= k < i && EncodeLane(lanes[k]) == c
      invariant forall c :: c in reported <==> c in codes
      invariant forall c :: c in reported <==> Repeated(lanes, i, c)
      invariant forall k, l :: 0 <= k < l < |codes| ==> codes[k] != codes[l]
    {
      var pair := EncodeLane(lanes[i]);
      RepeatedNext(lanes, i);
      if pair !in seen {
        seen := seen + {pair};
      } else if pair !in reported {
        reported := reported + {pair};
        codes := codes + [pair];
      }
    }
  }

  lemma RepeatedNext(lanes: seq<LaneAddr>, i: nat)
    requires i < |lanes|
    ensures forall c :: Repeated(lanes, i + 1, c)
              <==> || Repeated(lanes, i, c)
                   || (c == EncodeLane(lanes[i]) && exists k :: 0 <= k < i && EncodeLane(lanes[k]) == c)
  {
    forall c
      ensures Repeated(lanes, i + 1, c)
         <==> || Repeated(lanes, i, c)
              || (c == EncodeLane(lanes[i]) && exists k :: 0 <= k < i && EncodeLane(lanes[k]) == c)
    {
    }
  }

  /** The errors a group of lanes has as a whole: it mixes buses, uses unlisted words
      or sites, or does not fill a grid. */
  predicate GroupFault(spec: ArchSpec, lanes: seq<LaneAddr>, e: LaneGroupError)
    requires lanes != []
  {
    match e
    case Inconsistent(m) => exists i :: 0 < i < |lanes| && Mismatches(lanes[0], lanes[i], m)
    case WordNotListed(z, w) =>
      z == lanes[0].zoneId && exists i :: 0 <= i < |lanes| && BadWord(spec, lanes[i]) && lanes[i].wordId == w
    case SiteNotListed(z, x) =>
      z == lanes[0].zoneId && exists i :: 0 <= i < |lanes| && BadSite(spec, lanes[i]) && lanes[i].siteId == x
    case AODConstraintViolation => !GeometryOk(spec, lanes)
    case _ => false
  }

  ghost predicate Fault(spec: ArchSpec, lanes: seq<LaneAddr>, e: LaneGroupError) {
    match e
    case InvalidLane(le) => Invalid(spec, lanes, |lanes|, le)
    case DuplicateAddress(c) => Repeated(lanes, |lanes|, c)
    case _ => |lanes| > 1 && GroupFault(spec, lanes, e)
  }

  /** Reports exactly the faults of the lanes. */
  method CheckLanes(spec: ArchSpec, lanes: seq<LaneAddr>) returns (errors: seq<LaneGroupError>)
    ensures forall e :: e in errors <==> Fault(spec, lanes, e)
    ensures errors == [] <==> forall e :: !Fault(spec, lanes, e)
  {
    var invalid := InvalidLanes(spec, lanes);
    var first := ReportInvalid(invalid);
    var codes := Duplicates(lanes);
    var second := ReportDuplicates(codes);
    errors := first + second;
    if |lanes| > 1 {
      var group := GroupErrors(spec, lanes);
      errors := errors + group;
    }
    if errors != [] {
      assert errors[0] in errors;
    }
  }

  method ReportInvalid(invalid: seq<LaneError>) returns (errors: seq<LaneGroupError>)
    ensures forall e :: e in errors <==> e.InvalidLane? && e.error in invalid
  {
    errors := [];
    for i := 0 to |invalid|
      invariant forall e :: e in errors <==> e.InvalidLane? && e.error in invalid[..i]
    {
      errors := errors + [InvalidLane(invalid[i])];
    }
  }

  method ReportDuplicates(codes: seq<(u32, u32)>) returns (errors: seq<LaneGroupError>)
    ensures forall e :: e in errors <==> e.DuplicateAddress? && e.address in codes
  {
    errors := [];
    for i := 0 to |codes|
      invariant forall e :: e in errors <==> e.DuplicateAddress? && e.address in codes[..i]
    {
      errors := errors + [DuplicateAddress(codes[i])];
    }
  }

  method ReportInconsistent(mismatches: seq<Mismatch>) returns (errors: seq<LaneGroupError>)
    ensures forall e :: e in errors <==> e.Inconsistent? && e.mismatch in mismatches
  {
    errors := [];
    for i := 0 to |mismatches|
      invariant forall e :: e in errors <==> e.Inconsistent? && e.mismatch in mismatches[..i]
    {
      errors := errors + [Inconsistent(mismatches[i])];
    }
  }

  method ReportUnlisted(zoneId: u32, words: seq<u32>, sites: seq<u32>) returns (errors: seq<LaneGroupError>)
    ensures forall e :: e in errors
              <==> || (e.WordNotListed? && e.zoneId == zoneId && e.wordId in words)
                   || (e.SiteNotListed? && e.zoneId == zoneId && e.siteId in sites)
  {
    errors := [];
    for i := 0 to |words|
      invariant forall e :: e in errors <==> e.WordNotListed? && e.zoneId == zoneId && e.wordId in words[..i]
    {
      errors := errors + [WordNotListed(zoneId, words[i])];
    }
    for i := 0 to |sites|
      invariant forall e :: e in errors
                  <==> || (e.WordNotListed? && e.zoneId == zoneId && e.wordId in words)
                       || (e.SiteNotListed? && e.zoneId == zoneId && e.siteId in sites[..i])
    {
      errors := errors + [SiteNotListed(zoneId, sites[i])];
    }
  }

  /** The checks on several lanes together. */
  method GroupErrors(spec: ArchSpec, lanes: seq<LaneAddr>) returns (errors: seq<LaneGroupError>)
    requires lanes != []
    ensures forall e :: e in errors <==> GroupFault(spec, lanes, e)
  {
    var mismatches := CheckLaneGroupConsistency(lanes);
    errors := ReportInconsistent(mismatches);
    var words, sites := CheckLaneGroupMembership(spec, lanes);
    var unlisted := ReportUnlisted(lanes[0].zoneId, words, sites);
    errors := errors + unlisted;
    if !GeometryOk(spec, lanes) {
      errors := errors + [AODConstraintViolation];
    }
  }

  // --- What acceptance means ---

  /** The lanes all resolve, are pairwise different and, when there are several,
      belong to one bus, one direction and one complete grid. */
  ghost predicate GoodGroup(spec: ArchSpec, lanes: seq<LaneAddr>) {
    && (forall i :: 0 <= i < |lanes| ==> LaneEndpoints(spec, lanes[i]).Some?)
    && (forall i, j :: 0 <= i < j < |lanes| ==> lanes[i] != lanes[j])
    && (|lanes| > 1 ==>
          && (forall i :: 0 < i < |lanes| ==> OneBus(lanes[0], lanes[i]))
          && AllPositioned(spec, lanes)
          && var s := Positions(spec, lanes); |s| == |Firsts(s)| * |Seconds(s)|)
  }

  /** Lanes of one bus, going the same way. */
  predicate OneBus(a: LaneAddr, b: LaneAddr) {
    a.zoneId == b.zoneId && a.busId == b.busId && a.moveType == b.moveType && a.direction == b.direction
  }

  /** There is a mismatch kind for each field, and for no other difference. */
  lemma MismatchesMean(a: LaneAddr, b: LaneAddr)
    ensures LaneMismatches(a, b) == [] <==> OneBus(a, b)
    ensures LaneMismatches(a, a.(zoneId := b.zoneId)) == (if a.zoneId == b.zoneId then [] else [ZoneMismatch])
    ensures LaneMismatches(a, a.(busId := b.busId)) == (if a.busId == b.busId then [] else [BusMismatch])
    ensures LaneMismatches(a, a.(moveType := b.moveType)) == (if a.moveType == b.moveType then [] else [TypeMismatch])
    ensures LaneMismatches(a, a.(direction := b.direction))
         == (if a.direction == b.direction then [] else [DirectionMismatch])
    ensures (forall m :: !Mismatches(a, b, m)) <==> OneBus(a, b)
  {
    if forall m :: !Mismatches(a, b, m) {
      assert !Mismatches(a, b, ZoneMismatch) && !Mismatches(a, b, BusMismatch);
      assert !Mismatches(a, b, TypeMismatch) && !Mismatches(a, b, DirectionMismatch);
    }
  }

  lemma AllOneBus(lanes: seq<LaneAddr>)
    ensures (exists i, m :: 0 < i < |lanes| && Mismatches(lanes[0], lanes[i], m))
       <==> !forall i :: 0 < i < |lanes| ==> OneBus(lanes[0], lanes[i])
  {
    forall i | 0 < i < |lanes|
      ensures (exists m :: Mismatches(lanes[0], lanes[i], m)) <==> !OneBus(lanes[0], lanes[i])
    {
      MismatchesMean(lanes[0], lanes[i]);
    }
  }

  /** The kinds of fault taken together. */
  ghost predicate NoErrors(spec: ArchSpec, lanes: seq<LaneAddr>) {
    && (forall i :: 0 <= i < |lanes| && FirstOfCode(lanes, i) ==> CheckLane(spec, lanes[i]) == [])
    && (forall c :: !Repeated(lanes, |lanes|, c))
    && (|lanes| > 1 ==> !GroupWrong(spec, lanes))
  }

  predicate GroupWrong(spec: ArchSpec, lanes: seq<LaneAddr>)
    requires lanes != []
  {
    || (exists i :: 0 < i < |lanes| && exists m :: Mismatches(lanes[0], lanes[i], m))
    || (exists i :: 0 <= i < |lanes| && (BadWord(spec, lanes[i]) || BadSite(spec, lanes[i])))
    || !GeometryOk(spec, lanes)
  }

  lemma GroupWrongIffFault(spec: ArchSpec, lanes: seq<LaneAddr>)
    requires lanes != []
    ensures GroupWrong(spec, lanes) <==> exists e :: GroupFault(spec, lanes, e)
  {
    forall i, m | 0 < i < |lanes| && Mismatches(lanes[0], lanes[i], m) ensures exists e :: GroupFault(spec, lanes, e) {
      assert GroupFault(spec, lanes, Inconsistent(m));
    }
    forall i | 0 <= i < |lanes| && BadWord(spec, lanes[i]) ensures exists e :: GroupFault(spec, lanes, e) {
      assert GroupFault(spec, lanes, WordNotListed(lanes[0].zoneId, lanes[i].wordId));
    }
    forall i | 0 <= i < |lanes| && BadSite(spec, lanes[i]) ensures exists e :: GroupFault(spec, lanes, e) {
      assert GroupFault(spec, lanes, SiteNotListed(lanes[0].zoneId, lanes[i].siteId));
    }
    if !GeometryOk(spec, lanes) {
      assert GroupFault(spec, lanes, AODConstraintViolation);
    }
  }

  lemma NoErrorsIffNoFault(spec: ArchSpec, lanes: seq<LaneAddr>)
    ensures NoErrors(spec, lanes) <==> forall e :: !Fault(spec, lanes, e)
  {
    if |lanes| > 1 {
      GroupWrongIffFault(spec, lanes);
    }
    if forall e :: !Fault(spec, lanes, e) {
      forall i | 0 <= i < |lanes| && FirstOfCode(lanes, i) ensures CheckLane(spec, lanes[i]) == [] {
        var found := CheckLane(spec, lanes[i]);
        if found != [] {
          assert Fault(spec, lanes, InvalidLane(found[0]));
        }
      }
      forall c ensures !Repeated(lanes, |lanes|, c) {
        assert !Fault(spec, lanes, DuplicateAddress(c));
      }
      assert |lanes| > 1 ==> forall e :: GroupFault(spec, lanes, e) ==> Fault(spec, lanes, e);
    }
  }

  /** No two lanes have the same packed address. */
  ghost predicate CodesDiffer(lanes: seq<LaneAddr>) {
    forall i, j :: 0 <= i < j < |lanes| ==> EncodeLane(lanes[i]) != EncodeLane(lanes[j])
  }

  lemma CodesDifferMeans(lanes: seq<LaneAddr>)
    ensures (forall c :: !Repeated(lanes, |lanes|, c)) <==> CodesDiffer(lanes)
    ensures CodesDiffer(lanes) ==> forall i :: 0 <= i < |lanes| ==> FirstOfCode(lanes, i)
  {
    if forall c :: !Repeated(lanes, |lanes|, c) {
      forall i, j | 0 <= i < j < |lanes| ensures EncodeLane(lanes[i]) != EncodeLane(lanes[j]) {
        assert !Repeated(lanes, |lanes|, EncodeLane(lanes[i]));
      }
    }
  }

  /** A membership error never comes alone: a clean lane is always listed. */
  lemma CleanLaneIsListed(spec: ArchSpec, lane: LaneAddr)
    requires CheckLane(spec, lane) == []
    ensures !BadWord(spec, lane) && !BadSite(spec, lane)
  {
  }

  lemma CleanLaneIsPositioned(spec: ArchSpec, lane: LaneAddr)
    requires Validate.ValidSpec(spec) && ValidSpecs.CountsFit(spec) && CheckLane(spec, lane) == []
    ensures LanePosition(spec, lane).Some?
  {
    ValidSpecs.CleanLaneStartsValid(spec, lane);
    ValidSpecs.PositionInOwnZone(spec, ForwardSource(lane));
  }

  /** On a valid spec, whatever the ids of the lanes, a group has no fault exactly when
      it is good and its packed addresses differ. Packing truncates, so lanes with ids
      too large for their fields can be refused as duplicates though they differ. */
  lemma GroupCheckIsExact(spec: ArchSpec, lanes: seq<LaneAddr>)
    requires Validate.ValidSpec(spec) && ValidSpecs.CountsFit(spec)
    ensures (forall e :: !Fault(spec, lanes, e)) <==> GoodGroup(spec, lanes) && CodesDiffer(lanes)
  {
    NoErrorsIffNoFault(spec, lanes);
    NoErrorsMeans(spec, lanes);
  }

  lemma NoErrorsMeans(spec: ArchSpec, lanes: seq<LaneAddr>)
    requires Validate.ValidSpec(spec) && ValidSpecs.CountsFit(spec)
    ensures NoErrors(spec, lanes) <==> GoodGroup(spec, lanes) && CodesDiffer(lanes)
  {
    CodesDifferMeans(lanes);
    forall i | 0 <= i < |lanes| ensures LaneEndpoints(spec, lanes[i]).Some? <==> CheckLane(spec, lanes[i]) == [] {
      ResolvesIffCheckIsClean(spec, lanes[i]);
    }
    if |lanes| > 1 && forall i :: 0 <= i < |lanes| ==> CheckLane(spec, lanes[i]) == [] {
      GroupWrongMeans(spec, lanes);
    }
  }

  /** With ids that fit their fields the good groups are exactly those without fault. */
  lemma InRangeGroupCheckIsExact(spec: ArchSpec, lanes: seq<LaneAddr>)
    requires Validate.ValidSpec(spec) && ValidSpecs.CountsFit(spec)
    requires forall l :: l in lanes ==> LaneInRange(l)
    ensures (forall e :: !Fault(spec, lanes, e)) <==> GoodGroup(spec, lanes)
  {
    GroupCheckIsExact(spec, lanes);
    forall i, j | 0 <= i < j < |lanes| ensures EncodeLane(lanes[i]) == EncodeLane(lanes[j]) <==> lanes[i] == lanes[j] {
      LaneEncodingInjective(lanes[i], lanes[j]);
    }
  }

  /** One word more than a packed word id can tell apart, all on the same two sites,
      with a site bus 0 -> 1. */
  function WideSpec(): ArchSpec {
    ArchSpec(seq(0x1_0001, i => Word([(0, 0), (1, 0)])),
             [Zone(ValidSpecs.Row(1), [Bus([0], [1])], [], [0, 0x1_0000], [], [])],
             [])
  }

  function WideLane(word: u32): LaneAddr {
    LaneAddr(Forward, SiteBus, 0, word, 0, 0)
  }

  /** A good group that is refused: two words whose ids differ by 2^16. */
  lemma AliasedWordsAreRefused()
    ensures Validate.ValidSpec(WideSpec()) && ValidSpecs.CountsFit(WideSpec())
    ensures var lanes := [WideLane(0), WideLane(0x1_0000)];
            GoodGroup(WideSpec(), lanes) && exists e :: Fault(WideSpec(), lanes, e)
  {
    var spec, a, b := WideSpec(), WideLane(0), WideLane(0x1_0000);
    WideSpecIsValid();
    WideLaneResolves(0);
    WideLaneResolves(0x1_0000);
    TruncatedWordsAlias(a, b);
    TwoOnOnePoint(spec, a, b, (0.0, 0.0));
    AliasesAreRefused(spec, a, b, EncodeLane(a));
  }

  lemma TruncatedWordsAlias(a: LaneAddr, b: LaneAddr)
    requires b == a.(wordId := b.wordId) && AsU16(a.wordId) == AsU16(b.wordId)
    ensures EncodeLane(a) == EncodeLane(b)
  {
  }

  lemma TwoOnOnePoint(spec: ArchSpec, a: LaneAddr, b: LaneAddr, p: (real, real))
    requires a != b && OneBus(a, b)
    requires LaneEndpoints(spec, a).Some? && LaneEndpoints(spec, b).Some?
    requires LanePosition(spec, a) == Some(p) && LanePosition(spec, b) == Some(p)
    ensures GoodGroup(spec, [a, b])
  {
    PositionsOfTwo(spec, a, b, p);
    OnePointIsGrid(p);
  }

  lemma PositionsOfTwo(spec: ArchSpec, a: LaneAddr, b: LaneAddr, p: (real, real))
    requires LanePosition(spec, a) == Some(p) && LanePosition(spec, b) == Some(p)
    ensures AllPositioned(spec, [a, b]) && Positions(spec, [a, b]) == {p}
  {
    var lanes := [a, b];
    assert LanePosition(spec, lanes[0]).value in Positions(spec, lanes);
  }

  lemma OnePointIsGrid(p: (real, real))
    ensures |{p}| == |Firsts({p})| * |Seconds({p})|
  {
    assert Firsts({p}) == {p.0} && Seconds({p}) == {p.1};
  }

  lemma AliasesAreRefused(spec: ArchSpec, a: LaneAddr, b: LaneAddr, code: (u32, u32))
    requires EncodeLane(a) == code && EncodeLane(b) == code
    ensures exists e :: Fault(spec, [a, b], e)
  {
    var lanes := [a, b];
    assert EncodeLane(lanes[0]) == code && EncodeLane(lanes[1]) == code;
    assert Repeated(lanes, 2, code);
    assert Fault(spec, lanes, DuplicateAddress(code));
  }

  lemma WideSpecIsValid()
    ensures Validate.ValidSpec(WideSpec()) && ValidSpecs.CountsFit(WideSpec())
  {
    var spec := WideSpec();
    assert Validate.ZoneBusRules(spec.zones[0], 0x1_0001, 2);
    assert Validate.WordSitesFit(spec, 0x1_0001);
  }

  lemma WideLaneResolves(word: u32)
    requires word == 0 || word == 0x1_0000
    ensures LaneEndpoints(WideSpec(), WideLane(word)) == Some((LocationAddr(0, word, 0), LocationAddr(0, word, 1)))
    ensures LanePosition(WideSpec(), WideLane(word)) == Some((0.0, 0.0))
  {
    var bus: Bus<u16> := Bus([0], [1]);
    assert ResolveForward(bus, 0) == Some(1);
    ValidSpecs.SiteLaneResolves(WideSpec(), WideLane(word), bus, 1);
  }

  lemma GroupWrongMeans(spec: ArchSpec, lanes: seq<LaneAddr>)
    requires Validate.ValidSpec(spec) && ValidSpecs.CountsFit(spec) && |lanes| > 1
    requires forall i :: 0 <= i < |lanes| ==> CheckLane(spec, lanes[i]) == []
    ensures AllPositioned(spec, lanes)
    ensures var s := Positions(spec, lanes);
            !GroupWrong(spec, lanes)
            <==> (forall i :: 0 < i < |lanes| ==> OneBus(lanes[0], lanes[i])) && |s| == |Firsts(s)| * |Seconds(s)|
  {
    AllOneBus(lanes);
    CleanLanesArePositioned(spec, lanes);
    CompleteGridIffCount(Positions(spec, lanes));
  }

  lemma CleanLanesArePositioned(spec: ArchSpec, lanes: seq<LaneAddr>)
    requires Validate.ValidSpec(spec) && ValidSpecs.CountsFit(spec)
    requires forall i :: 0 <= i < |lanes| ==> CheckLane(spec, lanes[i]) == []
    ensures AllPositioned(spec, lanes)
    ensures forall i :: 0 <= i < |lanes| ==> !BadWord(spec, lanes[i]) && !BadSite(spec, lanes[i])
  {
    forall i | 0 <= i < |lanes|
      ensures LanePosition(spec, lanes[i]).Some? && !BadWord(spec, lanes[i]) && !BadSite(spec, lanes[i])
    {
      CleanLaneIsListed(spec, lanes[i]);
      CleanLaneIsPositioned(spec, lanes[i]);
    }
  }
}
