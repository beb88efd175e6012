/** A set of lanes as a sorted, duplicate-free list of packed lanes. */
module MoveSets {
  import opened Basics
  import opened Addr

  datatype MoveSet = MoveSet(lanes: seq<u64>)

  ghost predicate Sorted(xs: seq<u64>) {
    forall i, j :: 0 <= i < j < |xs| ==> xs[i] <= xs[j]
  }

  /** What a move set built from packed lanes holds. */
  ghost predicate Holds(ms: MoveSet, encoded: seq<u64>) {
    StrictlyIncreasing(ms.lanes) && Elements(ms.lanes) == Elements(encoded)
  }

  function Encodings(lanes: seq<LaneAddr>): (r: seq<u64>)
    ensures |r| == |lanes|
    ensures forall i :: 0 <= i < |lanes| ==> r[i] == EncodeLaneU64(lanes[i])
  {
    seq(|lanes|, i requires 0 <= i < |lanes| => EncodeLaneU64(lanes[i]))
  }

  method New(lanes: seq<LaneAddr>) returns (ms: MoveSet)
    ensures Holds(ms, Encodings(lanes))
  {
    var encoded: seq<u64> := [];
    for i := 0 to |lanes|
      invariant encoded == Encodings(lanes)[..i]
    {
      encoded := encoded + [EncodeLaneU64(lanes[i])];
    }
    ms := FromEncoded(encoded);
  }

  method FromEncoded(encoded: seq<u64>) returns (ms: MoveSet)
    ensures Holds(ms, encoded)
  {
    var sorted := Sort(encoded);
    var distinct := Dedup(sorted);
    forall x ensures x in Elements(sorted) <==> x in Elements(encoded) {
      assert x in multiset(sorted) <==> x in multiset(encoded);
    }
    assert Elements(sorted) == Elements(encoded);
    ms := MoveSet(distinct);
  }

  /** `sort_unstable`, as an insertion sort. */
  method Sort(xs: seq<u64>) returns (r: seq<u64>)
    ensures Sorted(r) && multiset(r) == multiset(xs)
  {
    r := [];
    for i := 0 to |xs|
      invariant Sorted(r) && multiset(r) == multiset(xs[..i])
    {
      var k := |r|;
      while k > 0 && r[k - 1] > xs[i]
        invariant 0 <= k <= |r|
        invariant forall j :: k <= j < |r| ==> r[j] > xs[i]
      {
        k := k - 1;
      }
      InsertKeepsElements(r, k, xs[i]);
      assert xs[..i + 1] == xs[..i] + [xs[i]];
      r := Inserted(r, k, xs[i]);
    }
    assert xs[..|xs|] == xs;
  }

  function Inserted(r: seq<u64>, k: nat, x: u64): (s: seq<u64>)
    requires k <= |r|
    ensures |s| == |r| + 1
    ensures forall i :: 0 <= i < |s| ==> s[i] == if i < k then r[i] else if i == k then x else r[i - 1]
  {
    r[..k] + [x] + r[k..]
  }

  lemma InsertKeepsElements(r: seq<u64>, k: nat, x: u64)
    requires k <= |r|
    ensures multiset(Inserted(r, k, x)) == multiset(r) + multiset{x}
  {
    assert r == r[..k] + r[k..];
  }

  /** `dedup`: drop each element equal to the one kept before it. */
  method Dedup(xs: seq<u64>) returns (r: seq<u64>)
    requires Sorted(xs)
    ensures StrictlyIncreasing(r) && Elements(r) == Elements(xs)
  {
    r := [];
    for i := 0 to |xs|
      invariant StrictlyIncreasing(r)
      invariant r == [] <==> i == 0
      invariant i > 0 ==> r[|r| - 1] == xs[i - 1]
      invariant forall x :: x in r <==> x in xs[..i]
    {
      if r == [] || r[|r| - 1] != xs[i] {
        r := r + [xs[i]];
      }
      assert xs[..i + 1] == xs[..i] + [xs[i]];
    }
    assert xs[..|xs|] == xs;
  }

  /** None when some packed lane makes the decoder panic. */
  function DecodeAll(encoded: seq<u64>): Option<seq<LaneAddr>> {
    if encoded == [] then Some([])
    else
      match (DecodeLaneU64(encoded[0]), DecodeAll(encoded[1..]))
      case (Some(l), Some(rest)) => Some([l] + rest)
      case _ => None
  }

  function Decode(ms: MoveSet): Option<seq<LaneAddr>> {
    DecodeAll(ms.lanes)
  }

  /** Move sets are canonical: on in-range lanes, two of them are equal exactly
      when they were built from the same set of lanes. */
  lemma MoveSetIsCanonical(a: MoveSet, b: MoveSet, la: seq<LaneAddr>, lb: seq<LaneAddr>)
    requires Holds(a, Encodings(la)) && Holds(b, Encodings(lb))
    requires forall l :: l in la + lb ==> LaneInRange(l)
    ensures a == b <==> Elements(la) == Elements(lb)
  {
    EncodingsMember(la);
    EncodingsMember(lb);
    if Elements(la) == Elements(lb) {
      forall x ensures x in a.lanes <==> x in b.lanes {
        assert x in a.lanes <==> x in Elements(a.lanes);
        assert x in b.lanes <==> x in Elements(b.lanes);
        assert x in Encodings(la) <==> x in Elements(Encodings(la));
        assert x in Encodings(lb) <==> x in Elements(Encodings(lb));
        assert forall l :: l in la <==> l in Elements(la);
        assert forall l :: l in lb <==> l in Elements(lb);
      }
      SameElementsSameList(a.lanes, b.lanes);
    }
    if a == b {
      assert Elements(Encodings(la)) == Elements(Encodings(lb));
      SameEncodingsSameLanes(la, lb);
      SameEncodingsSameLanes(lb, la);
    }
  }

  lemma EncodingsMember(lanes: seq<LaneAddr>)
    ensures forall x :: x in Encodings(lanes) <==> exists l :: l in lanes && x == EncodeLaneU64(l)
  {
    forall x ensures x in Encodings(lanes) <==> exists l :: l in lanes && x == EncodeLaneU64(l) {
      if x in Encodings(lanes) {
        var i :| 0 <= i < |lanes| && Encodings(lanes)[i] == x;
        assert lanes[i] in lanes;
      }
      if l :| l in lanes && x == EncodeLaneU64(l) {
        var i :| 0 <= i < |lanes| && lanes[i] == l;
        assert Encodings(lanes)[i] == x;
      }
    }
  }

  lemma SameEncodingsSameLanes(la: seq<LaneAddr>, lb: seq<LaneAddr>)
    requires Elements(Encodings(la)) == Elements(Encodings(lb))
    requires forall l :: l in la + lb ==> LaneInRange(l)
    ensures Elements(la) <= Elements(lb)
  {
    EncodingsMember(la);
    EncodingsMember(lb);
    forall l | l in la ensures l in lb {
      var x := EncodeLaneU64(l);
      assert x in Elements(Encodings(la));
      assert x in Encodings(lb);
      var l' :| l' in lb && x == EncodeLaneU64(l');
      LaneEncodingInjective(l, l');
    }
  }

  /** Decoding a move set built from in-range lanes never panics and lists
      exactly those lanes, each once. */
  lemma DecodeListsTheLanes(ms: MoveSet, lanes: seq<LaneAddr>)
    requires Holds(ms, Encodings(lanes))
    requires forall l :: l in lanes ==> LaneInRange(l)
    ensures Decode(ms).Some?
    ensures Elements(Decode(ms).value) == Elements(lanes)
    ensures Encodings(Decode(ms).value) == ms.lanes
    ensures forall i, j :: 0 <= i < j < |Decode(ms).value| ==> Decode(ms).value[i] != Decode(ms).value[j]
  {
    EncodingsMember(lanes);
    forall x | x in ms.lanes ensures LaneCode(x) {
      assert x in Elements(ms.lanes);
      assert x in Encodings(lanes);
    }
    DecodeAllInverts(ms.lanes);
    var out := Decode(ms).value;
    SameEncodingsSameLanes(out, lanes);
    SameEncodingsSameLanes(lanes, out);
    forall i, j | 0 <= i < j < |out| ensures out[i] != out[j] {
      assert ms.lanes[i] < ms.lanes[j];
    }
  }

  /** The packed form of some in-range lane. */
  ghost predicate LaneCode(x: u64) {
    exists l :: LaneInRange(l) && x == EncodeLaneU64(l)
  }

  lemma CodeInverts(x: u64)
    requires LaneCode(x)
    ensures DecodeLaneU64(x).Some?
    ensures LaneInRange(DecodeLaneU64(x).value) && EncodeLaneU64(DecodeLaneU64(x).value) == x
  {
    var l :| LaneInRange(l) && x == EncodeLaneU64(l);
    LaneRoundTrip(l);
  }

  lemma {:induction false} DecodeAllInverts(encoded: seq<u64>)
    requires forall x :: x in encoded ==> LaneCode(x)
    ensures DecodeAll(encoded).Some?
    ensures Encodings(DecodeAll(encoded).value) == encoded
    ensures forall l :: l in DecodeAll(encoded).value ==> LaneInRange(l)
  {
    if encoded != [] {
      CodeInverts(encoded[0]);
      DecodeAllInverts(encoded[1..]);
    }
  }
}
