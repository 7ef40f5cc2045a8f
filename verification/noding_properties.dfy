/**
 * Properties of the noding validator that relate several runs, several
 * collections or several segment pairs.
 */
module NodingProperties {
  import opened Geometry
  import opened SegmentStrings
  import opened NodingValidator

  // ---------------------------------------------------------------------------
  // Determinism: the fail-fast passes report exactly one outcome

  /** Two outcomes both allowed for the interior-point pass are the same. */
  lemma InteriorPassDeterministic(segStrings: seq<SegmentString>, r1: Outcome, r2: Outcome)
    requires InteriorPassOutcome(segStrings, r1) && InteriorPassOutcome(segStrings, r2)
    ensures r1 == r2
  {
  }

  /** Two outcomes both allowed for the proper-intersection pass are the same. */
  lemma ProperPassDeterministic(li: LineIntersector, segStrings: seq<SegmentString>, r1: Outcome, r2: Outcome)
    requires ProperPassOutcome(li, segStrings, r1) && ProperPassOutcome(li, segStrings, r2)
    ensures r1 == r2
  {
  }

  /** Validating the same unmodified collection twice gives the same outcome:
      success both times, or the same violation both times. */
  lemma ValidationDeterministic(li: LineIntersector, segStrings: seq<SegmentString>, r1: Outcome, r2: Outcome)
    requires ValidationOutcome(li, segStrings, r1) && ValidationOutcome(li, segStrings, r2)
    ensures r1 == r2
  {
  }

  // ---------------------------------------------------------------------------
  // Order independence: whether validation succeeds depends only on which
  // strings the collection holds, not on their order or repetition

  lemma {:induction false} InteriorViolationCarriesOver(s1: seq<SegmentString>, s2: seq<SegmentString>)
    requires forall x :: x in s1 ==> x in s2
    ensures HasInteriorViolation(s1) ==> HasInteriorViolation(s2)
  {
    if HasInteriorViolation(s1) {
      var i, last :| EndpointViolationAt(s1, i, last);
      var pt := Endpoint(s1[i], last);
      var i', j :| 0 <= i' < |s1| && 1 <= j < |s1[i'].coordinates| - 1 && s1[i'].coordinates[j] == pt;
      assert s1[i] in s2 && s1[i'] in s2;
      var k :| 0 <= k < |s2| && s2[k] == s1[i];
      var k' :| 0 <= k' < |s2| && s2[k'] == s1[i'];
      assert s2[k'].coordinates[j] == pt;
      assert EndpointViolationAt(s2, k, last);
    }
  }

  lemma {:induction false} ProperViolationCarriesOver(li: LineIntersector, s1: seq<SegmentString>, s2: seq<SegmentString>)
    requires forall x :: x in s1 ==> x in s2
    ensures HasProperViolation(li, s1) ==> HasProperViolation(li, s2)
  {
    if HasProperViolation(li, s1) {
      var i, j, a, b :| ProperViolationAt(li, s1, i, j, a, b);
      assert s1[i] in s2 && s1[j] in s2;
      var k :| 0 <= k < |s2| && s2[k] == s1[i];
      var k' :| 0 <= k' < |s2| && s2[k'] == s1[j];
      assert ProperViolationAt(li, s2, k, k', a, b);
    }
  }

  /** Two collections holding the same strings, in any order and with any
      repetition, both pass or both fail validation. */
  lemma {:induction false} ValidityDependsOnlyOnMembers(li: LineIntersector, s1: seq<SegmentString>, s2: seq<SegmentString>)
    requires forall x :: x in s1 <==> x in s2
    ensures HasInteriorViolation(s1) == HasInteriorViolation(s2)
    ensures HasProperViolation(li, s1) == HasProperViolation(li, s2)
  {
    InteriorViolationCarriesOver(s1, s2);
    InteriorViolationCarriesOver(s2, s1);
    ProperViolationCarriesOver(li, s1, s2);
    ProperViolationCarriesOver(li, s2, s1);
  }

  // ---------------------------------------------------------------------------
  // The interior-point pass only looks at interior coordinates

  /** Changing the first or last coordinate of any string does not change
      whether a point lies on an interior: indices 0 and n-1 are never compared. */
  lemma InteriorScanIgnoresEndpoints(pt: Coordinate, s1: seq<SegmentString>, s2: seq<SegmentString>)
    requires |s1| == |s2|
    requires forall k :: 0 <= k < |s1| ==> |s1[k].coordinates| == |s2[k].coordinates|
    requires forall k, j :: 0 <= k < |s1| && 1 <= j < |s1[k].coordinates| - 1 ==> s1[k].coordinates[j] == s2[k].coordinates[j]
    ensures LiesOnInterior(pt, s1) <==> LiesOnInterior(pt, s2)
  {
  }

  /** Strings of at most two points have no interior points, so a collection of
      them never fails the interior-point pass. */
  lemma ShortStringsPassInteriorCheck(segStrings: seq<SegmentString>)
    requires forall k :: 0 <= k < |segStrings| ==> |segStrings[k].coordinates| <= 2
    ensures !HasInteriorViolation(segStrings)
  {
  }

  // ---------------------------------------------------------------------------
  // Visiting both orientations of every segment pair

  /** The intersector answers the same, up to the order of its points, when the
      two segments are swapped. */
  ghost predicate SymmetricAt(li: LineIntersector, p00: Coordinate, p01: Coordinate, p10: Coordinate, p11: Coordinate)
  {
    var r, r' := li(p00, p01, p10, p11), li(p10, p11, p00, p01);
    r.hasIntersection == r'.hasIntersection && r.isProper == r'.isProper
      && (forall k :: 0 <= k < |r.points| ==> r.points[k] in r'.points)
  }

  /** Although each test compares intersection points only with the endpoints
      of the first segment, the pass visits both orderings of every pair. So when
      it succeeds and the intersector is symmetric on a pair of distinct segments,
      any intersection of the two is improper and lies at an endpoint of BOTH. */
  lemma {:induction false} PassingPairsMeetAtSharedEndpoints(li: LineIntersector, segStrings: seq<SegmentString>,
                                                             i: nat, a: nat, j: nat, b: nat)
    requires !HasProperViolation(li, segStrings)
    requires i < |segStrings| && j < |segStrings|
    requires a < |segStrings[i].coordinates| - 1 && b < |segStrings[j].coordinates| - 1
    requires !(segStrings[i] == segStrings[j] && a == b)
    requires SymmetricAt(li, segStrings[i].coordinates[a], segStrings[i].coordinates[a + 1],
                         segStrings[j].coordinates[b], segStrings[j].coordinates[b + 1])
    ensures var p00, p01 := segStrings[i].coordinates[a], segStrings[i].coordinates[a + 1];
            var p10, p11 := segStrings[j].coordinates[b], segStrings[j].coordinates[b + 1];
            var r := li(p00, p01, p10, p11);
            r.hasIntersection ==>
              !r.isProper && forall k :: 0 <= k < |r.points| ==> r.points[k] in {p00, p01} && r.points[k] in {p10, p11}
  {
    var p00, p01 := segStrings[i].coordinates[a], segStrings[i].coordinates[a + 1];
    var p10, p11 := segStrings[j].coordinates[b], segStrings[j].coordinates[b + 1];
    var r, r' := li(p00, p01, p10, p11), li(p10, p11, p00, p01);
    assert !ProperViolationAt(li, segStrings, i, j, a, b);
    assert !ProperViolationAt(li, segStrings, j, i, b, a);
    if r.hasIntersection {
      assert !HasInteriorPoint(r, p00, p01);
      assert !HasInteriorPoint(r', p10, p11);
      forall k | 0 <= k < |r.points|
        ensures r.points[k] in {p00, p01} && r.points[k] in {p10, p11}
      {
        assert r.points[k] in r'.points;
        var k' :| 0 <= k' < |r'.points| && r'.points[k'] == r.points[k];
      }
    }
  }
}
