/**
 * Small configurations of two segment strings and what the validator makes of
 * them. The line intersector stays an oracle: each lemma states only what it
 * must report for the segment pairs involved.
 */
module NodingScenarios {
  import opened Geometry
  import opened SegmentStrings
  import opened NodingValidator
  import NodingProperties

  /** Two single-segment strings that meet at one shared endpoint are correctly
      noded, when the intersector reports that endpoint as an improper
      intersection in both orderings. */
  lemma EndpointTouchIsValid(li: LineIntersector, a: SegmentString, b: SegmentString)
    requires a.coordinates == [Coordinate(0.0, 0.0), Coordinate(1.0, 0.0)]
    requires b.coordinates == [Coordinate(1.0, 0.0), Coordinate(1.0, 1.0)]
    requires li(Coordinate(0.0, 0.0), Coordinate(1.0, 0.0), Coordinate(1.0, 0.0), Coordinate(1.0, 1.0)) == IntersectionResult(true, false, [Coordinate(1.0, 0.0)])
    requires li(Coordinate(1.0, 0.0), Coordinate(1.0, 1.0), Coordinate(0.0, 0.0), Coordinate(1.0, 0.0)) == IntersectionResult(true, false, [Coordinate(1.0, 0.0)])
    ensures !HasInteriorViolation([a, b]) && !HasProperViolation(li, [a, b])
  {
  }

  /** A single string whose two adjacent segments meet only at their shared
      vertex, reported as an improper intersection there in both orderings,
      passes both passes: each segment is skipped against itself. */
  lemma SingleStringPasses(li: LineIntersector, a: SegmentString)
    requires a.coordinates == [Coordinate(0.0, 0.0), Coordinate(1.0, 0.0), Coordinate(1.0, 1.0)]
    requires li(Coordinate(0.0, 0.0), Coordinate(1.0, 0.0), Coordinate(1.0, 0.0), Coordinate(1.0, 1.0))
             == IntersectionResult(true, false, [Coordinate(1.0, 0.0)])
    requires li(Coordinate(1.0, 0.0), Coordinate(1.0, 1.0), Coordinate(0.0, 0.0), Coordinate(1.0, 0.0))
             == IntersectionResult(true, false, [Coordinate(1.0, 0.0)])
    ensures !HasInteriorViolation([a]) && !HasProperViolation(li, [a])
  {
    var s := [a];
    // the only interior vertex is (1,0), which is neither endpoint
    forall last: bool
      ensures !LiesOnInterior(Endpoint(a, last), s)
    {
      assert Endpoint(a, last) != a.coordinates[1];
    }
  }

  /** Two segments crossing in both interiors, reported proper by the
      intersector, fail validation, and the violation names the first string's
      segment followed by the second's. */
  lemma ProperCrossingIsInvalid(li: LineIntersector, a: SegmentString, b: SegmentString, r: Outcome)
    requires a.coordinates == [Coordinate(0.0, 0.0), Coordinate(10.0, 0.0)]
    requires b.coordinates == [Coordinate(5.0, -5.0), Coordinate(5.0, 5.0)]
    requires li(Coordinate(0.0, 0.0), Coordinate(10.0, 0.0), Coordinate(5.0, -5.0), Coordinate(5.0, 5.0)).hasIntersection
    requires li(Coordinate(0.0, 0.0), Coordinate(10.0, 0.0), Coordinate(5.0, -5.0), Coordinate(5.0, 5.0)).isProper
    requires ValidationOutcome(li, [a, b], r)
    ensures r == Fail(NonNodedIntersection(Coordinate(0.0, 0.0), Coordinate(10.0, 0.0), Coordinate(5.0, -5.0), Coordinate(5.0, 5.0)))
  {
    var s := [a, b];
    NodingProperties.ShortStringsPassInteriorCheck(s);
    assert a != b by { assert a.coordinates != b.coordinates; }
    assert ProperViolationAt(li, s, 0, 1, 0, 0);
    var v := SegmentPairReport(a, 0, b, 0);
    forall i', j', x', y' | VisitedBefore(i', j', x', y', 0, 1, 0, 0)
      ensures !ProperViolationAt(li, s, i', j', x', y')
    {
    }
    assert IsFirstProperViolation(li, s, v);
    NodingProperties.ProperPassDeterministic(li, s, r, Fail(v));
  }

  /** An endpoint of one string touching the other between its vertices is NOT
      caught by the interior-point pass, which compares vertices only; it fails
      validation through the intersection pass when the intersector reports the
      touching point. */
  lemma NonVertexTouchCaughtByIntersectionPass(li: LineIntersector, a: SegmentString, b: SegmentString)
    requires a.coordinates == [Coordinate(0.0, 0.0), Coordinate(2.0, 0.0)]
    requires b.coordinates == [Coordinate(1.0, 0.0), Coordinate(1.0, 1.0)]
    requires li(Coordinate(0.0, 0.0), Coordinate(2.0, 0.0), Coordinate(1.0, 0.0), Coordinate(1.0, 1.0)) == IntersectionResult(true, false, [Coordinate(1.0, 0.0)])
    ensures !HasInteriorViolation([a, b])
    ensures HasProperViolation(li, [a, b])
  {
    var s := [a, b];
    NodingProperties.ShortStringsPassInteriorCheck(s);
    assert a != b by { assert a.coordinates != b.coordinates; }
    var touch := li(Coordinate(0.0, 0.0), Coordinate(2.0, 0.0), Coordinate(1.0, 0.0), Coordinate(1.0, 1.0));
    assert touch.points[0] != Coordinate(0.0, 0.0) && touch.points[0] != Coordinate(2.0, 0.0);
    assert ProperViolationAt(li, s, 0, 1, 0, 0);
  }

  /** Two collinear overlapping segments: the intersector reports an improper
      intersection with two points, one of which is not an endpoint of the first
      segment, so validation fails. */
  lemma CollinearOverlapIsInvalid(li: LineIntersector, a: SegmentString, b: SegmentString)
    requires a.coordinates == [Coordinate(0.0, 0.0), Coordinate(2.0, 0.0)]
    requires b.coordinates == [Coordinate(1.0, 0.0), Coordinate(3.0, 0.0)]
    requires li(Coordinate(0.0, 0.0), Coordinate(2.0, 0.0), Coordinate(1.0, 0.0), Coordinate(3.0, 0.0)) == IntersectionResult(true, false, [Coordinate(1.0, 0.0), Coordinate(2.0, 0.0)])
    ensures !HasInteriorViolation([a, b])
    ensures HasProperViolation(li, [a, b])
  {
    var s := [a, b];
    NodingProperties.ShortStringsPassInteriorCheck(s);
    assert a != b by { assert a.coordinates != b.coordinates; }
    var overlap := li(Coordinate(0.0, 0.0), Coordinate(2.0, 0.0), Coordinate(1.0, 0.0), Coordinate(3.0, 0.0));
    assert overlap.points[0] != Coordinate(0.0, 0.0) && overlap.points[0] != Coordinate(2.0, 0.0);
    assert ProperViolationAt(li, s, 0, 1, 0, 0);
  }

  /** An endpoint that coincides with an interior vertex of another string fails
      the interior-point pass, whatever the intersector says, and that pass runs
      first, so it is the violation reported. */
  lemma EndpointOnInteriorVertexIsReported(li: LineIntersector, a: SegmentString, b: SegmentString, r: Outcome)
    requires a.coordinates == [Coordinate(0.0, 0.0), Coordinate(1.0, 0.0), Coordinate(2.0, 0.0)]
    requires b.coordinates == [Coordinate(1.0, 0.0), Coordinate(1.0, 1.0)]
    requires ValidationOutcome(li, [a, b], r)
    ensures r == Fail(BadNoding(Coordinate(1.0, 0.0)))
  {
    var s := [a, b];
    assert s[0].coordinates[1] == Coordinate(1.0, 0.0);
    assert LiesOnInterior(Endpoint(s[1], false), s);
    assert EndpointViolationAt(s, 1, false);
    assert !LiesOnInterior(Endpoint(s[0], false), s) by {
      if LiesOnInterior(Endpoint(s[0], false), s) {
        var i, j :| 0 <= i < |s| && 1 <= j < |s[i].coordinates| - 1 && s[i].coordinates[j] == Coordinate(0.0, 0.0);
      }
    }
    assert !LiesOnInterior(Endpoint(s[0], true), s) by {
      if LiesOnInterior(Endpoint(s[0], true), s) {
        var i, j :| 0 <= i < |s| && 1 <= j < |s[i].coordinates| - 1 && s[i].coordinates[j] == Coordinate(2.0, 0.0);
      }
    }
    assert IsFirstInteriorViolation(s, BadNoding(Coordinate(1.0, 0.0)));
    NodingProperties.InteriorPassDeterministic(s, r, Fail(BadNoding(Coordinate(1.0, 0.0))));
  }
}
