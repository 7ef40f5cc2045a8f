/**
 * The noding validator: checks that a collection of segment strings is
 * correctly noded, failing on the first violation it finds.
 *
 * The C++ object holds a pointer to the collection and a line intersector it
 * reuses as scratch space; here the collection and the intersector are passed
 * to every method, and the thrown exception becomes an Outcome.
 */
module NodingValidator {
  import opened Geometry
  import opened SegmentStrings

  /** The two kinds of failure, with the coordinates their messages name. */
  datatype Violation =
    | NonNodedIntersection(p00: Coordinate, p01: Coordinate, p10: Coordinate, p11: Coordinate)
    | BadNoding(pt: Coordinate)

  datatype Outcome = Pass | Fail(violation: Violation)

  // ---------------------------------------------------------------------------
  // Specification: segment pairs

  /** Some reported intersection point is neither p0 nor p1. */
  ghost predicate HasInteriorPoint(r: Intersection, p0: Coordinate, p1: Coordinate)
  {
    exists k :: 0 <= k < |r.points| && r.points[k] != p0 && r.points[k] != p1
  }

  /** Segment segIndex0 of e0 and segment segIndex1 of e1 are a violation:
      they are not the same segment of the same string, the intersector reports
      an intersection, and it is proper or has a point off the endpoints of the
      FIRST segment. The second segment's endpoints only reach the intersector. */
  ghost predicate SegmentPairViolates(li: LineIntersector, e0: SegmentString, segIndex0: int,
                                      e1: SegmentString, segIndex1: int)
  {
    && 0 <= segIndex0 < |e0.coordinates| - 1
    && 0 <= segIndex1 < |e1.coordinates| - 1
    && !(e0 == e1 && segIndex0 == segIndex1)
    && var p00, p01 := e0.coordinates[segIndex0], e0.coordinates[segIndex0 + 1];
       var r := li(p00, p01, e1.coordinates[segIndex1], e1.coordinates[segIndex1 + 1]);
       r.hasIntersection && (r.isProper || HasInteriorPoint(r, p00, p01))
  }

  /** The violation reported for a segment pair: the endpoints of both segments. */
  function SegmentPairReport(e0: SegmentString, segIndex0: nat, e1: SegmentString, segIndex1: nat): Violation
    requires segIndex0 < |e0.coordinates| - 1 && segIndex1 < |e1.coordinates| - 1
  {
    NonNodedIntersection(e0.coordinates[segIndex0], e0.coordinates[segIndex0 + 1],
                         e1.coordinates[segIndex1], e1.coordinates[segIndex1 + 1])
  }

  /** v is reported for the first violating segment pair of ss0 and ss1, in the
      order (segIndex0, segIndex1) in which the nested loops visit them. */
  ghost predicate IsFirstPairViolation(li: LineIntersector, ss0: SegmentString, ss1: SegmentString, v: Violation)
  {
    exists a: nat, b: nat ::
      && SegmentPairViolates(li, ss0, a, ss1, b)
      && v == SegmentPairReport(ss0, a, ss1, b)
      && forall a', b' :: (a' < a || (a' == a && b' < b)) ==> !SegmentPairViolates(li, ss0, a', ss1, b')
  }

  // ---------------------------------------------------------------------------
  // Specification: the proper-intersection pass

  /** Segment a of string i and segment b of string j are a violation. */
  ghost predicate ProperViolationAt(li: LineIntersector, segStrings: seq<SegmentString>, i: int, j: int, a: int, b: int)
  {
    0 <= i < |segStrings| && 0 <= j < |segStrings| && SegmentPairViolates(li, segStrings[i], a, segStrings[j], b)
  }

  ghost predicate HasProperViolation(li: LineIntersector, segStrings: seq<SegmentString>)
  {
    exists i, j, a, b :: ProperViolationAt(li, segStrings, i, j, a, b)
  }

  /** (i', j', a', b') is visited before (i, j, a, b): lexicographic order. */
  predicate VisitedBefore(i': int, j': int, a': int, b': int, i: int, j: int, a: int, b: int)
  {
    i' < i || (i' == i && (j' < j || (j' == j && (a' < a || (a' == a && b' < b)))))
  }

  /** v is reported for the first violation in visiting order. */
  ghost predicate IsFirstProperViolation(li: LineIntersector, segStrings: seq<SegmentString>, v: Violation)
  {
    exists i: nat, j: nat, a: nat, b: nat ::
      && ProperViolationAt(li, segStrings, i, j, a, b)
      && v == SegmentPairReport(segStrings[i], a, segStrings[j], b)
      && forall i', j', a', b' :: VisitedBefore(i', j', a', b', i, j, a, b) ==> !ProperViolationAt(li, segStrings, i', j', a', b')
  }

  /** The outcome of a fail-fast proper-intersection pass. */
  ghost predicate ProperPassOutcome(li: LineIntersector, segStrings: seq<SegmentString>, r: Outcome)
  {
    && (r.Pass? <==> !HasProperViolation(li, segStrings))
    && (r.Fail? ==> IsFirstProperViolation(li, segStrings, r.violation))
  }

  // ---------------------------------------------------------------------------
  // Specification: the interior-point pass

  /** pt equals an interior coordinate (index 1 .. n-2) of some string. */
  ghost predicate LiesOnInterior(pt: Coordinate, segStrings: seq<SegmentString>)
  {
    exists i, j :: 0 <= i < |segStrings| && 1 <= j < |segStrings[i].coordinates| - 1 && segStrings[i].coordinates[j] == pt
  }

  /** The first or last coordinate of string i lies on an interior point. */
  ghost predicate EndpointViolationAt(segStrings: seq<SegmentString>, i: int, last: bool)
  {
    0 <= i < |segStrings| && |segStrings[i].coordinates| > 0 && LiesOnInterior(Endpoint(segStrings[i], last), segStrings)
  }

  ghost predicate HasInteriorViolation(segStrings: seq<SegmentString>)
  {
    exists i, last :: EndpointViolationAt(segStrings, i, last)
  }

  /** v is reported for the first offending endpoint: strings in order, the
      first coordinate of a string before its last. */
  ghost predicate IsFirstInteriorViolation(segStrings: seq<SegmentString>, v: Violation)
  {
    exists i: nat, last: bool ::
      && EndpointViolationAt(segStrings, i, last)
      && v == BadNoding(Endpoint(segStrings[i], last))
      && forall i', last' :: (i' < i || (i' == i && last && !last')) ==> !EndpointViolationAt(segStrings, i', last')
  }

  /** The outcome of a fail-fast interior-point pass. */
  ghost predicate InteriorPassOutcome(segStrings: seq<SegmentString>, r: Outcome)
  {
    && (r.Pass? <==> !HasInteriorViolation(segStrings))
    && (r.Fail? ==> IsFirstInteriorViolation(segStrings, r.violation))
  }

  /** The outcome of the whole validation: the interior-point pass runs first,
      and the proper-intersection pass decides only when the first one passes. */
  ghost predicate ValidationOutcome(li: LineIntersector, segStrings: seq<SegmentString>, r: Outcome)
  {
    if HasInteriorViolation(segStrings) then InteriorPassOutcome(segStrings, r)
    else ProperPassOutcome(li, segStrings, r)
  }

  // ---------------------------------------------------------------------------
  // The validator

  /** Entry point: the interior-point check, then the proper-intersection check. */
  method CheckValid(li: LineIntersector, segStrings: seq<SegmentString>) returns (r: Outcome)
    requires NonEmptyStrings(segStrings)
    ensures r.Pass? <==> !HasInteriorViolation(segStrings) && !HasProperViolation(li, segStrings)
    ensures HasInteriorViolation(segStrings) ==> r.Fail? && r.violation.BadNoding?
    ensures ValidationOutcome(li, segStrings, r)
  {
    r := CheckNoInteriorPointsSame(segStrings);
    if r.Pass? {
      r := CheckProperIntersections(li, segStrings);
    }
  }

  /** Every ordered pair of strings, a string with itself included. */
  method CheckProperIntersections(li: LineIntersector, segStrings: seq<SegmentString>) returns (r: Outcome)
    requires NonEmptyStrings(segStrings)
    ensures r.Pass? <==> !HasProperViolation(li, segStrings)
    ensures r.Fail? ==> IsFirstProperViolation(li, segStrings, r.violation)
  {
    var n := |segStrings|;
    for i := 0 to n
      invariant forall i', j', a', b' :: i' < i ==> !ProperViolationAt(li, segStrings, i', j', a', b')
    {
      var ss0 := segStrings[i];
      for j := 0 to n
        invariant forall i', j', a', b' :: VisitedBefore(i', j', a', b', i, j, 0, 0) ==> !ProperViolationAt(li, segStrings, i', j', a', b')
      {
        var ss1 := segStrings[j];
        r := CheckStringPair(li, ss0, ss1);
        if r.Fail? {
          ghost var a: nat, b: nat :| && SegmentPairViolates(li, ss0, a, ss1, b)
                                      && r.violation == SegmentPairReport(ss0, a, ss1, b)
                                      && forall a', b' :: (a' < a || (a' == a && b' < b)) ==> !SegmentPairViolates(li, ss0, a', ss1, b');
          assert ProperViolationAt(li, segStrings, i, j, a, b);
          return;
        }
      }
    }
    r := Pass;
  }

  /** Every segment of ss0 against every segment of ss1. */
  method CheckStringPair(li: LineIntersector, ss0: SegmentString, ss1: SegmentString) returns (r: Outcome)
    requires |ss0.coordinates| > 0 && |ss1.coordinates| > 0
    ensures r.Pass? <==> forall a, b :: !SegmentPairViolates(li, ss0, a, ss1, b)
    ensures r.Fail? ==> IsFirstPairViolation(li, ss0, ss1, r.violation)
  {
    var npts0 := |ss0.coordinates|;
    var npts1 := |ss1.coordinates|;
    for i0 := 0 to npts0 - 1
      invariant forall a, b :: a < i0 ==> !SegmentPairViolates(li, ss0, a, ss1, b)
    {
      for i1 := 0 to npts1 - 1
        invariant forall a, b :: (a < i0 || (a == i0 && b < i1)) ==> !SegmentPairViolates(li, ss0, a, ss1, b)
      {
        r := CheckSegmentPair(li, ss0, i0, ss1, i1);
        if r.Fail? {
          return;
        }
      }
    }
    r := Pass;
  }

  /** One segment against another; a segment is never tested against itself. */
  method CheckSegmentPair(li: LineIntersector, e0: SegmentString, segIndex0: nat, e1: SegmentString, segIndex1: nat)
    returns (r: Outcome)
    requires segIndex0 < |e0.coordinates| - 1 && segIndex1 < |e1.coordinates| - 1
    ensures e0 == e1 && segIndex0 == segIndex1 ==> r == Pass
    ensures var p00, p01 := e0.coordinates[segIndex0], e0.coordinates[segIndex0 + 1];
            !li(p00, p01, e1.coordinates[segIndex1], e1.coordinates[segIndex1 + 1]).hasIntersection ==> r == Pass
    ensures r.Pass? <==> !SegmentPairViolates(li, e0, segIndex0, e1, segIndex1)
    ensures r.Fail? ==> r.violation == SegmentPairReport(e0, segIndex0, e1, segIndex1)
  {
    if e0 == e1 && segIndex0 == segIndex1 {
      return Pass;
    }
    var p00 := e0.coordinates[segIndex0];
    var p01 := e0.coordinates[segIndex0 + 1];
    var p10 := e1.coordinates[segIndex1];
    var p11 := e1.coordinates[segIndex1 + 1];
    var result := li(p00, p01, p10, p11);
    r := Pass;
    if result.hasIntersection {
      var proper := result.isProper;
      var interior := false;
      if !proper {
        interior := HasInteriorIntersection(result, p00, p01);
      }
      if !proper && !interior {
        // the source repeats the very same test here
        interior := HasInteriorIntersection(result, p00, p01);
      }
      if proper || interior {
        r := Fail(NonNodedIntersection(p00, p01, p10, p11));
      }
    }
  }

  /** Whether some intersection point is not an endpoint of the segment p0-p1. */
  method HasInteriorIntersection(r: Intersection, p0: Coordinate, p1: Coordinate) returns (b: bool)
    ensures b <==> HasInteriorPoint(r, p0, p1)
    // a corollary of the first clause, spelled out: on false every point is p0 or p1
    ensures !b ==> forall k :: 0 <= k < |r.points| ==> r.points[k] in {p0, p1}
  {
    var n := |r.points|;
    for i := 0 to n
      invariant forall k :: 0 <= k < i ==> r.points[k] == p0 || r.points[k] == p1
    {
      var intPt := r.points[i];
      if !(intPt == p0 || intPt == p1) {
        return true;
      }
    }
    return false;
  }

  /** Both endpoints of every string against the interior points of every string. */
  method CheckNoInteriorPointsSame(segStrings: seq<SegmentString>) returns (r: Outcome)
    requires NonEmptyStrings(segStrings)
    ensures r.Pass? <==> !HasInteriorViolation(segStrings)
    ensures r.Fail? ==> IsFirstInteriorViolation(segStrings, r.violation)
  {
    for i := 0 to |segStrings|
      invariant forall i', last :: i' < i ==> !EndpointViolationAt(segStrings, i', last)
    {
      var pts := segStrings[i].coordinates;
      r := CheckEndpointNotInterior(pts[0], segStrings);
      if r.Fail? {
        assert EndpointViolationAt(segStrings, i, false);
        return;
      }
      r := CheckEndpointNotInterior(pts[|pts| - 1], segStrings);
      if r.Fail? {
        assert EndpointViolationAt(segStrings, i, true);
        return;
      }
      assert !EndpointViolationAt(segStrings, i, false) && !EndpointViolationAt(segStrings, i, true);
    }
    r := Pass;
  }

  /** One endpoint against the interior points (indices 1 .. n-2) of every string. */
  method CheckEndpointNotInterior(testPt: Coordinate, segStrings: seq<SegmentString>) returns (r: Outcome)
    requires NonEmptyStrings(segStrings)
    ensures r.Pass? <==> !LiesOnInterior(testPt, segStrings)
    ensures r.Fail? ==> r.violation == BadNoding(testPt)
  {
    var nSegStrings := |segStrings|;
    for i := 0 to nSegStrings
      invariant forall i', j :: 0 <= i' < i && 1 <= j < |segStrings[i'].coordinates| - 1 ==> segStrings[i'].coordinates[j] != testPt
    {
      var pts := segStrings[i].coordinates;
      var npts := |pts|;
      var j := 1;
      while j < npts - 1
        invariant 1 <= j
        invariant forall j' :: 1 <= j' < j && j' < npts - 1 ==> pts[j'] != testPt
      {
        if pts[j] == testPt {
          return Fail(BadNoding(testPt));
        }
        j := j + 1;
      }
    }
    r := Pass;
  }
}
