/**
 * Segment strings: the polyline fragments produced by a noder.
 */
module SegmentStrings {
  import opened Geometry

  /** A segment string is an object referred to by pointer; the validator only
      reads its coordinates and compares strings by identity. */
  class SegmentString {
    const coordinates: seq<Coordinate>

    constructor (pts: seq<Coordinate>)
      ensures coordinates == pts
    {
      coordinates := pts;
    }
  }

  /** Every string holds at least one coordinate. The validator computes
      `size() - 1` on unsigned sizes, so an empty string would make it read out
      of bounds; noders always produce strings of two or more points. */
  predicate NonEmptyStrings(segStrings: seq<SegmentString>)
  {
    forall k :: 0 <= k < |segStrings| ==> |segStrings[k].coordinates| > 0
  }

  /** The first (last == false) or last (last == true) coordinate of a string. */
  function Endpoint(ss: SegmentString, last: bool): Coordinate
    requires |ss.coordinates| > 0
  {
    if last then ss.coordinates[|ss.coordinates| - 1] else ss.coordinates[0]
  }
}
