/**
 * Coordinates and the interface of the line intersector that the noding
 * validator consults.
 */
module Geometry {

  /** A planar coordinate. Equality is exact and component-wise, as in the
      two-dimensional coordinate comparison the validator relies on. */
  datatype Coordinate = Coordinate(x: real, y: real)

  /** What a line intersector reports after computing the intersection of two
      segments: whether they intersect, whether the intersection is proper
      (interior to both segments), and the intersection points themselves
      (one, or two for a collinear overlap). */
  datatype IntersectionResult =
    IntersectionResult(hasIntersection: bool, isProper: bool, points: seq<Coordinate>)

  /** An assumption about the intersector, not something the validator checks:
      it reports at most two intersection points (two for a collinear overlap). */
  type Intersection = r: IntersectionResult | |r.points| <= 2
    witness IntersectionResult(false, false, [])

  /** The line intersector, as an oracle: given the endpoints p00-p01 of the
      first segment and p10-p11 of the second, it reports their intersection. */
  type LineIntersector = (Coordinate, Coordinate, Coordinate, Coordinate) -> Intersection
}
