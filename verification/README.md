# Noding validator

A Dafny model of the GEOS noding validator (`NodingValidator`). Given a
collection of segment strings (polylines produced by a noder), it checks that
the collection is correctly noded and throws on the first violation it finds.
It makes two passes, in this order:

1. **Interior-point pass.** The first and last coordinate of every string is
   compared exactly with the interior vertices (indices `1 .. n-2`) of every
   string, the string itself included.
2. **Proper-intersection pass.** Every ordered pair of strings, a string with
   itself included, and every pair of their segments is handed to a line
   intersector. A segment is never tested against itself. A pair is a violation
   when the intersector reports an intersection that is proper, or one with a
   point that is neither endpoint of the *first* segment. The source makes that
   endpoint test twice with the same arguments, so the second segment's
   endpoints never take part in it. The model keeps this as written.

Files and modules:

- `geometry.dfy` (`Geometry`): `Coordinate`, the `IntersectionResult` the
  intersector reports, and `LineIntersector`, the intersector as a function
  parameter that may report at most two points.
- `segment_string.dfy` (`SegmentStrings`): `SegmentString`, a class with a
  constant coordinate sequence. The source compares strings by pointer
  (`e0 == e1`), so the model compares them by reference. The same string may
  appear twice in a collection, as it can in the C++ vector.
- `noding_validator.dfy` (`NodingValidator`): the specification predicates
  and the validator's methods. Each method has the loops of the C++ function it
  models and exits early with `Fail(...)` where the source throws.
  - The specification states each pass as an existential over indices:
    `HasInteriorViolation` and `HasProperViolation`.
  - It states which violation is reported as the lexicographically first one in
    loop order: `IsFirstInteriorViolation` and `IsFirstProperViolation`.
  - `ValidationOutcome` combines the two passes.
- `noding_properties.dfy` (`NodingProperties`): properties that relate several
  runs, collections or segment pairs. These are determinism, order
  independence, the endpoint-blindness of the interior scan, and what visiting
  both orientations of every pair achieves.
- `noding_scenarios.dfy` (`NodingScenarios`): concrete two-string
  configurations. In each, the intersector is constrained only on the pairs
  involved.

The validator's methods have no `modifies` clause and a string's coordinates
are `const`, so the model never changes its input.

Three behaviours of the code that are easy to misread:

- The code runs the interior-point pass first (`checkValid`, lines 21-26). So
  when both kinds of violation exist, the interior-point one is reported.
- The interior-point pass compares vertices only. An endpoint that touches
  another string between two of its vertices (A = (0,0)-(2,0),
  B = (1,0)-(1,1)) passes it. Such a touch is caught by the intersection pass,
  provided the intersector reports the touching point
  (`NonVertexTouchCaughtByIntersectionPass`).
- The test for a point off the segment's endpoints looks only at the first
  segment, not at "either" segment. Lemma `PassingPairsMeetAtSharedEndpoints`
  shows what the pass still guarantees: both orientations of every pair are
  visited, so with an intersector that is symmetric on a pair, a passing
  collection's intersections lie at endpoints of both segments.

## Model

| member | source | states |
|---|---|---|
| `NodingValidator.CheckValid` | source/noding/NodingValidator.cpp:21-26 | succeeds iff neither pass finds a violation; when an interior-point violation exists it is the one reported (a `BadNoding`), otherwise the first proper-intersection violation is |
| `NodingValidator.CheckProperIntersections` | source/noding/NodingValidator.cpp:29-39 | succeeds iff no string pair (i, j), i == j included, has a violating segment pair; on failure reports the violation of the first violating (i, j, segIndex0, segIndex1) in loop order |
| `NodingValidator.CheckStringPair` | source/noding/NodingValidator.cpp:41-54 | visits segment indices 0 .. n0-2 of ss0 against 0 .. n1-2 of ss1; succeeds iff no such segment pair violates; on failure reports the first violating pair in (segIndex0, segIndex1) order |
| `NodingValidator.CheckSegmentPair` | source/noding/NodingValidator.cpp:56-74 | passes when both arguments are the same string and the same segment index; otherwise fails iff the intersector reports an intersection that is proper or has a point off p00-p01; the second segment's endpoints enter only the intersector call; the failure names p00, p01, p10, p11 |
| `NodingValidator.HasInteriorIntersection` | source/noding/NodingValidator.cpp:76-91 | true iff some reported intersection point equals neither p0 nor p1; when false, every point is p0 or p1 (so false with no points) |
| `NodingValidator.CheckNoInteriorPointsSame` | source/noding/NodingValidator.cpp:93-103 | succeeds iff no string's first or last coordinate equals an interior vertex of any string (itself included); on failure reports the first offending endpoint, strings in order and first coordinate before last |
| `NodingValidator.CheckEndpointNotInterior` | source/noding/NodingValidator.cpp:105-120 | fails iff testPt equals coordinate j of some string with 1 <= j <= n-2, and then reports testPt |
| `NodingProperties.InteriorPassDeterministic` | source/noding/NodingValidator.cpp:93-120 | the interior-point pass has exactly one admissible outcome: the first offending endpoint is unique |
| `NodingProperties.ProperPassDeterministic` | source/noding/NodingValidator.cpp:29-74 | the proper-intersection pass has exactly one admissible outcome: the first violating segment pair in loop order is unique |
| `NodingProperties.ValidationDeterministic` | source/noding/NodingValidator.cpp:21-26 | validating the same input twice gives the same outcome: success, or the same violation |
| `NodingProperties.InteriorViolationCarriesOver` | source/noding/NodingValidator.cpp:93-120 | an interior-point violation in a collection remains one in any collection holding all its strings |
| `NodingProperties.ProperViolationCarriesOver` | source/noding/NodingValidator.cpp:29-74 | a proper-intersection violation in a collection remains one in any collection holding all its strings |
| `NodingProperties.ValidityDependsOnlyOnMembers` | source/noding/NodingValidator.cpp:21-120 | whether either pass fails depends only on which strings the collection holds, not on their order or repetition |
| `NodingProperties.InteriorScanIgnoresEndpoints` | source/noding/NodingValidator.cpp:113-118 | the per-point scan never reads index 0 or n-1 of a string: collections that differ only there give the same answer for every point |
| `NodingProperties.ShortStringsPassInteriorCheck` | source/noding/NodingValidator.cpp:113-118 | strings of at most two points have no interior vertices, so a collection of them never fails the interior-point pass |
| `NodingProperties.PassingPairsMeetAtSharedEndpoints` | source/noding/NodingValidator.cpp:29-74 | when the proper-intersection pass succeeds, any two distinct segments on which the intersector is symmetric intersect, if at all, improperly and only at points that are endpoints of both |
| `NodingScenarios.EndpointTouchIsValid` | source/noding/NodingValidator.cpp:56-74 | two single-segment strings sharing one endpoint, reported as an improper intersection at that endpoint, pass both passes |
| `NodingScenarios.SingleStringPasses` | source/noding/NodingValidator.cpp:56-74 | a single three-point string whose two adjacent segments are reported to meet improperly at their shared vertex passes both passes: a segment is never tested against itself |
| `NodingScenarios.ProperCrossingIsInvalid` | source/noding/NodingValidator.cpp:56-74 | (0,0)-(10,0) crossing (5,-5)-(5,5), reported proper, fails with the violation naming (0,0), (10,0), (5,-5), (5,5) in that order |
| `NodingScenarios.NonVertexTouchCaughtByIntersectionPass` | source/noding/NodingValidator.cpp:105-120 | an endpoint touching another string between its vertices passes the interior-point pass and fails the intersection pass when the touching point is reported |
| `NodingScenarios.CollinearOverlapIsInvalid` | source/noding/NodingValidator.cpp:67-72 | collinear overlapping segments, reported improper with two points, one off the first segment's endpoints, fail the intersection pass |
| `NodingScenarios.EndpointOnInteriorVertexIsReported` | source/noding/NodingValidator.cpp:21-26 | an endpoint on another string's interior vertex is the reported violation (`BadNoding` at that point) whatever the intersector reports |

## Left out

- The line intersector's computation (robust floating-point segment
  intersection, and the proper/improper classification) is not part of this
  model. It is a parameter: any function reporting at most two points.
- Coordinates are pairs of exact reals compared component-wise. Floating-point
  values, NaN, the z ordinate and `Coordinate::toString` are not modelled.
- The exception messages are not built. A violation carries the coordinates its
  message would name: the two segments' endpoints, or the offending point.
- The shared `li` member, which the source reuses as scratch space, is not
  modelled. The intersector is called per segment pair and is a pure function,
  so both endpoint tests see the same result, as they do in the source.
- `SegmentString` and `CoordinateSequence` are reduced to an object with a
  constant coordinate sequence. The collection is a sequence of such objects.
- The per-point overload receives the collection as `aSegStrings` but scans the
  member `segStrings`. Its only caller passes that same member, so the model
  passes the collection once.
- The model requires every string to hold at least one coordinate
  (`NonEmptyStrings`). On an empty string the source's unsigned `size() - 1`
  wraps around and reads out of bounds. Strings of one point are accepted and
  handled as the code handles them: they have no segments and no interior.
- The fixed-width size arithmetic is not modelled; sizes are unbounded. This
  covers the `(int)` casts of the collection size at lines 32 and 34 and the
  narrowing of sizes to `unsigned int` at lines 46-47, 109 and 113.
- The commented-out `numTests` counter and the revision log are not modelled.
- Properties that depend on the intersector's geometry are not stated for all
  intersectors. They are stated only in the scenario lemmas, for
  configurations where the intersector's answers are given; a single string
  without self-intersections is one of them (`SingleStringPasses`).
