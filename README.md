# RFC 7946 engine of geojson-jackson, in Dafny

This project models the part of the geojson-jackson library that applies
RFC 7946 to GeoJSON objects, and proves properties of that model:

- **Ring orientation** (`PolygonOrientationUtils`, section 3.1.6 of RFC 7946):
  - the shoelace winding test `isCounterClockwise`;
  - `reverseRing`, which reverses a ring in place while keeping its last position;
  - `ensureRingClosed` and `validateRingClosed`;
  - `validatePolygonOrientation` and `fixPolygonOrientation` over the rings of a polygon.
    The exterior ring must be counterclockwise and every hole clockwise.
- **Antimeridian handling** (`AntimeridianUtils`, section 3.1.9 of RFC 7946):
  - longitude normalisation by a truncated remainder;
  - the crossing test and the choice of the +180 or -180 meridian;
  - the clamped latitude interpolation;
  - cutting a LineString into a MultiLineString;
  - cutting a ring into an east and a west half;
  - cutting a Polygon into a MultiPolygon of two polygons that share out the holes.
- **The processor** (`GeoJsonProcessor`): a recursive walk over Polygon,
  LineString, Feature, FeatureCollection and GeometryCollection.
  - It fixes orientation when `autoFixPolygonOrientation` is set.
  - It cuts at the antimeridian when `cutAntimeridian` is set.
- **The configuration** (`GeoJsonConfig`): four switches held by a mutable object with fluent setters.
- **Polygon**: a mutable ring list that runs fixing and then validation after every `add`, `addInteriorRing` and `setExteriorRing`.
- **Geometry**: the mutable coordinate list of the `Geometry` base class (`add`, `setCoordinates`, `equals`).
  In the library `Polygon` extends `Geometry`; in the model `Polygons.Polygon` keeps its own `coordinates` field and does not use `Geometries.Geometry`.

`GeoJsonUtils` repeats the orientation and antimeridian functions and the
processor line for line (`src/main/java/org/geojson/GeoJsonUtils.java:23-229`,
`:240-576` and `:613-724`). The model defines each algorithm once. Every
statement below about `AntimeridianUtils`, `PolygonOrientationUtils` or
`GeoJsonProcessor` holds unchanged for the copy.

## How the model is built

- **Coordinates** are `real`.
  - Java's `%` on doubles truncates toward zero, so `x % 360` is written out as
    `x - 360 * trunc(x / 360)` (`Antimeridian.Remainder360`).
  - `Math.signum` is a three-valued `Antimeridian.Signum`.
- **Exceptions** become values:
  - `Failures.Outcome` (`Pass` / `Fail`) and `Failures.Result` (`Ok` / `Err`);
  - one `Failure` constructor per throw site;
  - `Failures.Message` gives each failure's exact exception text.
- **Ring lists mutated in place** become values.
  - `validatePolygonOrientation` writes closed rings back into the list.
  - `fixPolygonOrientation` closes and reverses the ring objects themselves.
  - Functions such as `PolygonOrientation.ValidationFrom` and `PolygonOrientation.FixFrom`
    return a `RingsOutcome`: the state of every ring after the call, together with how the call ended.
  - The rings a caller holds after an exception from fixing or validation are therefore modelled as well.
  - For the processor, `GeoJsonProcessing.InputAfter` gives the object the caller passed in as each call leaves it, whether the call returns or throws.
- **The imperative code keeps its form.**
  - `reverseRing` is a two-index swapping loop over an `array`.
  - The loops of validate, fix, cut and process are `while` loops.
  - Each is proved equal to the function that specifies it.
  - `Polygon`, `Geometry` and `GeoJsonConfig` are classes whose methods modify their fields.
- **The trigonometry of `calculateAverageLongitude`** (cosine, sine, atan2) is a parameter:
  - `meanDirection: seq<real> -> real` receives the normalised longitudes;
  - only the sign of the normalised result matters, because it decides the side a hole goes to.
- **Processor inputs and outputs.** The processor works on a `GeoJson` datatype.
  - "The same object is returned" becomes "the same value is returned".
  - A Feature keeps its properties and identifier.
- **The holes loop of `cutPolygonAtAntimeridian`** (`RingCutting.SortHoles`) receives `RingCut` as a ghost function parameter.
  - Its specification `HoleSides` is stated for any ring cutting that gives one or two parts.
  - The parameter is always `RingCut`. This only keeps the proof small and changes nothing about what is modelled.

### Behaviour of the code worth knowing

- `GeoJsonConfig(true)` and `rfc7946()` leave `warnOnCrsUse` at its initial value `true`.
- `normalizeLongitude` returns values in the closed range [-180, 180]: 180 maps to 180, -180 to -180 and 540 to 180.
- `cutRingAtAntimeridian` can throw.
  - It closes each half through `ensureRingClosed`, which rejects a half of one or two positions.
  - `CuttingScenarios.NarrowWestHalfCannotBeClosed` exhibits a closed ring of four positions whose cut throws.
  - Its documentation (`src/main/java/org/geojson/util/AntimeridianUtils.java:283-288`) promises one or two rings and names no exception.
- The special case of `interpolateLatitude` for the pair (170, -170) changes the result in one direction only.
  - From 170 to -170 the general rule gives the same midpoint.
  - From -170 to 170 the general rule would give the second latitude (`Antimeridian.SpecialPairAgainstGeneralRule`).
  - In general, from a negative to a positive longitude the clamped fraction is 1, so the result is the second latitude (`Antimeridian.NegativeToPositiveGivesSecondLatitude`).
- The boundary position that ends a LineString part uses the sign of the raw longitude, not the normalised one.
  - The parts stay on one side of the antimeridian only for longitudes within [-180, 180] (`LineCutting.CutLinePartsDoNotCross`).
- `reverseRing` keeps the last position and reverses the others, so it does not keep a ring closed.
  - A single `fixPolygonOrientation` can leave an exterior ring open and still classified clockwise.
  - Its documentation says that exterior rings are made counterclockwise (`src/main/java/org/geojson/util/PolygonOrientationUtils.java:152-155`); `OrientationScenarios.SingleFixCanLeaveExteriorClockwise` exhibits a clockwise square for which the fixed exterior ring is not.
  - A second fix changes it again (`OrientationScenarios.SecondFixChangesRing`).
  - With fixing and validation both on, validation closes such a ring again.
  - The auto-fixed unit square of the configuration tests thus ends with six positions (`ProcessingScenarios.AutoFixTurnsExteriorCounterClockwise`).
- `GeoJsonProcessor.processPolygon` drops the list `fixPolygonOrientation` returns.
  - Only the in-place changes to the ring objects survive: closing, by appending to the caller's ring, and reversing.
  - For mutable rings these are exactly the rings of `FixFrom`, which is what `GeoJsonProcessing.PolygonResult` uses.
  - `validatePolygonOrientation` is never consulted by the processor.
- Processing changes the caller's objects in place even when it throws.
  - A polygon keeps the rings fixing closed and reversed before the failure (`GeoJsonProcessing.PolygonFixFailureKeepsFixedRings`, `GeoJsonProcessing.PolygonCutFailureKeepsFixedRings`).
  - A FeatureCollection keeps the features processed before the failing one (`GeoJsonProcessing.FeatureCollectionFailureState`).
  - A GeometryCollection keeps its old list, whose members carry the in-place changes up to the failing member (`GeoJsonProcessing.GeometryCollectionFailureState`).

## Model

| member | source | states |
|---|---|---|
| Antimeridian.Trunc | src/main/java/org/geojson/util/AntimeridianUtils.java:51 | the double-to-whole conversion truncates toward zero: the result lies within one of x, on the side of zero |
| Antimeridian.Remainder360 | src/main/java/org/geojson/util/AntimeridianUtils.java:51 | `x % 360` lies strictly between -360 and 360, has the sign of x, is x itself inside that range, and differs from x by whole turns |
| Antimeridian.NormalizeLongitude | src/main/java/org/geojson/util/AntimeridianUtils.java:50-58 | the result lies in [-180, 180] and is congruent to the input modulo 360; a longitude already in range is unchanged; 180 comes only from a positive input and -180 only from a negative one |
| Antimeridian.NormalizeLongitudeUnique | src/main/java/org/geojson/util/AntimeridianUtils.java:50-58 | inside the open range (-180, 180) the normalised longitude is the unique congruent value |
| Antimeridian.NormalizeLongitudeOnAntimeridian | src/main/java/org/geojson/util/AntimeridianUtils.java:50-58 | a longitude congruent to 180 normalises to 180 when positive and to -180 otherwise |
| Antimeridian.NormalizeLongitudeVectors | src/test/java/org/geojson/util/AntimeridianUtilsTest.java:22-37 | the test values: 0, ±90 and ±180 stay; ±360 give 0; 190 gives -170; -190 gives 170; ±370 give ±10; 540 gives 180 |
| Antimeridian.CrossesAntimeridian | src/main/java/org/geojson/util/AntimeridianUtils.java:30-42 | a crossing pair has non-zero raw and normalised longitudes, and the normalised ones have opposite signs |
| Antimeridian.CrossingIsSymmetric | src/main/java/org/geojson/util/AntimeridianUtils.java:30-42 | the crossing test is symmetric in its two points and does not depend on latitude |
| Antimeridian.CrossingCharacterised | src/main/java/org/geojson/util/AntimeridianUtils.java:30-42 | a pair crosses if and only if its normalised longitudes have opposite signs and lie more than 180 apart |
| Antimeridian.CrossingVectors | src/test/java/org/geojson/util/AntimeridianUtilsTest.java:40-64 | 179/-179 and 190/-190 cross; 170/175 and 180/180 do not |
| Antimeridian.Signum | src/main/java/org/geojson/util/AntimeridianUtils.java:158 | `Math.signum`: one of 1, -1, 0, positive exactly for positive input and negative exactly for negative input |
| Antimeridian.GetAntimeridianLon | src/main/java/org/geojson/util/AntimeridianUtils.java:112-131 | the result is ±180; it is +180 if and only if the longitudes are more than 180 apart going from positive to negative, or at most 180 apart with the first >= 0 |
| Antimeridian.AntimeridianLonFollowsFirstPoint | src/main/java/org/geojson/util/AntimeridianUtils.java:112-131 | on longitudes in [-180, 180] the meridian chosen is the one on the side of the first longitude |
| Antimeridian.AntimeridianLonVectors | src/test/java/org/geojson/util/AntimeridianUtilsTest.java:95-115 | the test values 170/-170 → 180, -170/170 → -180, 160/170 → 180, -170/-160 → -180 |
| Antimeridian.Clamp01 | src/main/java/org/geojson/util/AntimeridianUtils.java:96 | `max(0, min(1, f))` lies in [0, 1] and leaves a fraction already in [0, 1] unchanged |
| Antimeridian.UnwrappedLatitude | src/main/java/org/geojson/util/AntimeridianUtils.java:79-102 | the general interpolation rule gives a latitude between the two latitudes |
| Antimeridian.InterpolateLatitude | src/main/java/org/geojson/util/AntimeridianUtils.java:68-103 | the interpolated latitude always lies between the latitudes of the two points |
| Antimeridian.NegativeToPositiveGivesSecondLatitude | src/main/java/org/geojson/util/AntimeridianUtils.java:83-102 | from a negative to a positive normalised longitude the clamped fraction is 1 and the result is the second latitude, except for the special pair and the pair (-180, 180) |
| Antimeridian.UnwrappedNegativeToPositive | src/main/java/org/geojson/util/AntimeridianUtils.java:86-102 | the general rule, moving the first longitude on by 360, gives the second latitude |
| Antimeridian.PositiveToNegativeInterpolates | src/main/java/org/geojson/util/AntimeridianUtils.java:83-102 | from a positive to a negative normalised longitude the fraction (180 - lon1) / (lon2 + 360 - lon1) lies in [0, 1] unclamped, and the latitude is that fraction of the way from the first latitude to the second |
| Antimeridian.UnwrappedPositiveToNegative | src/main/java/org/geojson/util/AntimeridianUtils.java:83-102 | the same statement for the general rule on normalised longitudes |
| Antimeridian.OppositeAntimeridiansGiveMean | src/main/java/org/geojson/util/AntimeridianUtils.java:93-98 | the pairs (180, -180) and (-180, 180) have equal moved longitudes and give the midpoint latitude |
| Antimeridian.SpecialPairAgainstGeneralRule | src/main/java/org/geojson/util/AntimeridianUtils.java:74-102 | without the special case, 170 → -170 would still give the midpoint but -170 → 170 would give the second latitude |
| Antimeridian.InterpolationVectors | src/test/java/org/geojson/util/AntimeridianUtilsTest.java:67-92 | the test values 170/10 → -170/20 gives 15, -170/30 → 170/10 gives 20, 180/10 → -180/20 gives 15, -170/10 → 170/20 gives 15 |
| Antimeridian.CrossingCountCounts | src/main/java/org/geojson/util/AntimeridianUtils.java:149-169 | the number of crossing pairs among the first n positions is positive if and only if one of them crosses, and is at most n - 1 |
| Antimeridian.CrossingCountOfPath | src/main/java/org/geojson/util/AntimeridianUtils.java:149-169 | over a whole path, the count is positive if and only if some consecutive pair crosses |
| Failures.Message | src/main/java/org/geojson/util/PolygonOrientationUtils.java:24-144 | each failure's exception text, word for word as the library throws it, including `Polygon`'s "No exterior ring defined" |
| LineCutting.CutLineStringAtAntimeridian | src/main/java/org/geojson/util/AntimeridianUtils.java:139-182 | the segment-building loop returns exactly the cut its specification defines |
| LineCutting.LineStringCut | src/main/java/org/geojson/util/AntimeridianUtils.java:139-182 | fewer than two positions or a single segment gives the LineString itself; otherwise the MultiLineString of the segments |
| LineCutting.CutLineUpTo | src/main/java/org/geojson/util/AntimeridianUtils.java:145-169 | the finished segments and the segment being built after n positions: a crossing pair ends the segment at the exit position and starts the next at the entry position |
| LineCutting.ExitPoint | src/main/java/org/geojson/util/AntimeridianUtils.java:155-159 | the position on the meridian of the sign of the first raw longitude, at the interpolated latitude |
| LineCutting.EntryPoint | src/main/java/org/geojson/util/AntimeridianUtils.java:155-165 | the position on the opposite meridian, at the same latitude |
| LineCutting.CrossingBoundaries | src/main/java/org/geojson/util/AntimeridianUtils.java:155-165 | the exit and entry positions of a crossing pair lie on opposite meridians at the same latitude |
| LineCutting.CutLineUpToCount | src/main/java/org/geojson/util/AntimeridianUtils.java:145-169 | after n positions there is one finished segment per crossing, each of at least two positions, the current segment ends with position n - 1, and the first segment starts with the first position |
| LineCutting.CutLineUpToConcat | src/main/java/org/geojson/util/AntimeridianUtils.java:145-169 | read in order, the segments give the input with an exit and an entry position inserted between the points of every crossing pair, and nothing else changed |
| LineCutting.CutLineUpToJoined | src/main/java/org/geojson/util/AntimeridianUtils.java:145-169 | at every step the finished segments meet each other, and the current segment, on the antimeridian |
| LineCutting.LineIsCutIffItCrosses | src/main/java/org/geojson/util/AntimeridianUtils.java:139-182 | the LineString comes back cut if and only if it has at least two positions and a crossing pair, and then in one more part than it has crossing pairs |
| LineCutting.CutLinePartsAreJoinedOnAntimeridian | src/main/java/org/geojson/util/AntimeridianUtils.java:139-182 | the parts have at least two positions each, consecutive parts meet on opposite meridians at the same latitude, the first starts at the first input position, the last ends at the last one, and together they are the input with the boundary positions inserted |
| LineCutting.BoundariesDoNotCross | src/main/java/org/geojson/util/AntimeridianUtils.java:155-165 | for longitudes in range, neither boundary position forms a crossing pair with its neighbour |
| LineCutting.CutLineUpToStaysOnOneSide | src/main/java/org/geojson/util/AntimeridianUtils.java:145-169 | for longitudes in range, no segment built so far contains a crossing pair |
| LineCutting.CutLinePartsDoNotCross | src/main/java/org/geojson/util/AntimeridianUtils.java:139-182 | for longitudes in range, no part of a cut LineString crosses the antimeridian |
| RingCutting.Normalised | src/main/java/org/geojson/util/AntimeridianUtils.java:316-323 | a vertex copied onto a half has its longitude normalised into [-180, 180] and keeps its latitude and altitude |
| RingCutting.RingCut | src/main/java/org/geojson/util/AntimeridianUtils.java:289-359 | a ring without a crossing pair comes back alone; a crossing ring that is cut comes back as exactly two rings; a failure is the closing failure; otherwise one or two rings |
| RingCutting.CrossingHalvesNotEmpty | src/main/java/org/geojson/util/AntimeridianUtils.java:327-334 | a crossing ring puts a boundary position on both halves, so both are non-empty |
| RingCutting.CutRingAtAntimeridian | src/main/java/org/geojson/util/AntimeridianUtils.java:289-359 | the search, splitting and closing code returns exactly `RingCut` |
| RingCutting.RingCrossesAntimeridian | src/main/java/org/geojson/util/AntimeridianUtils.java:292-299 | the search loop finds a crossing pair if and only if the ring has one |
| RingCutting.SplitRing | src/main/java/org/geojson/util/AntimeridianUtils.java:307-345 | the splitting loop and the last vertex build exactly the specified halves |
| RingCutting.Place | src/main/java/org/geojson/util/AntimeridianUtils.java:316-324 | a vertex goes, normalised, to the east half when its normalised longitude is >= 0 and to the west half otherwise |
| RingCutting.SplitUpTo | src/main/java/org/geojson/util/AntimeridianUtils.java:311-335 | the halves after n segments: each first vertex placed, and a crossing segment adds (180, lat) to the east half and (-180, lat) to the west half |
| RingCutting.RingHalves | src/main/java/org/geojson/util/AntimeridianUtils.java:307-345 | the halves after every segment, with the last position placed as well |
| RingCutting.ClosedHalves | src/main/java/org/geojson/util/AntimeridianUtils.java:347-358 | each non-empty half closed through ensureRingClosed, east first; a closing failure is the result |
| RingCutting.CloseHalves | src/main/java/org/geojson/util/AntimeridianUtils.java:347-358 | the non-empty halves are closed east first and collected, and the first closing failure is the result |
| RingCutting.PlaceOnSides | src/main/java/org/geojson/util/AntimeridianUtils.java:319-324 | placing a vertex keeps the east half in [0, 180] and the west half in [-180, 0), adds exactly one position and only appends |
| RingCutting.SplitUpToShape | src/main/java/org/geojson/util/AntimeridianUtils.java:311-335 | after n segments both halves lie on their sides and together hold n vertices plus two boundary positions per crossing |
| RingCutting.SplitUpToGrows | src/main/java/org/geojson/util/AntimeridianUtils.java:311-335 | the halves only grow as the loop goes on: earlier halves are prefixes of later ones |
| RingCutting.VertexIsPlaced | src/main/java/org/geojson/util/AntimeridianUtils.java:312-345 | every vertex of the ring, normalised, is on the east half when its longitude is >= 0 and on the west half otherwise |
| RingCutting.RingHalvesShape | src/main/java/org/geojson/util/AntimeridianUtils.java:307-345 | the halves of a ring lie on their sides and together hold the ring's positions plus two boundary positions per crossing |
| RingCutting.CrossingRingIsSplitInTwo | src/main/java/org/geojson/util/AntimeridianUtils.java:301-358 | a crossing ring fails to be cut if and only if a half has fewer than 3 positions; otherwise it becomes [closed east half, closed west half], both closed |
| RingCutting.CutHalvesStayOnTheirSides | src/main/java/org/geojson/util/AntimeridianUtils.java:307-358 | every position of the east ring of a cut lies in [0, 180] and every position of the west ring in [-180, 0) |
| RingCutting.PolygonCrossesAntimeridian | src/main/java/org/geojson/util/AntimeridianUtils.java:190-199 | the nested search returns true if and only if some ring has a crossing pair |
| RingCutting.PolygonCrosses | src/main/java/org/geojson/util/AntimeridianUtils.java:190-199 | some ring of the polygon has a consecutive crossing pair |
| RingCutting.AverageLongitude | src/main/java/org/geojson/util/AntimeridianUtils.java:367-387 | 0 for an empty ring, otherwise a longitude in [-180, 180] |
| RingCutting.NormalizedLongitudes | src/main/java/org/geojson/util/AntimeridianUtils.java:376-377 | the longitudes fed to the mean: one per position, each normalised |
| RingCutting.CutPolygonAtAntimeridian | src/main/java/org/geojson/util/AntimeridianUtils.java:210-281 | the code of cutPolygonAtAntimeridian returns exactly its specification `PolygonCutOf` |
| RingCutting.PolygonCutOf | src/main/java/org/geojson/util/AntimeridianUtils.java:210-281 | no rings, no crossing ring or an uncut exterior ring keep the polygon; otherwise two polygons, the east and west exterior halves each followed by their holes; a failing cut is the result |
| RingCutting.SortHoles | src/main/java/org/geojson/util/AntimeridianUtils.java:241-260 | the loop over the holes sorts them onto the two sides as specified, stopping at the first failing cut |
| RingCutting.HoleSides | src/main/java/org/geojson/util/AntimeridianUtils.java:241-260 | the holes cut in order and sorted onto the east and west sides; the first failing cut is the result |
| RingCutting.SortHole | src/main/java/org/geojson/util/AntimeridianUtils.java:245-259 | an uncut hole goes east when its average longitude is > 0 and west otherwise; a cut hole gives part 0 to the east and part 1 to the west |
| RingCutting.SortNextHole | src/main/java/org/geojson/util/AntimeridianUtils.java:242-259 | one turn of that loop extends the sorted holes by one, and its failure is the failure of the whole loop |
| RingCutting.AddHole | src/main/java/org/geojson/util/AntimeridianUtils.java:245-259 | an uncut hole goes east if and only if its average longitude is > 0; a cut hole gives its east half to the east and its west half to the west |
| RingCutting.BuildPolygon | src/main/java/org/geojson/util/AntimeridianUtils.java:262-274 | a new polygon holding the exterior ring followed by the holes in order |
| RingCutting.PolygonIsCutIffExteriorCrosses | src/main/java/org/geojson/util/AntimeridianUtils.java:210-231 | a polygon comes back unchanged if and only if it has no rings or its exterior ring has no crossing pair; a crossing hole alone never cuts it |
| RingCutting.CutPolygonHasTwoParts | src/main/java/org/geojson/util/AntimeridianUtils.java:225-281 | a cut polygon becomes exactly two polygons: the closed east half of the exterior with the east holes, then the closed west half with the west holes |
| RingCutting.HoleSidesCount | src/main/java/org/geojson/util/AntimeridianUtils.java:241-260 | no hole is lost: the two hole lists together hold one ring per hole plus one more per crossing hole |
| PolygonOrientation.IsCounterClockwise | src/main/java/org/geojson/util/PolygonOrientationUtils.java:22-41 | the winding test throws exactly for rings of fewer than 4 points, with the ring message |
| PolygonOrientation.ShoelaceSum | src/main/java/org/geojson/util/PolygonOrientationUtils.java:31-36 | the sum over consecutive positions of (lon2 - lon1) * (lat2 + lat1), whose negative sign means counterclockwise |
| PolygonOrientation.ShoelaceAppend | src/main/java/org/geojson/util/PolygonOrientationUtils.java:31-36 | extending a ring by a position adds the term of the new edge to the shoelace sum |
| PolygonOrientation.ReversedRing | src/main/java/org/geojson/util/PolygonOrientationUtils.java:48-65 | after reverseRing, the length is unchanged, the last position stays, and position k holds the old position n - 2 - k |
| PolygonOrientation.ReverseRing | src/main/java/org/geojson/util/PolygonOrientationUtils.java:48-65 | the in-place reversal leaves exactly `ReversedRing` of the old contents in the array |
| PolygonOrientation.SwapFromBothEnds | src/main/java/org/geojson/util/PolygonOrientationUtils.java:57-61 | the converging two-index loop reverses positions 0 .. m and leaves the rest untouched |
| PolygonOrientation.ReversedRingByIndex | src/main/java/org/geojson/util/PolygonOrientationUtils.java:53-64 | a sequence that keeps the last position and lists the others backwards is `ReversedRing` of the original |
| PolygonOrientation.ReverseCopy | src/main/java/org/geojson/util/PolygonOrientationUtils.java:173-175 | reversing a ring held in an array gives `ReversedRing` |
| PolygonOrientation.ReversePathNegatesSum | src/main/java/org/geojson/util/PolygonOrientationUtils.java:31-40 | walking a path backwards negates its shoelace sum |
| PolygonOrientation.ReversedRingSum | src/main/java/org/geojson/util/PolygonOrientationUtils.java:48-65 | reverseRing on a closed ring negates the sum of the ring without its closing edge: the closing edge is lost |
| PolygonOrientation.ReverseThenCloseNegatesSum | src/main/java/org/geojson/util/PolygonOrientationUtils.java:48-65 | reverseRing followed by closing again negates the shoelace sum of a closed ring |
| PolygonOrientation.Closed | src/main/java/org/geojson/util/PolygonOrientationUtils.java:210-227 | the ring is kept as a prefix, at most one position is appended, and that one is the first position; a non-empty result is closed; the ring is unchanged exactly when it is empty or already closed |
| PolygonOrientation.EnsureRingClosed | src/main/java/org/geojson/util/PolygonOrientationUtils.java:200-228 | rejects exactly the rings of 1 or 2 positions with the closing message; otherwise returns the ring closed, an empty ring as it is |
| PolygonOrientation.ValidateRingClosed | src/main/java/org/geojson/util/PolygonOrientationUtils.java:74-85 | passes if and only if the ring has at least 4 points and is closed; a short ring fails first with the size message, then an open one with the closing message |
| PolygonOrientation.HasRequiredWinding | src/main/java/org/geojson/util/PolygonOrientationUtils.java:124-145 | the exterior ring must be counterclockwise (negative sum) and every interior ring clockwise (sum not negative) |
| PolygonOrientation.ValidationFrom | src/main/java/org/geojson/util/PolygonOrientationUtils.java:112-146 | each ring in turn is size checked, closed in place and winding checked; the first violation ends the walk with that ring's failure and the rings closed so far |
| PolygonOrientation.ValidatePolygonOrientation | src/main/java/org/geojson/util/PolygonOrientationUtils.java:94-150 | the method's checks in index order give exactly `ValidationFrom(rings, 0)` |
| PolygonOrientation.UnfixableRingStaysOpen | src/main/java/org/geojson/util/PolygonOrientationUtils.java:200-208 | a ring that fixing cannot handle has not been changed by closing when the exception is thrown |
| PolygonOrientation.Fixable | src/main/java/org/geojson/util/PolygonOrientationUtils.java:168-185 | fixing handles a ring of at least 4 positions, or an open ring of 3 that closing brings to 4 |
| PolygonOrientation.FixFailure | src/main/java/org/geojson/util/PolygonOrientationUtils.java:168-185 | a ring of 1 or 2 positions fails with the closing message; an empty ring or a closed ring of 3 fails with the winding test's size message |
| PolygonOrientation.Oriented | src/main/java/org/geojson/util/PolygonOrientationUtils.java:173-175 | a ring whose winding is wrong for its role is passed through reverseRing; one whose winding is right is kept |
| PolygonOrientation.FixRing | src/main/java/org/geojson/util/PolygonOrientationUtils.java:168-185 | one ring of fixPolygonOrientation: Oriented(Closed(ring), j) for a fixable ring, otherwise its failure |
| PolygonOrientation.FixFrom | src/main/java/org/geojson/util/PolygonOrientationUtils.java:160-189 | the rings in turn are closed and oriented in place; the first ring that cannot be fixed ends the walk with its failure, the rings before it already changed |
| PolygonOrientation.OrientRing | src/main/java/org/geojson/util/PolygonOrientationUtils.java:168-185 | the body for one ring closes it, classifies it and reverses it when its winding is wrong for its role, or throws as closing or classifying does |
| PolygonOrientation.FixPolygonOrientation | src/main/java/org/geojson/util/PolygonOrientationUtils.java:160-189 | the method's loop gives exactly `FixFrom(rings, 0)` |
| PolygonOrientation.ValidationStop | src/main/java/org/geojson/util/PolygonOrientationUtils.java:116-145 | validation stops at a ring that does not conform, with that ring's failure |
| PolygonOrientation.ValidationFromKeepsLength | src/main/java/org/geojson/util/PolygonOrientationUtils.java:94-150 | validation never changes the number of rings |
| PolygonOrientation.ValidationFromPasses | src/main/java/org/geojson/util/PolygonOrientationUtils.java:94-150 | validation from ring i passes if and only if every ring from i on conforms |
| PolygonOrientation.ValidationFromClosesRings | src/main/java/org/geojson/util/PolygonOrientationUtils.java:120-122 | after passing validation, every ring checked is closed in place and the others are untouched |
| PolygonOrientation.ValidationFromFailsAt | src/main/java/org/geojson/util/PolygonOrientationUtils.java:94-150 | validation fails with the violation of the first ring that does not conform |
| PolygonOrientation.ValidationSucceedsIffRingsConform | src/main/java/org/geojson/util/PolygonOrientationUtils.java:94-150 | validation passes if and only if every ring conforms; it then leaves every ring closed and the polygon following the right-hand rule; a polygon that already did is unchanged; otherwise the failure is that of the first non-conforming ring |
| PolygonOrientation.FixStop | src/main/java/org/geojson/util/PolygonOrientationUtils.java:168-185 | fixing stops at a ring it cannot handle, with that ring's failure, leaving every ring as it was |
| PolygonOrientation.FixFromKeepsLength | src/main/java/org/geojson/util/PolygonOrientationUtils.java:160-189 | fixing returns as many rings as it was given |
| PolygonOrientation.FixFromPasses | src/main/java/org/geojson/util/PolygonOrientationUtils.java:160-189 | fixing from ring i succeeds if and only if every ring from i on can be closed and classified |
| PolygonOrientation.FixFromOrientsRings | src/main/java/org/geojson/util/PolygonOrientationUtils.java:160-189 | after fixing succeeds, each ring j from i on becomes Oriented(Closed(ring), j): closed, then passed through reverseRing when its winding is wrong for its role; the earlier ones are untouched |
| PolygonOrientation.FixFromFailsAt | src/main/java/org/geojson/util/PolygonOrientationUtils.java:160-189 | fixing fails with the failure of the first ring it cannot handle |
| PolygonOrientation.FixFromFailureRings | src/main/java/org/geojson/util/PolygonOrientationUtils.java:160-189 | when fixing stops at ring j, the rings before it are closed and oriented in place and ring j and the later rings are as they were |
| PolygonOrientation.FixSucceedsIffRingsFixable | src/main/java/org/geojson/util/PolygonOrientationUtils.java:160-189 | fixing keeps the number of rings and succeeds if and only if every ring is fixable; it then closes every ring and reverses it when its winding is wrong; otherwise it fails at the first unfixable ring |
| PolygonOrientation.OrientedConforms | src/main/java/org/geojson/util/PolygonOrientationUtils.java:168-185 | a ring that fixing orients passes validation once closed again, provided an exterior ring's closed sum is not zero |
| PolygonOrientation.FixThenValidateSucceeds | src/main/java/org/geojson/util/PolygonOrientationUtils.java:160-189 | fixing a polygon of fixable rings whose exterior ring has a non-zero sum succeeds, and validating the result passes with the right-hand rule holding |
| Polygons.Polygon.constructor | src/main/java/org/geojson/Polygon.java:19-20 | a new polygon has no rings |
| Polygons.Polygon.ProcessPolygon | src/main/java/org/geojson/Polygon.java:104-116 | nothing on an empty polygon; fix when auto-fixing, then validate when validating; the rings after the call, also after a failure, are those of the specification |
| Polygons.Processed | src/main/java/org/geojson/Polygon.java:104-116 | an empty polygon is left alone; otherwise fixing when auto-fixing, then validation when validating, a fixing failure ending the call with the rings as fixing left them |
| Polygons.AddOutcome | src/main/java/org/geojson/Polygon.java:31-53 | an empty ring changes nothing; when validating, a short and then an open ring is rejected before it is appended; otherwise it is appended and the polygon processed |
| Polygons.AddInteriorOutcome | src/main/java/org/geojson/Polygon.java:88-92 | the no-exterior-ring failure on a polygon without rings; otherwise the ring is appended and the polygon processed |
| Polygons.SetExteriorOutcome | src/main/java/org/geojson/Polygon.java:66-75 | the ring is inserted as ring 0 on an empty polygon or replaces ring 0, and the polygon is processed |
| Polygons.Polygon.Add | src/main/java/org/geojson/Polygon.java:31-53 | an empty ring changes nothing; when validating, a short or open ring is rejected before it is appended; otherwise it is appended and the polygon processed |
| Polygons.Polygon.ExteriorRing | src/main/java/org/geojson/Polygon.java:56-59 | ring 0, or the "No exterior ring defined" failure exactly when there are no rings |
| Polygons.Polygon.InteriorRings | src/main/java/org/geojson/Polygon.java:78-81 | every ring after the first, in order, or the failure when there are no rings |
| Polygons.Polygon.InteriorRing | src/main/java/org/geojson/Polygon.java:83-86 | ring 1 + index when that is a valid position (index -1 reaches the exterior ring); an index-out-of-bounds failure otherwise; the no-exterior failure first |
| Polygons.Polygon.AddInteriorRing | src/main/java/org/geojson/Polygon.java:88-92 | rejected on a polygon without rings; otherwise appended and the polygon processed |
| Polygons.Polygon.SetExteriorRing | src/main/java/org/geojson/Polygon.java:66-75 | the ring is inserted as ring 0 on an empty polygon or replaces ring 0, then the polygon is processed |
| Polygons.ProcessedWithoutSwitches | src/main/java/org/geojson/Polygon.java:104-116 | with neither fixing nor validation on, processing changes nothing |
| Polygons.ValidatedPolygonFollowsRightHandRule | src/main/java/org/geojson/Polygon.java:104-116 | with validation on, a polygon processed without failure follows the right-hand rule |
| Polygons.ValidationOnlyAcceptsConformingPolygons | src/main/java/org/geojson/Polygon.java:113-115 | validation without fixing passes if and only if every ring conforms, and then only closes the rings |
| Polygons.FixedPolygonPassesValidation | src/main/java/org/geojson/Polygon.java:109-115 | with fixing and validation on, every polygon of fixable rings whose exterior ring has a non-zero sum passes and follows the right-hand rule |
| Polygons.FixOnlyOrientsEveryRing | src/main/java/org/geojson/Polygon.java:109-111 | fixing without validation succeeds if and only if every ring is fixable, and then each ring j becomes Oriented(Closed(ring), j): closed, then passed through reverseRing when its winding is wrong for its role |
| Polygons.AddRejectsInvalidRing | src/main/java/org/geojson/Polygon.java:36-48 | with validation on, add rejects a short ring and then an open ring with the ring messages, and leaves the polygon as it was |
| Polygons.AddAppends | src/main/java/org/geojson/Polygon.java:31-53 | without processing switches, add appends any non-empty ring at the end |
| Polygons.SetExteriorRingKeepsHoles | src/main/java/org/geojson/Polygon.java:66-75 | without processing switches, setExteriorRing makes the ring ring 0 and keeps the holes |
| Polygons.InteriorRingAccessorsAgree | src/main/java/org/geojson/Polygon.java:78-86 | getInteriorRing(i) is element i of getInteriorRings, and getInteriorRing(-1) is the exterior ring |
| Configuration.GeoJsonConfig.constructor | src/main/java/org/geojson/GeoJsonConfig.java:13-38 | the default configuration: validation, cutting and fixing off, the CRS warning on |
| Configuration.GeoJsonConfig.WithCompliance | src/main/java/org/geojson/GeoJsonConfig.java:45-51 | with compliance, validation, fixing and cutting are switched on and the CRS warning stays on; without it, the default configuration |
| Configuration.GeoJsonConfig.Rfc7946 | src/main/java/org/geojson/GeoJsonConfig.java:58-60 | a new configuration with the RFC 7946 switches |
| Configuration.GeoJsonConfig.Legacy | src/main/java/org/geojson/GeoJsonConfig.java:67-69 | a new configuration with the default switches |
| Configuration.GeoJsonConfig.SetValidatePolygonOrientation | src/main/java/org/geojson/GeoJsonConfig.java:75-78 | changes only the validation switch and returns the object itself |
| Configuration.GeoJsonConfig.SetWarnOnCrsUse | src/main/java/org/geojson/GeoJsonConfig.java:84-87 | changes only the CRS warning switch and returns the object itself |
| Configuration.GeoJsonConfig.SetCutAntimeridian | src/main/java/org/geojson/GeoJsonConfig.java:93-96 | changes only the cutting switch and returns the object itself |
| Configuration.GeoJsonConfig.SetAutoFixPolygonOrientation | src/main/java/org/geojson/GeoJsonConfig.java:102-105 | changes only the fixing switch and returns the object itself |
| Configuration.CustomConfiguration | src/test/java/org/geojson/GeoJsonConfigTest.java:37-50 | chained setters act on one object, so their settings accumulate |
| Geometries.Geometry.constructor | src/main/java/org/geojson/Geometry.java:10-13 | a new geometry has an empty coordinate list |
| Geometries.Geometry.FromElements | src/main/java/org/geojson/Geometry.java:15-17 | the varargs constructor holds the elements in order |
| Geometries.Geometry.Add | src/main/java/org/geojson/Geometry.java:19-22 | appends exactly one element at the end, keeps the others and returns the geometry itself |
| Geometries.Geometry.SetCoordinates | src/main/java/org/geojson/Geometry.java:28-30 | replaces the whole coordinate list |
| Geometries.Geometry.Equals | src/main/java/org/geojson/Geometry.java:34-46 | true for the same object, false for no object, otherwise true exactly for equal coordinate lists |
| GeoJsonProcessing.Process | src/main/java/org/geojson/GeoJsonProcessor.java:119-133 | the dispatch gives exactly the specified result for every kind of object, and leaves the caller's object as `InputAfter` says, whether it returns or throws |
| GeoJsonProcessing.ProcessResult | src/main/java/org/geojson/GeoJsonProcessor.java:119-133 | Polygon, LineString, Feature, FeatureCollection and GeometryCollection are processed; every other kind comes back as it is |
| GeoJsonProcessing.PolygonResult | src/main/java/org/geojson/GeoJsonProcessor.java:36-48 | the polygon's rings as fixing leaves them in place, or its failure; then, when cutting, the polygon itself, a MultiPolygon, or the cut's failure |
| GeoJsonProcessing.LineStringResult | src/main/java/org/geojson/GeoJsonProcessor.java:57-62 | the LineString itself unless cutting is on and the line is cut into a MultiLineString |
| GeoJsonProcessing.FeatureResult | src/main/java/org/geojson/GeoJsonProcessor.java:71-77 | a feature without geometry as it is; otherwise the feature with its processed geometry, or the failure |
| GeoJsonProcessing.FeaturesResult | src/main/java/org/geojson/GeoJsonProcessor.java:86-91 | the first n features processed in order; the first failure ends the walk |
| GeoJsonProcessing.GeometriesResult | src/main/java/org/geojson/GeoJsonProcessor.java:100-107 | the first n members processed in order into a new list; the first failure ends the walk |
| GeoJsonProcessing.InputAfter | src/main/java/org/geojson/GeoJsonProcessor.java:36-107 | the caller's object after the call: a polygon with its rings fixed in place, features updated one by one, a geometry collection with its new list or, on a failure, its old list changed in place |
| GeoJsonProcessing.FeatureAfter | src/main/java/org/geojson/GeoJsonProcessor.java:71-77 | a feature after processFeature: its geometry replaced, or on a failure changed only in place |
| GeoJsonProcessing.FeaturesAfter | src/main/java/org/geojson/GeoJsonProcessor.java:86-91 | the features of a collection once the walk has reached feature n: as many as before, features changed only up to the first failure |
| GeoJsonProcessing.GeometriesAfter | src/main/java/org/geojson/GeoJsonProcessor.java:100-107 | the members of a geometry collection once the walk has reached member n: as many as before, members changed only up to the first failure |
| GeoJsonProcessing.ProcessPolygon | src/main/java/org/geojson/GeoJsonProcessor.java:36-48 | returns `PolygonResult`: fixes when auto-fixing, then cuts when cutting; the caller's polygon afterwards holds the rings fixing changed in place, also when fixing or cutting throws |
| GeoJsonProcessing.ProcessLineString | src/main/java/org/geojson/GeoJsonProcessor.java:57-62 | cuts when cutting, otherwise returns the LineString itself |
| GeoJsonProcessing.ProcessFeature | src/main/java/org/geojson/GeoJsonProcessor.java:71-77 | a feature's geometry, when present, is replaced by its processed form; on a failure the feature keeps its geometry, changed only in place |
| GeoJsonProcessing.ProcessFeatureCollection | src/main/java/org/geojson/GeoJsonProcessor.java:86-91 | every feature processed in order, the first failure ending the walk; the features afterwards are `FeaturesAfter`: processed up to the failing one, which is as its processing left it, and untouched after it |
| GeoJsonProcessing.ProcessGeometryCollection | src/main/java/org/geojson/GeoJsonProcessor.java:100-107 | every geometry processed in order into a new list that replaces the old one; on a failure the collection keeps its old list, whose members carry the in-place changes up to the failing one |
| GeoJsonProcessing.ProcessWithDefaultConfiguration | src/main/java/org/geojson/GeoJsonProcessor.java:144-147 | the deprecated overload uses a fresh configuration and so returns every object unchanged |
| GeoJsonProcessing.CreatePolygonFromRings | src/main/java/org/geojson/GeoJsonProcessor.java:21-27 | a new polygon holding the non-empty rings in the given order |
| GeoJsonProcessing.NonEmptyRings | src/main/java/org/geojson/GeoJsonProcessor.java:21-27 | the rings that are not empty, in order: none of the result is empty and there are at most as many |
| GeoJsonProcessing.ProcessWithoutSwitchesIsIdentity | src/main/java/org/geojson/GeoJsonProcessor.java:119-133 | with neither fixing nor cutting on, processing returns every object unchanged, whatever the validation switch |
| GeoJsonProcessing.FeatureWithoutSwitchesIsIdentity | src/main/java/org/geojson/GeoJsonProcessor.java:71-77 | the same for a single feature |
| GeoJsonProcessing.FeaturesWithoutSwitchesAreIdentity | src/main/java/org/geojson/GeoJsonProcessor.java:86-91 | the same for the features of a collection |
| GeoJsonProcessing.GeometriesWithoutSwitchesAreIdentity | src/main/java/org/geojson/GeoJsonProcessor.java:100-107 | the same for the members of a geometry collection |
| GeoJsonProcessing.GeometriesKeepOrder | src/main/java/org/geojson/GeoJsonProcessor.java:100-107 | a processed geometry collection has as many members as before, member k being the processed member k |
| GeoJsonProcessing.FeaturesKeepOrder | src/main/java/org/geojson/GeoJsonProcessor.java:86-91 | a processed feature collection keeps the number and order of its features, their properties, identifiers and the presence of a geometry |
| GeoJsonProcessing.ProcessKeepsKinds | src/main/java/org/geojson/GeoJsonProcessor.java:119-133 | a Polygon becomes a Polygon or MultiPolygon, a LineString a LineString or MultiLineString, features and collections keep their kind and size, every other object is returned as it is |
| GeoJsonProcessing.ProcessedLineStringDoesNotCross | src/main/java/org/geojson/GeoJsonProcessor.java:57-62 | with cutting on and every longitude in [-180, 180], a LineString is cut if and only if it has at least two positions and a crossing pair; an uncut one is returned as it is; no part of a cut one crosses |
| GeoJsonProcessing.ProcessedPolygonIsOriented | src/main/java/org/geojson/GeoJsonProcessor.java:36-40 | with fixing on and cutting off, a polygon comes through if and only if every ring is fixable, and then as a Polygon in which each ring j becomes Oriented(Closed(ring), j): closed, then passed through reverseRing when its winding is wrong for its role |
| GeoJsonProcessing.PolygonWithoutCrossingExteriorStays | src/main/java/org/geojson/GeoJsonProcessor.java:42-47 | with cutting on, a polygon whose exterior ring does not cross is returned as it is |
| GeoJsonProcessing.FeaturesAfterUpTo | src/main/java/org/geojson/GeoJsonProcessor.java:86-91 | until the walk fails, the features it has reached are as processFeature left them and the rest are untouched |
| GeoJsonProcessing.GeometriesAfterUpTo | src/main/java/org/geojson/GeoJsonProcessor.java:100-107 | until the walk fails, the members it has reached are as process left them and the rest are untouched |
| GeoJsonProcessing.FeaturesAfterOnSuccess | src/main/java/org/geojson/GeoJsonProcessor.java:86-91 | when the walk succeeds, the features processed so far are in place and the rest untouched, so the collection returned is the caller's own |
| GeoJsonProcessing.ReturnedObjectIsTheInput | src/main/java/org/geojson/GeoJsonProcessor.java:119-133 | after a successful call, the caller's object is the returned one for every kind but a LineString or a Polygon that was cut; a LineString is never changed |
| GeoJsonProcessing.FeatureCollectionFailureState | src/main/java/org/geojson/GeoJsonProcessor.java:86-91 | when feature k is the first to fail, the call fails with its failure, features before k are processed, feature k is as its processing left it and the later ones are untouched |
| GeoJsonProcessing.GeometryCollectionFailureState | src/main/java/org/geojson/GeoJsonProcessor.java:100-107 | when member k is the first to fail, the call fails with its failure and the old list keeps members 0..k as processing left them in place and the later ones untouched |
| GeoJsonProcessing.PolygonFixFailureKeepsFixedRings | src/main/java/org/geojson/GeoJsonProcessor.java:36-40 | when fixing stops at ring j, the call fails with that ring's failure and the polygon keeps the rings before j closed and oriented, the others as they were |
| GeoJsonProcessing.PolygonCutFailureKeepsFixedRings | src/main/java/org/geojson/GeoJsonProcessor.java:36-48 | when every ring is fixed and the call still fails, cutting was on and the polygon keeps every ring closed and oriented |
| OrientationScenarios.UnitSquareWinding | src/test/java/org/geojson/util/PolygonOrientationUtilsTest.java:19-96 | the counterclockwise unit square is classified counterclockwise and the clockwise one is not; reverseRing turns the former into (0,1),(1,1),(1,0),(0,0),(0,0), which is open and not counterclockwise |
| OrientationScenarios.FixesOnlyRing | src/main/java/org/geojson/util/PolygonOrientationUtils.java:160-189 | fixing a one-ring polygon of a fixable ring gives Oriented(Closed(ring), 0): the ring closed, then passed through reverseRing when it is not counterclockwise |
| OrientationScenarios.FixReversesOnlyRing | src/main/java/org/geojson/util/PolygonOrientationUtils.java:168-175 | a closed clockwise exterior ring is replaced by its reverseRing form |
| OrientationScenarios.ValidatesOnlyRing | src/main/java/org/geojson/util/PolygonOrientationUtils.java:112-127 | a one-ring polygon that is counterclockwise once closed passes validation and keeps the closed ring |
| OrientationScenarios.SingleFixCanLeaveExteriorClockwise | src/main/java/org/geojson/util/PolygonOrientationUtils.java:160-189 | the clockwise square starting at its top right corner is left open and still clockwise by one fix |
| OrientationScenarios.ValidationAcceptsOnceFixedRing | src/main/java/org/geojson/util/PolygonOrientationUtils.java:94-150 | validation closes that ring again, which makes it counterclockwise, and accepts it |
| OrientationScenarios.SecondFixChangesRing | src/main/java/org/geojson/util/PolygonOrientationUtils.java:160-189 | a second fix changes the once-fixed ring: fixing is not idempotent |
| CuttingScenarios.SegmentCrossings | src/test/java/org/geojson/AntimeridianCuttingTest.java:46-62 | the segments of the tests' paths cross or not, with their interpolated latitudes and boundary positions |
| CuttingScenarios.SegmentOverAntimeridianIsCut | src/test/java/org/geojson/AntimeridianCuttingTest.java:24-44 | the line 170/45 → -170/45 becomes two parts, the first ending at 180/45 and the second starting at -180/45 |
| CuttingScenarios.PathCrossingTwiceHasThreeParts | src/test/java/org/geojson/AntimeridianCuttingTest.java:46-62 | the path that crosses over and back becomes three parts joined at 180/-180 |
| CuttingScenarios.PathAwayFromAntimeridianIsKept | src/test/java/org/geojson/GeoJsonProcessorTest.java:116-126 | the path from 0/0 to 10/10 is returned unchanged |
| CuttingScenarios.SquareSplits | src/test/java/org/geojson/AntimeridianCuttingTest.java:86-122 | the test's square over the antimeridian splits into the expected east and west positions |
| CuttingScenarios.SquareIsCutIntoTwoClosedRings | src/test/java/org/geojson/AntimeridianCuttingTest.java:86-122 | that square becomes a closed east ring along 180 and a closed west ring along -180, each of 5 positions |
| CuttingScenarios.SquarePolygonIsCut | src/test/java/org/geojson/AntimeridianCuttingTest.java:86-122 | a polygon of that square becomes a MultiPolygon of two one-ring polygons |
| CuttingScenarios.NarrowWestHalfCannotBeClosed | src/main/java/org/geojson/util/AntimeridianUtils.java:347-356 | a closed ring of four positions whose west half has two positions makes the cut throw the closing failure |
| ProcessingScenarios.ClockwiseExteriorIsRejected | src/test/java/org/geojson/GeoJsonConfigTest.java:53-102 | validating without fixing rejects a well-formed clockwise exterior ring with the exterior failure, after appending it |
| ProcessingScenarios.ValidationRejectsClockwiseExterior | src/test/java/org/geojson/GeoJsonConfigTest.java:77-101 | the test's clockwise unit square is rejected that way |
| ProcessingScenarios.AutoFixTurnsExteriorCounterClockwise | src/test/java/org/geojson/GeoJsonConfigTest.java:105-133 | with the RFC 7946 switches, adding the clockwise unit square passes and leaves a counterclockwise exterior ring of six positions |
| ProcessingScenarios.FixedThenValidated | src/main/java/org/geojson/Polygon.java:104-116 | under the RFC 7946 switches, a well-formed ring added to an empty polygon is fixed and then validated |
| ProcessingScenarios.UnitSquareIsReversed | src/test/java/org/geojson/GeoJsonConfigTest.java:105-133 | fixing reverses the clockwise unit square into (1,0),(1,1),(0,1),(0,0),(0,0) |
| ProcessingScenarios.ReversedUnitSquareIsReclosed | src/test/java/org/geojson/GeoJsonConfigTest.java:105-133 | validation closes that ring again, which is then counterclockwise |
| ProcessingScenarios.ClockwiseSquareIsReversed | src/test/java/org/geojson/GeoJsonProcessorTest.java:63-84 | fixing the processor test's clockwise 10 by 10 square gives a counterclockwise ring |
| ProcessingScenarios.ProcessorFixesClockwiseSquare | src/test/java/org/geojson/GeoJsonProcessorTest.java:63-84 | the processor with the RFC 7946 switches returns that square as a Polygon with its fixed ring |
| ProcessingScenarios.ProcessorCutsSquareOverAntimeridian | src/main/java/org/geojson/GeoJsonProcessor.java:36-48 | the processor with the RFC 7946 switches returns the square over the antimeridian as a MultiPolygon of its two halves |
| ProcessingScenarios.ProcessorCutsCrossingLineOnly | src/test/java/org/geojson/GeoJsonProcessorTest.java:103-127 | with cutting on, the line from 170 to -170 is cut and the line from 0/0 to 10/10 is returned as it is |

## Left out

- Null arguments (null rings, ring lists and geometries) and their null checks: sequences cannot be null.
- Jackson, JSON (de)serialisation, `GeoJsonMapper`, `Crs` and `createWGS84Crs`: input/output and foreign library code. The `warnOnCrsUse` switch is held but never read.
- IEEE-754 behaviour: NaN, infinities and rounding. Exact reals stand in for doubles.
- The trigonometry of `calculateAverageLongitude` is the parameter `meanDirection`.
- RingCutting.AverageLongitude: states only the range of the result and the empty case, because the circular mean itself is a parameter.
- `getConfig` / `setConfig` of GeoJsonObject are not part of this model.
  - A polygon's configuration is its `config` field, and the processor receives the switches as a value.
  - Polygons created by `cutPolygonAtAntimeridian` and `createPolygonFromRings` are taken to carry the default configuration, under which `add` and `addInteriorRing` only append.
- Aliasing between ring objects and lists is not modelled: rings are values, and "the same object" is the same value.
  - `fixPolygonOrientation` returns a fresh outer list. The rings it closes and reverses are the caller's own rings. The model gives the resulting rings directly.
- The fallback for immutable lists (catching `UnsupportedOperationException`) is not modelled. Every ring is treated as mutable; the fallback yields the same contents in a new list.
- LngLatAlt's additional elements beyond the altitude are not modelled. The appended closing position copies longitude, latitude and altitude, as the source does.
- Feature properties are simplified to a map of strings. Processing only carries them along.
- The `Polygon(List)` and `Polygon(LngLatAlt...)` constructors and `addInteriorRing(LngLatAlt...)` are not modelled. They only call `add` or `addInteriorRing`.
- Geometries.Geometry.Equals: does not model the `super.equals` comparison of GeoJsonObject fields (CRS, bounding box), which are not part of this model; `hashCode` and `toString` are left out too.
- Polygons.Polygon.InteriorRing: computes `1 + index` on unbounded integers; Java's 32-bit `int` addition wraps for `index` equal to `Integer.MAX_VALUE`, giving an index-out-of-bounds failure for a negative position, which the model reports as well but with the unwrapped index in its message.
- `getCoordinates` returning the live list is not modelled: the coordinates are a field that methods reassign.
- MultiPolygon, MultiLineString, LineString, Feature, FeatureCollection and GeometryCollection are constructors of the `GeoJson` datatype rather than classes.
