/**
 * The configuration and processor behaviour the repository's tests check,
 * on their own polygons and line strings: validation rejecting a clockwise
 * exterior ring, auto-fixing turning it counterclockwise, and the processor
 * fixing, cutting or keeping geometries under the RFC 7946 switches.
 */
module ProcessingScenarios {
  import opened LngLatAlt
  import opened Failures
  import opened PolygonOrientation
  import opened Antimeridian
  import opened Configuration
  import opened Polygons
  import opened OrientationScenarios
  import LineCutting
  import RingCutting
  import CuttingScenarios
  import GeoJsonProcessing

  /** The RFC 7946 preset with auto-fixing switched off. */
  const ValidateOnly: Flags := Flags(true, true, true, false)

  /**
   * Adding a closed ring of at least 4 points whose winding is clockwise to
   * an empty polygon that validates but does not fix fails with the
   * exterior-ring failure; the polygon keeps the ring, as the list append
   * happens before processing.
   */
  lemma ClockwiseExteriorIsRejected(ring: Ring)
    requires ValidateRingClosed(ring, "Ring") == Pass && !HasRequiredWinding(ring, 0)
    ensures AddOutcome([], ring, ValidateOnly) == RingsOutcome([ring], Fail(ExteriorNotCounterClockwise))
  {
    assert Closed(ring) == ring;
    ReplaceOnlyRing(ring, ring);
    assert [] + [ring] == [ring];
  }

  /** The test's clockwise unit square is such a ring. */
  lemma ValidationRejectsClockwiseExterior()
    ensures AddOutcome([], UnitSquareClockwise, ValidateOnly) ==
      RingsOutcome([UnitSquareClockwise], Fail(ExteriorNotCounterClockwise))
  {
    UnitSquareClockwiseIsWellFormed();
    ClockwiseExteriorIsRejected(UnitSquareClockwise);
  }

  lemma UnitSquareClockwiseIsWellFormed()
    ensures ValidateRingClosed(UnitSquareClockwise, "Ring") == Pass
    ensures !HasRequiredWinding(UnitSquareClockwise, 0)
  {
    var o, x, xy, y := At(0.0, 0.0), At(1.0, 0.0), At(1.0, 1.0), At(0.0, 1.0);
    var ring := UnitSquareClockwise;
    assert ring == [o, y, xy, x, o];
    assert SameLonLat(ring[0], ring[4]);
    UnitSquareWinding();
  }

  /** The message of that failure contains the words the test looks for. */
  lemma ExteriorMessageNamesTheRule()
    ensures "Exterior ring must be counterclockwise" <= Message(ExteriorNotCounterClockwise)
  {
  }

  /**
   * Adding the clockwise unit square with auto-fixing on reverses it (the
   * reversal drops the closing position), and validation closes it again:
   * the exterior ring the polygon ends with is counterclockwise.
   */
  lemma AutoFixTurnsExteriorCounterClockwise()
    ensures var a := AddOutcome([], UnitSquareClockwise, Rfc7946Flags);
      && a.outcome == Pass
      && a.rings == [UnitSquareReclosed]
      && IsCounterClockwise(a.rings[0]) == Ok(true)
  {
    UnitSquareClockwiseIsWellFormed();
    FixedThenValidated(UnitSquareClockwise);
    UnitSquareIsReversed();
    ReversedUnitSquareIsReclosed();
  }

  /** Under the RFC 7946 switches, a well-formed ring added to an empty polygon is fixed and then validated. */
  lemma FixedThenValidated(ring: Ring)
    requires ValidateRingClosed(ring, "Ring") == Pass
    ensures var fixed := FixFrom([ring], 0);
      AddOutcome([], ring, Rfc7946Flags) == if fixed.outcome.Fail? then fixed else ValidationFrom(fixed.rings, 0)
  {
    assert [] + [ring] == [ring];
  }

  /** The clockwise unit square reversed: both copies of the closing position stay, at the end. */
  const UnitSquareReversed: Ring := [At(1.0, 0.0), At(1.0, 1.0), At(0.0, 1.0), At(0.0, 0.0), At(0.0, 0.0)]

  /** That ring closed again by validation. */
  const UnitSquareReclosed: Ring := [At(1.0, 0.0), At(1.0, 1.0), At(0.0, 1.0), At(0.0, 0.0), At(0.0, 0.0), At(1.0, 0.0)]

  /** Fixing reverses the clockwise unit square. */
  lemma UnitSquareIsReversed()
    ensures FixFrom([UnitSquareClockwise], 0) == RingsOutcome([UnitSquareReversed], Pass)
  {
    UnitSquareClockwiseIsWellFormed();
    FixReversesOnlyRing(UnitSquareClockwise);
    UnitSquareReversal();
  }

  lemma UnitSquareReversal()
    ensures ReversedRing(UnitSquareClockwise) == UnitSquareReversed
  {
    var r := ReversedRing(UnitSquareClockwise);
    assert r[0] == At(1.0, 0.0) && r[1] == At(1.0, 1.0) && r[2] == At(0.0, 1.0);
    assert r[3] == At(0.0, 0.0) && r[4] == At(0.0, 0.0);
  }

  /** Closing the reversed square appends its first position, which makes it counterclockwise. */
  lemma UnitSquareReclosedWinding()
    ensures Closed(UnitSquareReversed) == UnitSquareReclosed
    ensures ShoelaceSum(UnitSquareReclosed) == -2.0
  {
    var o, x, xy, y := At(0.0, 0.0), At(1.0, 0.0), At(1.0, 1.0), At(0.0, 1.0);
    var reversed := UnitSquareReversed;
    assert reversed == [x, xy, y, o, o];
    assert !IsClosed(reversed);
    assert UnitSquareReclosed == reversed + [x];
    SumOfFive(x, xy, y, o, o);
    ShoelaceAppend(reversed, x);
  }

  /** Validating the reversed square, which does not end where it starts, closes it again and passes. */
  lemma ReversedUnitSquareIsReclosed()
    ensures ValidationFrom([UnitSquareReversed], 0) == RingsOutcome([UnitSquareReclosed], Pass)
    ensures IsCounterClockwise(UnitSquareReclosed) == Ok(true)
  {
    UnitSquareReclosedWinding();
    ValidatesOnlyRing(UnitSquareReversed);
  }

  // ------------------------------------------------------------- processor

  const Origin: Position := At(0.0, 0.0)
  const North: Position := At(0.0, 10.0)
  const NorthEast: Position := At(10.0, 10.0)
  const East: Position := At(10.0, 0.0)

  /** The processor test's clockwise square, 10 degrees on a side. */
  const ClockwiseSquare: Ring := [Origin, North, NorthEast, East, Origin]

  lemma ClockwiseSquareStaysOffAntimeridian()
    ensures !HasCrossing([East, NorthEast, North, Origin, Origin])
  {
    var ring := [East, NorthEast, North, Origin, Origin];
    assert NormalizeLongitude(0.0) == 0.0 && NormalizeLongitude(10.0) == 10.0;
    forall i | 1 <= i < |ring|
      ensures !CrossesAntimeridian(ring[i - 1], ring[i])
    {
    }
  }

  /**
   * The processor, with fixing and cutting on, returns the clockwise square
   * as a Polygon whose exterior ring is reversed and counterclockwise.
   */
  lemma ClockwiseSquareIsReversed()
    ensures FixFrom([ClockwiseSquare], 0) == RingsOutcome([[East, NorthEast, North, Origin, Origin]], Pass)
    ensures IsCounterClockwise([East, NorthEast, North, Origin, Origin]) == Ok(true)
  {
    var ring := ClockwiseSquare;
    var fixed := [East, NorthEast, North, Origin, Origin];
    assert ring == [Origin, North, NorthEast, East, Origin];
    SumOfFive(Origin, North, NorthEast, East, Origin);
    assert ShoelaceSum(ring) == 200.0;
    assert Closed(ring) == ring && !HasRequiredWinding(ring, 0);
    var reversed := ReversedRing(ring);
    assert reversed[0] == East && reversed[1] == NorthEast && reversed[2] == North && reversed[3] == Origin && reversed[4] == Origin;
    assert reversed == fixed;
    FixesOnlyRing(ring);
    SumOfFive(East, NorthEast, North, Origin, Origin);
    assert ShoelaceSum(fixed) == -200.0;
  }

  lemma ProcessorFixesClockwiseSquare(meanDirection: seq<real> -> real)
    ensures GeoJsonProcessing.ProcessResult(GeoJsonProcessing.Polygon([ClockwiseSquare]), Rfc7946Flags, meanDirection)
         == Ok(GeoJsonProcessing.Polygon([[East, NorthEast, North, Origin, Origin]]))
  {
    var fixed := [East, NorthEast, North, Origin, Origin];
    ClockwiseSquareIsReversed();
    ClockwiseSquareStaysOffAntimeridian();
    RingCutting.PolygonIsCutIffExteriorCrosses([fixed], meanDirection);
  }

  /**
   * The processor cuts the counterclockwise square over the antimeridian
   * into a MultiPolygon of its two halves; fixing leaves it as it is.
   */
  lemma ProcessorCutsSquareOverAntimeridian(meanDirection: seq<real> -> real)
    ensures GeoJsonProcessing.ProcessResult(
      GeoJsonProcessing.Polygon([CuttingScenarios.SquareOverAntimeridian]), Rfc7946Flags, meanDirection)
      == Ok(GeoJsonProcessing.MultiPolygon([
        [[CuttingScenarios.SquareA, CuttingScenarios.SquareB, At(180.0, 20.0), At(180.0, 10.0), CuttingScenarios.SquareA]],
        [[At(-180.0, 20.0), CuttingScenarios.SquareC, CuttingScenarios.SquareD, At(-180.0, 10.0), At(-180.0, 20.0)]]]))
  {
    var ring := CuttingScenarios.SquareOverAntimeridian;
    var a, b, c, d := CuttingScenarios.SquareA, CuttingScenarios.SquareB, CuttingScenarios.SquareC, CuttingScenarios.SquareD;
    assert ring == [a, b, c, d, a];
    SumOfFive(a, b, c, d, a);
    assert ShoelaceSum(ring) == -6800.0;
    assert Closed(ring) == ring && HasRequiredWinding(ring, 0);
    FixesOnlyRing(ring);
    CuttingScenarios.SquarePolygonIsCut(meanDirection);
  }

  /** With cutting on, the test's line from 170 to -170 is cut and the line from 0 to 10 is kept. */
  lemma ProcessorCutsCrossingLineOnly()
    ensures GeoJsonProcessing.LineStringResult([At(170.0, 0.0), At(-170.0, 10.0)], Rfc7946Flags).MultiLineString?
    ensures GeoJsonProcessing.LineStringResult([At(0.0, 0.0), At(10.0, 10.0)], Rfc7946Flags)
         == GeoJsonProcessing.LineString([At(0.0, 0.0), At(10.0, 10.0)])
  {
    var crossing := [At(170.0, 0.0), At(-170.0, 10.0)];
    CuttingScenarios.SegmentLongitudes();
    assert CrossesAntimeridian(crossing[0], crossing[1]);
    LineCutting.LineIsCutIffItCrosses(crossing);
    CuttingScenarios.PathAwayFromAntimeridianIsKept();
  }
}
