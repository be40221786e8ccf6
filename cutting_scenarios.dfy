/**
 * The cutting of concrete geometries that the repository's own tests use:
 * a segment over the antimeridian, a path that crosses twice, a path that
 * does not cross, and a square ring over the antimeridian.
 */
module CuttingScenarios {
  import opened LngLatAlt
  import opened Antimeridian
  import opened LineCutting
  import opened Failures
  import opened PolygonOrientation
  import opened RingCutting

  const EastOf45: Position := At(170.0, 45.0)
  const WestOf45: Position := At(-170.0, 45.0)
  const WestOf40: Position := At(-160.0, 40.0)
  const EastOf40: Position := At(160.0, 40.0)

  lemma SegmentLongitudes()
    ensures NormalizeLongitude(170.0) == 170.0 && NormalizeLongitude(-170.0) == -170.0
    ensures NormalizeLongitude(160.0) == 160.0 && NormalizeLongitude(-160.0) == -160.0
  {
  }

  lemma SegmentCrossings()
    ensures CrossesAntimeridian(EastOf45, WestOf45)
    ensures !CrossesAntimeridian(WestOf45, WestOf40)
    ensures CrossesAntimeridian(WestOf40, EastOf40)
    ensures InterpolateLatitude(EastOf45, WestOf45) == 45.0
    ensures InterpolateLatitude(WestOf40, EastOf40) == 40.0
    ensures ExitPoint(EastOf45, WestOf45) == At(180.0, 45.0) && EntryPoint(EastOf45, WestOf45) == At(-180.0, 45.0)
    ensures ExitPoint(WestOf40, EastOf40) == At(-180.0, 40.0) && EntryPoint(WestOf40, EastOf40) == At(180.0, 40.0)
  {
    SegmentLongitudes();
    assert UnwrappedLatitude(-160.0, 40.0, 160.0, 40.0) == 40.0;
  }

  /** A segment from 170 to -170 at latitude 45 becomes two parts that meet at 180 / -180. */
  lemma SegmentOverAntimeridianIsCut()
    ensures LineStringCut([EastOf45, WestOf45]) ==
      MultiLineString([[EastOf45, At(180.0, 45.0)], [At(-180.0, 45.0), WestOf45]])
  {
    var points := [EastOf45, WestOf45];
    SegmentCrossings();
    assert points[0] == EastOf45 && points[1] == WestOf45;
    assert CutLineUpTo(points, 1) == LineProgress([], [EastOf45]);
    assert [EastOf45] + [ExitPoint(EastOf45, WestOf45)] == [EastOf45, At(180.0, 45.0)];
    assert CutLineUpTo(points, 2) == LineProgress([[EastOf45, At(180.0, 45.0)]], [At(-180.0, 45.0), WestOf45]);
  }

  /** A path that crosses over and back is cut into three parts. */
  lemma PathCrossingTwiceHasThreeParts()
    ensures LineStringCut([EastOf45, WestOf45, WestOf40, EastOf40]) ==
      MultiLineString([
        [EastOf45, At(180.0, 45.0)],
        [At(-180.0, 45.0), WestOf45, WestOf40, At(-180.0, 40.0)],
        [At(180.0, 40.0), EastOf40]])
  {
    var points := [EastOf45, WestOf45, WestOf40, EastOf40];
    SegmentCrossings();
    assert points[0] == EastOf45 && points[1] == WestOf45 && points[2] == WestOf40 && points[3] == EastOf40;
    assert CutLineUpTo(points, 1) == LineProgress([], [EastOf45]);
    assert [EastOf45] + [ExitPoint(EastOf45, WestOf45)] == [EastOf45, At(180.0, 45.0)];
    assert CutLineUpTo(points, 2) == LineProgress([[EastOf45, At(180.0, 45.0)]], [At(-180.0, 45.0), WestOf45]);
    assert CutLineUpTo(points, 3) == LineProgress([[EastOf45, At(180.0, 45.0)]], [At(-180.0, 45.0), WestOf45, WestOf40]);
    assert [At(-180.0, 45.0), WestOf45, WestOf40] + [ExitPoint(WestOf40, EastOf40)] == [At(-180.0, 45.0), WestOf45, WestOf40, At(-180.0, 40.0)];
  }

  /** A path that stays away from the antimeridian is returned unchanged. */
  lemma PathAwayFromAntimeridianIsKept()
    ensures LineStringCut([At(0.0, 0.0), At(10.0, 10.0)]) == SameLineString
  {
    var points := [At(0.0, 0.0), At(10.0, 10.0)];
    assert NormalizeLongitude(0.0) == 0.0 && NormalizeLongitude(10.0) == 10.0;
    assert !CrossesAntimeridian(points[0], points[1]);
    assert CutLineUpTo(points, 2) == LineProgress([], points);
  }

  // ---------------------------------------------------------------- rings

  const SquareA: Position := At(170.0, 10.0)
  const SquareB: Position := At(170.0, 20.0)
  const SquareC: Position := At(-170.0, 20.0)
  const SquareD: Position := At(-170.0, 10.0)

  /** The square of the polygon-cutting test: 170..-170 in longitude, 10..20 in latitude. */
  const SquareOverAntimeridian: Ring := [SquareA, SquareB, SquareC, SquareD, SquareA]

  lemma SquareSplits()
    ensures SplitUpTo(SquareOverAntimeridian, 4) ==
      Halves([SquareA, SquareB, At(180.0, 20.0), At(180.0, 10.0)], [At(-180.0, 20.0), SquareC, SquareD, At(-180.0, 10.0)])
  {
    var ring := SquareOverAntimeridian;
    SegmentLongitudes();
    assert ring[0] == SquareA && ring[1] == SquareB && ring[2] == SquareC && ring[3] == SquareD && ring[4] == SquareA;
    assert Normalised(SquareA) == SquareA && Normalised(SquareB) == SquareB;
    assert Normalised(SquareC) == SquareC && Normalised(SquareD) == SquareD;
    assert CrossesAntimeridian(SquareB, SquareC) && InterpolateLatitude(SquareB, SquareC) == 20.0;
    assert CrossesAntimeridian(SquareD, SquareA) && InterpolateLatitude(SquareD, SquareA) == 10.0;
    assert SplitUpTo(ring, 1) == Halves([SquareA], []);
    assert SplitUpTo(ring, 2) == Halves([SquareA, SquareB, At(180.0, 20.0)], [At(-180.0, 20.0)]);
    assert SplitUpTo(ring, 3) == Halves([SquareA, SquareB, At(180.0, 20.0)], [At(-180.0, 20.0), SquareC]);
  }

  /**
   * The square is cut into an east ring that runs along 180 and a west ring
   * that runs along -180, the west one closed by repeating its first
   * position.
   */
  lemma SquareIsCutIntoTwoClosedRings()
    ensures RingCut(SquareOverAntimeridian) == Ok([
      [SquareA, SquareB, At(180.0, 20.0), At(180.0, 10.0), SquareA],
      [At(-180.0, 20.0), SquareC, SquareD, At(-180.0, 10.0), At(-180.0, 20.0)]])
  {
    var ring := SquareOverAntimeridian;
    SquareSplits();
    SegmentLongitudes();
    assert Normalised(SquareA) == SquareA;
    assert 1 <= 2 < |ring| && CrossesAntimeridian(ring[1], ring[2]);
    var east := [SquareA, SquareB, At(180.0, 20.0), At(180.0, 10.0), SquareA];
    var west := [At(-180.0, 20.0), SquareC, SquareD, At(-180.0, 10.0)];
    assert RingHalves(ring) == Halves(east, west);
    assert HasCrossing(ring);
    assert IsClosed(east) && !IsClosed(west);
    assert EnsureRingClosed(east) == Ok(east);
    assert EnsureRingClosed(west) == Ok(west + [At(-180.0, 20.0)]);
    assert west + [At(-180.0, 20.0)] == [At(-180.0, 20.0), SquareC, SquareD, At(-180.0, 10.0), At(-180.0, 20.0)];
    assert [east] + [west + [At(-180.0, 20.0)]] == [east, west + [At(-180.0, 20.0)]];
    assert ClosedHalves(Halves(east, west)) == Ok([east, west + [At(-180.0, 20.0)]]);
  }

  /** A polygon made of that square alone becomes a MultiPolygon of the two halves. */
  lemma SquarePolygonIsCut(meanDirection: seq<real> -> real)
    ensures PolygonCutOf([SquareOverAntimeridian], meanDirection) == Ok(MultiPolygon([
      [[SquareA, SquareB, At(180.0, 20.0), At(180.0, 10.0), SquareA]],
      [[At(-180.0, 20.0), SquareC, SquareD, At(-180.0, 10.0), At(-180.0, 20.0)]]]))
  {
    var rings := [SquareOverAntimeridian];
    SquareIsCutIntoTwoClosedRings();
    PolygonIsCutIffExteriorCrosses(rings, meanDirection);
    assert HasCrossing(rings[0]) by {
      SegmentLongitudes();
      assert CrossesAntimeridian(SquareOverAntimeridian[1], SquareOverAntimeridian[2]);
    }
    assert PolygonCrosses(rings);
    assert HoleSides(rings, 1, RingCut, meanDirection) == Ok(Sides([], []));
    var east := [SquareA, SquareB, At(180.0, 20.0), At(180.0, 10.0), SquareA];
    var west := [At(-180.0, 20.0), SquareC, SquareD, At(-180.0, 10.0), At(-180.0, 20.0)];
    assert RingCut(rings[0]) == Ok([east, west]);
    assert [east] + [] == [east] && [west] + [] == [west];
  }

  /**
   * A closed ring whose west half has only two positions: closing that half
   * fails, so cutting raises although the ring itself is valid.
   */
  lemma NarrowWestHalfCannotBeClosed()
    ensures RingCut([At(170.0, 0.0), At(-170.0, 0.0), At(10.0, 0.0), At(170.0, 0.0)]) == Err(TooFewPointsToClose)
  {
    var ring := [At(170.0, 0.0), At(-170.0, 0.0), At(10.0, 0.0), At(170.0, 0.0)];
    SegmentLongitudes();
    assert NormalizeLongitude(10.0) == 10.0;
    assert CrossesAntimeridian(ring[0], ring[1]) && InterpolateLatitude(ring[0], ring[1]) == 0.0;
    assert !CrossesAntimeridian(ring[1], ring[2]) && !CrossesAntimeridian(ring[2], ring[3]);
    assert Normalised(ring[0]) == ring[0] && Normalised(ring[1]) == ring[1] && Normalised(ring[2]) == ring[2];
    assert SplitUpTo(ring, 1) == Halves([ring[0], At(180.0, 0.0)], [At(-180.0, 0.0)]);
    assert SplitUpTo(ring, 2) == Halves([ring[0], At(180.0, 0.0)], [At(-180.0, 0.0), ring[1]]);
    assert RingHalves(ring).west == [At(-180.0, 0.0), ring[1]];
  }
}
