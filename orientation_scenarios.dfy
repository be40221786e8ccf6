/**
 * Concrete rings: the unit squares of the repository's tests, and a
 * clockwise square starting at its top-right corner (SquareFromTopRight),
 * with the winding, reversal and fixing results the model gives them.
 */
module OrientationScenarios {
  import opened LngLatAlt
  import opened Failures
  import opened PolygonOrientation

  lemma SumOfFive(a: Position, b: Position, c: Position, d: Position, e: Position)
    ensures ShoelaceSum([a, b, c, d, e]) == Edge(a, b) + Edge(b, c) + Edge(c, d) + Edge(d, e)
  {
    assert [a, b, c, d, e][1..] == [b, c, d, e];
    assert [b, c, d, e][1..] == [c, d, e];
    assert [c, d, e][1..] == [d, e];
    assert [d, e][1..] == [e];
    assert ShoelaceSum([d, e]) == Edge(d, e);
    assert ShoelaceSum([c, d, e]) == Edge(c, d) + Edge(d, e);
    assert ShoelaceSum([b, c, d, e]) == Edge(b, c) + Edge(c, d) + Edge(d, e);
  }

  const UnitSquareCounterClockwise: Ring :=
    [At(0.0, 0.0), At(1.0, 0.0), At(1.0, 1.0), At(0.0, 1.0), At(0.0, 0.0)]
  const UnitSquareClockwise: Ring :=
    [At(0.0, 0.0), At(0.0, 1.0), At(1.0, 1.0), At(1.0, 0.0), At(0.0, 0.0)]

  /**
   * The unit square walked counterclockwise is classified counterclockwise
   * and walked clockwise is not; reverseRing turns the counterclockwise one
   * into a ring that is no longer closed and is classified clockwise.
   */
  lemma UnitSquareWinding()
    ensures IsCounterClockwise(UnitSquareCounterClockwise) == Ok(true)
    ensures IsCounterClockwise(UnitSquareClockwise) == Ok(false)
    ensures ReversedRing(UnitSquareCounterClockwise)
         == [At(0.0, 1.0), At(1.0, 1.0), At(1.0, 0.0), At(0.0, 0.0), At(0.0, 0.0)]
    ensures !IsClosed(ReversedRing(UnitSquareCounterClockwise))
    ensures IsCounterClockwise(ReversedRing(UnitSquareCounterClockwise)) == Ok(false)
  {
    var o, x, xy, y := At(0.0, 0.0), At(1.0, 0.0), At(1.0, 1.0), At(0.0, 1.0);
    assert UnitSquareCounterClockwise == [o, x, xy, y, o];
    assert UnitSquareClockwise == [o, y, xy, x, o];
    SumOfFive(o, x, xy, y, o);
    assert Edge(o, x) == 0.0 && Edge(x, xy) == 0.0 && Edge(xy, y) == -2.0 && Edge(y, o) == 0.0;
    SumOfFive(o, y, xy, x, o);
    assert Edge(o, y) == 0.0 && Edge(y, xy) == 2.0 && Edge(xy, x) == 0.0 && Edge(x, o) == 0.0;
    var r := ReversedRing(UnitSquareCounterClockwise);
    assert r[0] == y && r[1] == xy && r[2] == x && r[3] == o && r[4] == o;
    assert r == [y, xy, x, o, o];
    SumOfFive(y, xy, x, o, o);
    assert Edge(y, xy) == 2.0 && Edge(xy, x) == 0.0 && Edge(x, o) == 0.0 && Edge(o, o) == 0.0;
  }

  /** A clockwise square whose closing edge carries all of its area. */
  const SquareFromTopRight: Ring :=
    [At(10.0, 20.0), At(10.0, 10.0), At(0.0, 10.0), At(0.0, 20.0), At(10.0, 20.0)]

  const SquareFromTopRightReversed: Ring :=
    [At(0.0, 20.0), At(0.0, 10.0), At(10.0, 10.0), At(10.0, 20.0), At(10.0, 20.0)]

  lemma SquareFromTopRightReversal()
    ensures ReversedRing(SquareFromTopRight) == SquareFromTopRightReversed
  {
    var r := ReversedRing(SquareFromTopRight);
    assert r[0] == At(0.0, 20.0) && r[1] == At(0.0, 10.0) && r[2] == At(10.0, 10.0);
    assert r[3] == At(10.0, 20.0) && r[4] == At(10.0, 20.0);
  }

  lemma SquareFromTopRightSum()
    ensures ShoelaceSum(SquareFromTopRight) == 200.0
  {
    var a, b, c, d := At(10.0, 20.0), At(10.0, 10.0), At(0.0, 10.0), At(0.0, 20.0);
    assert SquareFromTopRight == [a, b, c, d, a];
    SumOfFive(a, b, c, d, a);
    assert Edge(a, b) == 0.0 && Edge(b, c) == -200.0 && Edge(c, d) == 0.0 && Edge(d, a) == 400.0;
  }

  lemma SquareFromTopRightReversedSum()
    ensures ShoelaceSum(SquareFromTopRightReversed) == 200.0
    ensures IsCounterClockwise(SquareFromTopRightReversed) == Ok(false)
    ensures !IsClosed(SquareFromTopRightReversed)
  {
    var a, b, c, d := At(0.0, 20.0), At(0.0, 10.0), At(10.0, 10.0), At(10.0, 20.0);
    assert SquareFromTopRightReversed == [a, b, c, d, d];
    SumOfFive(a, b, c, d, d);
    assert Edge(a, b) == 0.0 && Edge(b, c) == 200.0 && Edge(c, d) == 0.0 && Edge(d, d) == 0.0;
  }

  lemma SquareFromTopRightReclosedSum()
    ensures Closed(SquareFromTopRightReversed) == SquareFromTopRightReversed + [At(0.0, 20.0)]
    ensures ShoelaceSum(SquareFromTopRightReversed + [At(0.0, 20.0)]) == -200.0
  {
    SquareFromTopRightReversedSum();
    ShoelaceAppend(SquareFromTopRightReversed, At(0.0, 20.0));
    assert Edge(At(10.0, 20.0), At(0.0, 20.0)) == -400.0;
  }

  /** Replacing the only ring of a one-ring polygon. */
  lemma ReplaceOnlyRing(ring: Ring, replacement: Ring)
    ensures [ring][0 := replacement] == [replacement]
  {
  }

  /** Fixing a polygon of one fixable ring closes the ring and gives it the exterior winding. */
  lemma FixesOnlyRing(ring: Ring)
    requires Fixable(ring)
    ensures FixFrom([ring], 0) == RingsOutcome([Oriented(Closed(ring), 0)], Pass)
  {
    var fixed := Oriented(Closed(ring), 0);
    FixStep([ring], 0);
    ReplaceOnlyRing(ring, fixed);
    assert FixFrom([fixed], 1) == RingsOutcome([fixed], Pass);
  }

  /** A closed clockwise ring of at least 4 points, alone in a polygon, is reversed by fixing. */
  lemma FixReversesOnlyRing(ring: Ring)
    requires |ring| >= 4 && IsClosed(ring) && !HasRequiredWinding(ring, 0)
    ensures FixFrom([ring], 0) == RingsOutcome([ReversedRing(ring)], Pass)
  {
    FixesOnlyRing(ring);
  }

  /** Validating a polygon of one ring of at least 4 points that, once closed, is counterclockwise passes and keeps it closed. */
  lemma ValidatesOnlyRing(ring: Ring)
    requires |ring| >= 4 && HasRequiredWinding(Closed(ring), 0)
    ensures ValidationFrom([ring], 0) == RingsOutcome([Closed(ring)], Pass)
  {
    var closed := Closed(ring);
    ReplaceOnlyRing(ring, closed);
    assert ValidationFrom([closed], 1) == RingsOutcome([closed], Pass);
  }

  /**
   * Fixing this exterior ring once leaves it open and still classified
   * clockwise: the closing edge, which carries the area, is lost by
   * reverseRing.
   */
  lemma SingleFixCanLeaveExteriorClockwise()
    ensures FixFrom([SquareFromTopRight], 0) == RingsOutcome([SquareFromTopRightReversed], Pass)
    ensures IsCounterClockwise(SquareFromTopRightReversed) == Ok(false)
    ensures !IsClosed(SquareFromTopRightReversed)
  {
    SquareFromTopRightReversal();
    SquareFromTopRightSum();
    var s, r := SquareFromTopRight, SquareFromTopRightReversed;
    assert IsClosed(s) && |s| == 5;
    assert Oriented(Closed(s), 0) == r;
    FixesOnlyRing(s);
    SquareFromTopRightReversedSum();
  }

  /** Validation closes the once-fixed ring again, which makes it counterclockwise, and accepts it. */
  lemma ValidationAcceptsOnceFixedRing()
    ensures ValidationFrom([SquareFromTopRightReversed], 0)
         == RingsOutcome([SquareFromTopRightReversed + [At(0.0, 20.0)]], Pass)
  {
    SquareFromTopRightReclosedSum();
    ValidatesOnlyRing(SquareFromTopRightReversed);
  }

  /** A second fix changes the once-fixed ring again: fixPolygonOrientation is not idempotent. */
  lemma SecondFixChangesRing()
    ensures FixFrom([SquareFromTopRightReversed], 0).rings != [SquareFromTopRightReversed]
  {
    SquareFromTopRightReclosedSum();
    var r := SquareFromTopRightReversed;
    var c := r + [At(0.0, 20.0)];
    assert FixFrom([c], 1) == RingsOutcome([c], Pass);
    assert c != r;
  }
}
