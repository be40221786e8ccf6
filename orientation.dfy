/**
 * Ring winding and closure under the right-hand rule of RFC 7946
 * (PolygonOrientationUtils): the exterior ring of a polygon must be
 * counterclockwise and every interior ring (hole) clockwise.
 *
 * The source mutates ring lists in place. Here a ring is a value and the
 * operations that change rings return the new state of every ring together
 * with the outcome, so that the state a caller sees after an exception is
 * modelled too.
 */
module PolygonOrientation {
  import opened LngLatAlt
  import opened Failures

  type Ring = seq<Position>

  /** First and last positions agree on longitude and latitude. */
  predicate IsClosed(ring: Ring)
  {
    |ring| > 0 && SameLonLat(ring[0], ring[|ring| - 1])
  }

  // ---------------------------------------------------------------- winding

  /** The term the edge a -> b contributes to the shoelace sum. */
  function Edge(a: Position, b: Position): real
  {
    (b.longitude - a.longitude) * (b.latitude + a.latitude)
  }

  /** Sum of Edge over every consecutive pair; twice the clockwise signed area. */
  function ShoelaceSum(ring: Ring): real
    decreases |ring|
  {
    if |ring| < 2 then 0.0 else Edge(ring[0], ring[1]) + ShoelaceSum(ring[1..])
  }

  /** isCounterClockwise: a negative shoelace sum; rings of fewer than 4 points are rejected. */
  function IsCounterClockwise(ring: Ring): (r: Result<bool>)
    ensures r.Err? <==> |ring| < 4
    ensures r.Err? ==> r.failure == TooFewPoints("Ring")
  {
    if |ring| < 4 then Err(TooFewPoints("Ring")) else Ok(ShoelaceSum(ring) < 0.0)
  }

  lemma {:induction false} ShoelaceAppend(s: Ring, x: Position)
    requires |s| >= 1
    ensures ShoelaceSum(s + [x]) == ShoelaceSum(s) + Edge(s[|s| - 1], x)
    decreases |s|
  {
    if |s| == 1 {
      assert (s + [x])[1..] == [x];
    } else {
      assert (s + [x])[1..] == s[1..] + [x];
      ShoelaceAppend(s[1..], x);
    }
  }

  // -------------------------------------------------------------- reversing

  function Reverse(s: Ring): (r: Ring)
    ensures |r| == |s|
    ensures forall k :: 0 <= k < |s| ==> r[k] == s[|s| - 1 - k]
  {
    if s == [] then [] else Reverse(s[1..]) + [s[0]]
  }

  /**
   * What reverseRing leaves in a ring: the first n-1 positions in reverse
   * order, the last position kept in place.
   */
  function ReversedRing(ring: Ring): (r: Ring)
    ensures |r| == |ring|
    ensures |ring| >= 1 ==> r[|ring| - 1] == ring[|ring| - 1]
    ensures forall k :: 0 <= k < |ring| - 1 ==> r[k] == ring[|ring| - 2 - k]
  {
    if |ring| <= 1 then ring else Reverse(ring[..|ring| - 1]) + [ring[|ring| - 1]]
  }

  /** reverseRing: swaps from both ends of the first n-1 positions, in place. */
  method ReverseRing(ring: array<Position>)
    modifies ring
    ensures ring[..] == ReversedRing(old(ring[..]))
  {
    if ring.Length <= 1 {
      return;
    }
    ghost var original := ring[..];
    SwapFromBothEnds(ring, ring.Length - 2);
    ReversedRingByIndex(original, ring[..]);
  }

  /** The swapping loop of reverseRing, over positions 0 .. m. */
  method SwapFromBothEnds(ring: array<Position>, m: int)
    requires 0 <= m < ring.Length
    modifies ring
    ensures forall k :: 0 <= k <= m ==> ring[k] == old(ring[m - k])
    ensures forall k :: m < k < ring.Length ==> ring[k] == old(ring[k])
  {
    var i, j := 0, m;
    while i < j
      invariant 0 <= i <= j + 1 && j == m - i
      invariant forall k :: 0 <= k <= m && (k < i || j < k) ==> ring[k] == old(ring[m - k])
      invariant forall k :: i <= k <= j ==> ring[k] == old(ring[k])
      invariant forall k :: m < k < ring.Length ==> ring[k] == old(ring[k])
    {
      var t := ring[i];
      ring[i] := ring[j];
      ring[j] := t;
      i, j := i + 1, j - 1;
    }
  }

  /** A sequence that keeps the last point of `s` and lists the others backwards is ReversedRing(s). */
  lemma ReversedRingByIndex(s: Ring, r: Ring)
    requires |r| == |s| >= 2 && r[|s| - 1] == s[|s| - 1]
    requires forall k :: 0 <= k < |s| - 1 ==> r[k] == s[|s| - 2 - k]
    ensures r == ReversedRing(s)
  {
    var expected := ReversedRing(s);
    assert forall k :: 0 <= k < |s| ==> r[k] == expected[k];
  }

  /** Runs ReverseRing over a copy of `ring` held in an array. */
  method ReverseCopy(ring: Ring) returns (r: Ring)
    ensures r == ReversedRing(ring)
  {
    var buffer := new Position[|ring|](k requires 0 <= k < |ring| => ring[k]);
    assert buffer[..] == ring;
    ReverseRing(buffer);
    r := buffer[..];
  }

  /** Sum(Reverse(t)) is the negated sum: every edge is walked backwards. */
  lemma {:induction false} ReversePathNegatesSum(t: Ring)
    ensures ShoelaceSum(Reverse(t)) == -ShoelaceSum(t)
    decreases |t|
  {
    if |t| >= 2 {
      var rest := Reverse(t[1..]);
      assert Reverse(t) == rest + [t[0]];
      ReversePathNegatesSum(t[1..]);
      ShoelaceAppend(rest, t[0]);
      assert rest[|rest| - 1] == t[1];
    } else if |t| == 1 {
      assert Reverse(t) == t;
    }
  }

  /**
   * For a closed ring c, reversing it as reverseRing does and then closing
   * it again negates the shoelace sum: the closing step restores the edge
   * that reverseRing loses.
   */
  lemma ReverseThenCloseNegatesSum(c: Ring)
    requires IsClosed(c) && |c| >= 2
    ensures ShoelaceSum(Closed(ReversedRing(c))) == -ShoelaceSum(c)
  {
    var n := |c|;
    var p := c[..n - 1];
    var last := c[n - 1];
    var r := ReversedRing(c);
    SumOfClosedRing(c);
    ReversedRingSum(c);
    assert r[0] == c[n - 2] && r[n - 1] == last;
    if !IsClosed(r) {
      assert Closed(r) == r + [r[0]];
      ShoelaceAppend(r, r[0]);
      EdgeBackwards(c[n - 2], last);
    } else {
      EdgeOfPointPair(c[n - 2], last);
    }
  }

  /** Splitting off the last edge of a ring. */
  lemma SumOfClosedRing(c: Ring)
    requires |c| >= 2
    ensures ShoelaceSum(c) == ShoelaceSum(c[..|c| - 1]) + Edge(c[|c| - 2], c[|c| - 1])
  {
    assert c == c[..|c| - 1] + [c[|c| - 1]];
    ShoelaceAppend(c[..|c| - 1], c[|c| - 1]);
  }

  /** reverseRing on a closed ring walks the open path backwards and adds an edge of length zero. */
  lemma ReversedRingSum(c: Ring)
    requires IsClosed(c) && |c| >= 2
    ensures ShoelaceSum(ReversedRing(c)) == -ShoelaceSum(c[..|c| - 1])
  {
    var p := c[..|c| - 1];
    var rp := Reverse(p);
    assert ReversedRing(c) == rp + [c[|c| - 1]];
    assert |rp| == |c| - 1 >= 1;
    ShoelaceAppend(rp, c[|c| - 1]);
    ReversePathNegatesSum(p);
    assert rp[|rp| - 1] == c[0];
    EdgeOfPointPair(c[0], c[|c| - 1]);
  }

  lemma EdgeBackwards(a: Position, b: Position)
    ensures Edge(b, a) == -Edge(a, b)
  {
  }

  lemma EdgeOfPointPair(a: Position, b: Position)
    requires SameLonLat(a, b)
    ensures Edge(a, b) == 0.0
  {
  }

  // ---------------------------------------------------------------- closing

  /** The ring, with a copy of its first position appended when the ring is not closed. */
  function Closed(ring: Ring): (r: Ring)
    ensures ring <= r && |r| <= |ring| + 1
    ensures ring != [] ==> IsClosed(r)
    ensures r == ring <==> ring == [] || IsClosed(ring)
    ensures |r| == |ring| + 1 ==> r[|ring|] == ring[0]
  {
    if ring == [] || IsClosed(ring) then ring else ring + [ring[0]]
  }

  /**
   * ensureRingClosed: an empty ring is returned as is, a ring of 1 or 2
   * points is rejected, any other ring is closed. The appended copy is
   * built from longitude, latitude and altitude of the first position.
   */
  function EnsureRingClosed(ring: Ring): (r: Result<Ring>)
    ensures r.Err? <==> 1 <= |ring| < 3
    ensures r.Err? ==> r.failure == TooFewPointsToClose
    ensures r.Ok? ==> r.value == Closed(ring)
  {
    if ring == [] then Ok(ring)
    else if |ring| < 3 then Err(TooFewPointsToClose)
    else Ok(Closed(ring))
  }

  /** validateRingClosed: at least 4 points and closed, or the failure named after `ringName`. */
  function ValidateRingClosed(ring: Ring, ringName: string): (r: Outcome)
    ensures r.Pass? <==> |ring| >= 4 && IsClosed(ring)
    ensures |ring| < 4 ==> r == Fail(TooFewPoints(ringName))
    ensures |ring| >= 4 && !IsClosed(ring) ==> r == Fail(NotClosed(ringName))
  {
    if |ring| < 4 then Fail(TooFewPoints(ringName))
    else if !SameLonLat(ring[0], ring[|ring| - 1]) then Fail(NotClosed(ringName))
    else Pass
  }

  // -------------------------------------------------- validating and fixing

  /** The rings after an operation, together with how the operation ended. */
  datatype RingsOutcome = RingsOutcome(rings: seq<Ring>, outcome: Outcome)

  /** Ring 0 is the exterior ring, rings 1.. are holes. */
  function RingName(index: nat): string
  {
    if index == 0 then "Exterior ring" else InteriorRingName(index)
  }

  /** The winding RFC 7946 requires of ring `index`: counterclockwise exactly for the exterior ring. */
  predicate HasRequiredWinding(ring: Ring, index: nat)
  {
    (ShoelaceSum(ring) < 0.0) == (index == 0)
  }

  function WindingFailure(index: nat): Failure
  {
    if index == 0 then ExteriorNotCounterClockwise else InteriorNotClockwise(index)
  }

  /** Every ring has at least 4 points, is closed and has the winding its role requires. */
  predicate RightHandRule(rings: seq<Ring>)
  {
    forall j :: 0 <= j < |rings| ==>
      |rings[j]| >= 4 && IsClosed(rings[j]) && HasRequiredWinding(rings[j], j)
  }

  /**
   * validatePolygonOrientation from ring `index` on: each ring is size
   * checked, closed in place and then its winding is checked.
   */
  function ValidationFrom(rings: seq<Ring>, index: nat): RingsOutcome
    requires index <= |rings|
    decreases |rings| - index
  {
    if index == |rings| then RingsOutcome(rings, Pass)
    else if |rings[index]| < 4 then RingsOutcome(rings, Fail(TooFewPoints(RingName(index))))
    else
      var closed := Closed(rings[index]);
      var updated := rings[index := closed];
      if !HasRequiredWinding(closed, index) then RingsOutcome(updated, Fail(WindingFailure(index)))
      else ValidationFrom(updated, index + 1)
  }

  method ValidatePolygonOrientation(rings: seq<Ring>) returns (r: RingsOutcome)
    ensures r == ValidationFrom(rings, 0)
  {
    if |rings| == 0 {
      return RingsOutcome(rings, Pass);
    }
    var mutableRings := rings;
    var exteriorRing := mutableRings[0];
    if |exteriorRing| < 4 {
      return RingsOutcome(mutableRings, Fail(TooFewPoints("Exterior ring")));
    }
    exteriorRing := EnsureRingClosed(exteriorRing).value;
    mutableRings := mutableRings[0 := exteriorRing];
    if !IsCounterClockwise(exteriorRing).value {
      return RingsOutcome(mutableRings, Fail(ExteriorNotCounterClockwise));
    }
    var i := 1;
    while i < |mutableRings|
      invariant 1 <= i <= |mutableRings| == |rings|
      invariant ValidationFrom(mutableRings, i) == ValidationFrom(rings, 0)
      decreases |mutableRings| - i
    {
      var interiorRing := mutableRings[i];
      if |interiorRing| < 4 {
        return RingsOutcome(mutableRings, Fail(TooFewPoints(InteriorRingName(i))));
      }
      interiorRing := EnsureRingClosed(interiorRing).value;
      mutableRings := mutableRings[i := interiorRing];
      if IsCounterClockwise(interiorRing).value {
        return RingsOutcome(mutableRings, Fail(InteriorNotClockwise(i)));
      }
      i := i + 1;
    }
    return RingsOutcome(mutableRings, Pass);
  }

  /**
   * Ring `ring` survives fixPolygonOrientation: it can be closed and, once
   * closed, has the 4 points classifying its winding needs.
   */
  predicate Fixable(ring: Ring)
  {
    |ring| >= 4 || (|ring| == 3 && !IsClosed(ring))
  }

  /** The failure fixPolygonOrientation raises for a ring that is not fixable. */
  function FixFailure(ring: Ring): Failure
  {
    if 1 <= |ring| < 3 then TooFewPointsToClose else TooFewPoints("Ring")
  }

  /** A closed ring given the winding its role requires, the way fixPolygonOrientation does it. */
  function Oriented(ring: Ring, index: nat): Ring
  {
    if HasRequiredWinding(ring, index) then ring else ReversedRing(ring)
  }

  /** A ring that is not fixable is left as it is by the closing step. */
  lemma UnfixableRingStaysOpen(ring: Ring)
    requires !Fixable(ring) && (|ring| == 0 || |ring| >= 3)
    ensures Closed(ring) == ring
  {
  }

  /**
   * What fixPolygonOrientation does to ring `index`: the ring closed and,
   * when its winding is the wrong one for its role, reversed; or the
   * failure closing or classifying it throws.
   */
  function FixRing(ring: Ring, index: nat): Result<Ring>
  {
    if Fixable(ring) then Ok(Oriented(Closed(ring), index)) else Err(FixFailure(ring))
  }

  /**
   * fixPolygonOrientation from ring `index` on. A ring that throws has been
   * left as it was (see UnfixableRingStaysOpen), so the state on failure
   * holds the rings fixed so far and the others unchanged.
   */
  function FixFrom(rings: seq<Ring>, index: nat): RingsOutcome
    requires index <= |rings|
    decreases |rings| - index
  {
    if index == |rings| then RingsOutcome(rings, Pass)
    else
      var fixed := FixRing(rings[index], index);
      if fixed.Err? then RingsOutcome(rings, Fail(fixed.failure))
      else FixFrom(rings[index := fixed.value], index + 1)
  }

  /**
   * The body fixPolygonOrientation runs for ring `index`, once for the
   * exterior ring and once per hole: close the ring, classify it and
   * reverse it when its winding is the wrong one for its role.
   */
  method OrientRing(ring: Ring, index: nat) returns (r: Result<Ring>)
    ensures r == FixRing(ring, index)
  {
    var closing := EnsureRingClosed(ring);
    if closing.Err? {
      return Err(closing.failure);
    }
    var closed := closing.value;
    var ccw := IsCounterClockwise(closed);
    if ccw.Err? {
      return Err(ccw.failure);
    }
    if ccw.value != (index == 0) {
      closed := ReverseCopy(closed);
    }
    return Ok(closed);
  }

  method FixPolygonOrientation(rings: seq<Ring>) returns (r: RingsOutcome)
    ensures r == FixFrom(rings, 0)
  {
    if |rings| == 0 {
      return RingsOutcome(rings, Pass);
    }
    var fixedRings := rings;
    var exterior := OrientRing(fixedRings[0], 0);
    if exterior.Err? {
      return RingsOutcome(fixedRings, Fail(exterior.failure));
    }
    fixedRings := fixedRings[0 := exterior.value];
    var i := 1;
    while i < |fixedRings|
      invariant 1 <= i <= |fixedRings| == |rings|
      invariant FixFrom(fixedRings, i) == FixFrom(rings, 0)
      decreases |fixedRings| - i
    {
      var interior := OrientRing(fixedRings[i], i);
      if interior.Err? {
        return RingsOutcome(fixedRings, Fail(interior.failure));
      }
      fixedRings := fixedRings[i := interior.value];
      i := i + 1;
    }
    return RingsOutcome(fixedRings, Pass);
  }

  // ------------------------------------------------------------- properties

  /** Ring `index` passes validatePolygonOrientation. */
  predicate Conforms(ring: Ring, index: nat)
  {
    |ring| >= 4 && HasRequiredWinding(Closed(ring), index)
  }

  /** The failure validatePolygonOrientation reports for a ring that does not conform. */
  function Violation(ring: Ring, index: nat): Failure
  {
    if |ring| < 4 then TooFewPoints(RingName(index)) else WindingFailure(index)
  }

  /** One step of validatePolygonOrientation on a conforming ring: the ring is closed in place. */
  lemma ValidationStep(rings: seq<Ring>, index: nat)
    requires index < |rings| && Conforms(rings[index], index)
    ensures ValidationFrom(rings, index) == ValidationFrom(rings[index := Closed(rings[index])], index + 1)
  {
  }

  /** validatePolygonOrientation stops at a ring that does not conform. */
  lemma ValidationStop(rings: seq<Ring>, index: nat)
    requires index < |rings| && !Conforms(rings[index], index)
    ensures ValidationFrom(rings, index).outcome == Fail(Violation(rings[index], index))
    ensures |ValidationFrom(rings, index).rings| == |rings|
  {
  }

  lemma {:induction false} ValidationFromKeepsLength(rings: seq<Ring>, index: nat)
    requires index <= |rings|
    ensures |ValidationFrom(rings, index).rings| == |rings|
    decreases |rings| - index
  {
    if index < |rings| {
      if Conforms(rings[index], index) {
        ValidationStep(rings, index);
        ValidationFromKeepsLength(rings[index := Closed(rings[index])], index + 1);
      } else {
        ValidationStop(rings, index);
      }
    }
  }

  lemma {:induction false} ValidationFromPasses(rings: seq<Ring>, index: nat)
    requires index <= |rings|
    ensures |ValidationFrom(rings, index).rings| == |rings|
    ensures ValidationFrom(rings, index).outcome.Pass? <==>
      forall j :: index <= j < |rings| ==> Conforms(rings[j], j)
    decreases |rings| - index
  {
    ValidationFromKeepsLength(rings, index);
    if index < |rings| {
      if Conforms(rings[index], index) {
        var updated := rings[index := Closed(rings[index])];
        ValidationStep(rings, index);
        ValidationFromPasses(updated, index + 1);
        ConformingAfterClosing(rings, index);
      } else {
        ValidationStop(rings, index);
      }
    }
  }

  /** Closing a conforming ring in place changes none of the rings after it, so which of them conform is unchanged. */
  lemma ConformingAfterClosing(rings: seq<Ring>, index: nat)
    requires index < |rings| && Conforms(rings[index], index)
    ensures var updated := rings[index := Closed(rings[index])];
      (forall j :: index <= j < |rings| ==> Conforms(rings[j], j)) <==>
      (forall j :: index + 1 <= j < |rings| ==> Conforms(updated[j], j))
  {
    var updated := rings[index := Closed(rings[index])];
    forall j | index < j < |rings|
      ensures Conforms(updated[j], j) == Conforms(rings[j], j)
    {
      assert updated[j] == rings[j];
    }
  }

  lemma {:induction false} ValidationFromClosesRings(rings: seq<Ring>, index: nat)
    requires index <= |rings|
    requires ValidationFrom(rings, index).outcome.Pass?
    ensures var v := ValidationFrom(rings, index);
      |v.rings| == |rings|
      && forall j :: 0 <= j < |rings| ==> v.rings[j] == if j < index then rings[j] else Closed(rings[j])
    decreases |rings| - index
  {
    if index < |rings| {
      if !Conforms(rings[index], index) {
        ValidationStop(rings, index);
        assert false;
      }
      var updated := rings[index := Closed(rings[index])];
      ValidationStep(rings, index);
      ValidationFromClosesRings(updated, index + 1);
      var v := ValidationFrom(updated, index + 1);
      forall j | 0 <= j < |rings|
        ensures v.rings[j] == if j < index then rings[j] else Closed(rings[j])
      {
        if j != index {
          assert updated[j] == rings[j];
        }
      }
    }
  }

  lemma {:induction false} ValidationFromFailsAt(rings: seq<Ring>, index: nat, j: nat)
    requires index <= j < |rings| && !Conforms(rings[j], j)
    requires forall k :: index <= k < j ==> Conforms(rings[k], k)
    ensures ValidationFrom(rings, index).outcome == Fail(Violation(rings[j], j))
    decreases j - index
  {
    if index < j {
      var updated := rings[index := Closed(rings[index])];
      ClosingKeepsLaterRings(rings, index, j);
      ValidationStep(rings, index);
      ValidationFromFailsAt(updated, index + 1, j);
    } else {
      ValidationStop(rings, index);
    }
  }

  /** Closing ring `index` in place keeps the rings index + 1 .. j, conforming or not, as they were. */
  lemma ClosingKeepsLaterRings(rings: seq<Ring>, index: nat, j: nat)
    requires index < j < |rings| && !Conforms(rings[j], j)
    requires forall k :: index <= k < j ==> Conforms(rings[k], k)
    ensures var updated := rings[index := Closed(rings[index])];
      && updated[j] == rings[j]
      && forall k :: index + 1 <= k < j ==> Conforms(updated[k], k)
  {
    var updated := rings[index := Closed(rings[index])];
    forall k | index < k <= j
      ensures updated[k] == rings[k]
    {
    }
  }

  /**
   * validatePolygonOrientation succeeds exactly when every ring has at
   * least 4 points and, once closed, the winding its role requires. On
   * success every ring is closed and the polygon follows the right-hand
   * rule; a polygon that already did is left unchanged. A failure is the
   * one of the first ring that does not conform.
   */
  lemma ValidationSucceedsIffRingsConform(rings: seq<Ring>)
    ensures var v := ValidationFrom(rings, 0);
      && (v.outcome.Pass? <==> forall j :: 0 <= j < |rings| ==> Conforms(rings[j], j))
      && (v.outcome.Pass? ==>
            && |v.rings| == |rings|
            && (forall j :: 0 <= j < |rings| ==> v.rings[j] == Closed(rings[j]))
            && RightHandRule(v.rings))
      && (RightHandRule(rings) ==> v == RingsOutcome(rings, Pass))
      && (forall j :: 0 <= j < |rings| && !Conforms(rings[j], j)
            && (forall k :: 0 <= k < j ==> Conforms(rings[k], k))
            ==> v.outcome == Fail(Violation(rings[j], j)))
  {
    ValidationFromPasses(rings, 0);
    var v := ValidationFrom(rings, 0);
    forall j | 0 <= j < |rings| && !Conforms(rings[j], j) && (forall k :: 0 <= k < j ==> Conforms(rings[k], k))
      ensures v.outcome == Fail(Violation(rings[j], j))
    {
      ValidationFromFailsAt(rings, 0, j);
    }
    if v.outcome.Pass? {
      ValidationFromClosesRings(rings, 0);
      forall j | 0 <= j < |rings|
        ensures |v.rings[j]| >= 4 && IsClosed(v.rings[j]) && HasRequiredWinding(v.rings[j], j)
      {
        assert Conforms(rings[j], j);
      }
    }
    if RightHandRule(rings) {
      forall j | 0 <= j < |rings|
        ensures Conforms(rings[j], j) && Closed(rings[j]) == rings[j]
      {
      }
      assert v.rings == rings;
    }
  }

  /** One step of fixPolygonOrientation on a fixable ring. */
  lemma FixStep(rings: seq<Ring>, index: nat)
    requires index < |rings| && Fixable(rings[index])
    ensures FixFrom(rings, index) == FixFrom(rings[index := Oriented(Closed(rings[index]), index)], index + 1)
  {
  }

  /** fixPolygonOrientation stops at a ring that is not fixable, leaving every ring as it was. */
  lemma FixStop(rings: seq<Ring>, index: nat)
    requires index < |rings| && !Fixable(rings[index])
    ensures FixFrom(rings, index) == RingsOutcome(rings, Fail(FixFailure(rings[index])))
  {
  }

  lemma {:induction false} FixFromKeepsLength(rings: seq<Ring>, index: nat)
    requires index <= |rings|
    ensures |FixFrom(rings, index).rings| == |rings|
    decreases |rings| - index
  {
    if index < |rings| {
      if Fixable(rings[index]) {
        FixStep(rings, index);
        FixFromKeepsLength(rings[index := Oriented(Closed(rings[index]), index)], index + 1);
      } else {
        FixStop(rings, index);
      }
    }
  }

  lemma {:induction false} FixFromPasses(rings: seq<Ring>, index: nat)
    requires index <= |rings|
    ensures |FixFrom(rings, index).rings| == |rings|
    ensures FixFrom(rings, index).outcome.Pass? <==>
      forall j :: index <= j < |rings| ==> Fixable(rings[j])
    decreases |rings| - index
  {
    FixFromKeepsLength(rings, index);
    if index < |rings| {
      if Fixable(rings[index]) {
        var updated := rings[index := Oriented(Closed(rings[index]), index)];
        FixStep(rings, index);
        FixFromPasses(updated, index + 1);
        forall j | index < j < |rings|
          ensures Fixable(updated[j]) == Fixable(rings[j])
        {
          assert updated[j] == rings[j];
        }
        assert (forall j :: index <= j < |rings| ==> Fixable(rings[j])) <==>
          (forall j :: index + 1 <= j < |rings| ==> Fixable(updated[j]));
      } else {
        FixStop(rings, index);
      }
    }
  }

  lemma {:induction false} FixFromOrientsRings(rings: seq<Ring>, index: nat)
    requires index <= |rings|
    requires FixFrom(rings, index).outcome.Pass?
    ensures var f := FixFrom(rings, index);
      |f.rings| == |rings|
      && forall j :: 0 <= j < |rings| ==>
           f.rings[j] == if j < index then rings[j] else Oriented(Closed(rings[j]), j)
    decreases |rings| - index
  {
    if index < |rings| {
      if !Fixable(rings[index]) {
        FixStop(rings, index);
        assert false;
      }
      var updated := rings[index := Oriented(Closed(rings[index]), index)];
      FixStep(rings, index);
      FixFromOrientsRings(updated, index + 1);
      var f := FixFrom(updated, index + 1);
      forall j | 0 <= j < |rings|
        ensures f.rings[j] == if j < index then rings[j] else Oriented(Closed(rings[j]), j)
      {
        if j != index {
          assert updated[j] == rings[j];
        }
      }
    }
  }

  lemma {:induction false} FixFromFailsAt(rings: seq<Ring>, index: nat, j: nat)
    requires index <= j < |rings| && !Fixable(rings[j])
    requires forall k :: index <= k < j ==> Fixable(rings[k])
    ensures FixFrom(rings, index).outcome == Fail(FixFailure(rings[j]))
    decreases j - index
  {
    if index < j {
      var updated := rings[index := Oriented(Closed(rings[index]), index)];
      forall k | index < k <= j
        ensures Fixable(updated[k]) == Fixable(rings[k])
      {
        assert updated[k] == rings[k];
      }
      FixStep(rings, index);
      FixFromFailsAt(updated, index + 1, j);
    } else {
      FixStop(rings, index);
    }
  }

  /**
   * When fixing stops at ring j, the rings before it (from index on) have
   * already been closed and oriented in place, while ring j and the later
   * rings are as they were.
   */
  lemma {:induction false} FixFromFailureRings(rings: seq<Ring>, index: nat, j: nat)
    requires index <= j < |rings| && !Fixable(rings[j])
    requires forall k :: index <= k < j ==> Fixable(rings[k])
    ensures var f := FixFrom(rings, index);
      && |f.rings| == |rings|
      && forall k :: 0 <= k < |rings| ==>
           f.rings[k] == if index <= k < j then Oriented(Closed(rings[k]), k) else rings[k]
    decreases j - index
  {
    if index < j {
      var updated := rings[index := Oriented(Closed(rings[index]), index)];
      forall k | index < k <= j
        ensures Fixable(updated[k]) == Fixable(rings[k])
      {
        assert updated[k] == rings[k];
      }
      FixStep(rings, index);
      FixFromFailureRings(updated, index + 1, j);
    } else {
      FixStop(rings, index);
    }
  }

  /**
   * fixPolygonOrientation succeeds exactly when every ring is fixable; it
   * then returns every ring closed and, where its winding was the wrong
   * one for its role, reversed as reverseRing does. A failure is the one of
   * the first ring that is not fixable.
   */
  lemma FixSucceedsIffRingsFixable(rings: seq<Ring>)
    ensures var f := FixFrom(rings, 0);
      && |f.rings| == |rings|
      && (f.outcome.Pass? <==> forall j :: 0 <= j < |rings| ==> Fixable(rings[j]))
      && (f.outcome.Pass? ==> forall j :: 0 <= j < |rings| ==> f.rings[j] == Oriented(Closed(rings[j]), j))
      && (forall j :: 0 <= j < |rings| && !Fixable(rings[j])
            && (forall k :: 0 <= k < j ==> Fixable(rings[k]))
            ==> f.outcome == Fail(FixFailure(rings[j])))
  {
    FixFromPasses(rings, 0);
    if FixFrom(rings, 0).outcome.Pass? {
      FixFromOrientsRings(rings, 0);
    }
    forall j | 0 <= j < |rings| && !Fixable(rings[j]) && (forall k :: 0 <= k < j ==> Fixable(rings[k]))
      ensures FixFrom(rings, 0).outcome == Fail(FixFailure(rings[j]))
    {
      FixFromFailsAt(rings, 0, j);
    }
  }

  lemma OrientedConforms(ring: Ring, index: nat)
    requires Fixable(ring)
    requires index == 0 ==> ShoelaceSum(Closed(ring)) != 0.0
    ensures Conforms(Oriented(Closed(ring), index), index)
  {
    var c := Closed(ring);
    if !HasRequiredWinding(c, index) {
      ReverseThenCloseNegatesSum(c);
    }
  }

  /**
   * Polygon.processPolygon with both flags set: when every ring is fixable
   * and the closed exterior ring has a non-zero shoelace sum, fixing
   * succeeds and validating the fixed rings succeeds, so the polygon ends
   * up following the right-hand rule.
   */
  lemma FixThenValidateSucceeds(rings: seq<Ring>)
    requires forall j :: 0 <= j < |rings| ==> Fixable(rings[j])
    requires |rings| > 0 ==> ShoelaceSum(Closed(rings[0])) != 0.0
    ensures FixFrom(rings, 0).outcome == Pass
    ensures var v := ValidationFrom(FixFrom(rings, 0).rings, 0);
      v.outcome == Pass && RightHandRule(v.rings)
  {
    FixSucceedsIffRingsFixable(rings);
    var fixed := FixFrom(rings, 0).rings;
    forall j | 0 <= j < |fixed|
      ensures Conforms(fixed[j], j)
    {
      OrientedConforms(rings[j], j);
    }
    ValidationSucceedsIffRingsConform(fixed);
  }
}
