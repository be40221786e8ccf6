/**
 * Polygon: a mutable list of rings, ring 0 the exterior ring and the others
 * holes, that runs the orientation engine every time a ring is added or
 * replaced, under the switches of its configuration.
 */
module Polygons {
  import opened LngLatAlt
  import opened Failures
  import opened PolygonOrientation
  import opened Configuration

  // ----------------------------------------------------------- specification

  /**
   * processPolygon on the ring list `rings`: nothing for an empty polygon;
   * otherwise fixPolygonOrientation when auto-fixing, then
   * validatePolygonOrientation when validating. An exception from fixing
   * ends the call; the rings then hold what fixing changed in place.
   */
  function Processed(rings: seq<Ring>, flags: Flags): RingsOutcome
  {
    if |rings| == 0 then RingsOutcome(rings, Pass)
    else
      var fixed := if flags.autoFixPolygonOrientation then FixFrom(rings, 0) else RingsOutcome(rings, Pass);
      if fixed.outcome.Fail? || !flags.validatePolygonOrientation then fixed
      else ValidationFrom(fixed.rings, 0)
  }

  /**
   * add: an empty ring changes nothing; when validating, a ring of fewer
   * than 4 points or an open ring is rejected before it is appended;
   * otherwise the ring is appended and the polygon processed.
   */
  function AddOutcome(rings: seq<Ring>, ring: Ring, flags: Flags): RingsOutcome
  {
    if |ring| == 0 then RingsOutcome(rings, Pass)
    else if flags.validatePolygonOrientation && ValidateRingClosed(ring, "Ring").Fail? then
      RingsOutcome(rings, ValidateRingClosed(ring, "Ring"))
    else Processed(rings + [ring], flags)
  }

  /** addInteriorRing: rejected on a polygon without rings, otherwise appended and processed. */
  function AddInteriorOutcome(rings: seq<Ring>, ring: Ring, flags: Flags): RingsOutcome
  {
    if |rings| == 0 then RingsOutcome(rings, Fail(NoExteriorRing))
    else Processed(rings + [ring], flags)
  }

  /** setExteriorRing: the ring becomes ring 0, inserted or replacing the old one, and the polygon is processed. */
  function SetExteriorOutcome(rings: seq<Ring>, ring: Ring, flags: Flags): RingsOutcome
  {
    Processed(if |rings| == 0 then [ring] else rings[0 := ring], flags)
  }

  // --------------------------------------------------------------- the class

  class Polygon {
    var coordinates: seq<Ring>
    var config: Flags

    /** A polygon without rings, processed under `config`. */
    constructor (config: Flags)
      ensures coordinates == [] && this.config == config
    {
      coordinates := [];
      this.config := config;
    }

    /**
     * processPolygon. When fixing throws, the ring list is not replaced in
     * the source, but the rings it holds have been closed and reversed in
     * place, which is what the failure state of FixFrom records.
     */
    method ProcessPolygon() returns (outcome: Outcome)
      modifies this
      ensures config == old(config)
      ensures coordinates == Processed(old(coordinates), config).rings
      ensures outcome == Processed(old(coordinates), config).outcome
    {
      if |coordinates| == 0 {
        return Pass;
      }
      if config.autoFixPolygonOrientation {
        var fixed := FixPolygonOrientation(coordinates);
        coordinates := fixed.rings;
        if fixed.outcome.Fail? {
          return fixed.outcome;
        }
      }
      if config.validatePolygonOrientation {
        var validated := ValidatePolygonOrientation(coordinates);
        coordinates := validated.rings;
        return validated.outcome;
      }
      return Pass;
    }

    method Add(ring: Ring) returns (outcome: Outcome)
      modifies this
      ensures config == old(config)
      ensures coordinates == AddOutcome(old(coordinates), ring, config).rings
      ensures outcome == AddOutcome(old(coordinates), ring, config).outcome
    {
      if |ring| == 0 {
        return Pass;
      }
      if config.validatePolygonOrientation {
        if |ring| < 4 {
          return Fail(TooFewPoints("Ring"));
        }
        if ring[0].longitude != ring[|ring| - 1].longitude || ring[0].latitude != ring[|ring| - 1].latitude {
          return Fail(NotClosed("Ring"));
        }
      }
      coordinates := coordinates + [ring];
      outcome := ProcessPolygon();
    }

    /** getExteriorRing: ring 0, or the failure of a polygon without rings. */
    function ExteriorRing(): (r: Result<Ring>)
      reads this
      ensures r.Ok? <==> |coordinates| > 0
      ensures r.Ok? ==> r.value == coordinates[0]
      ensures r.Err? ==> r.failure == NoExteriorRing
    {
      if |coordinates| == 0 then Err(NoExteriorRing) else Ok(coordinates[0])
    }

    /** getInteriorRings: every ring but the first. */
    function InteriorRings(): (r: Result<seq<Ring>>)
      reads this
      ensures r.Ok? <==> |coordinates| > 0
      ensures r.Ok? ==> |r.value| == |coordinates| - 1
      ensures r.Ok? ==> forall i :: 0 <= i < |r.value| ==> r.value[i] == coordinates[i + 1]
      ensures r.Err? ==> r.failure == NoExteriorRing
    {
      if |coordinates| == 0 then Err(NoExteriorRing) else Ok(coordinates[1..])
    }

    /**
     * getInteriorRing(index): ring 1 + index. The list lookup rejects
     * positions outside the list, but index -1 reaches the exterior ring.
     */
    function InteriorRing(index: int): (r: Result<Ring>)
      reads this
      ensures |coordinates| == 0 ==> r == Err(NoExteriorRing)
      ensures |coordinates| > 0 ==> (r.Ok? <==> -1 <= index < |coordinates| - 1)
      ensures r.Ok? ==> r.value == coordinates[1 + index]
      ensures |coordinates| > 0 && r.Err? ==> r.failure == IndexOutOfBounds(1 + index, |coordinates|)
    {
      if |coordinates| == 0 then Err(NoExteriorRing)
      else if 0 <= 1 + index < |coordinates| then Ok(coordinates[1 + index])
      else Err(IndexOutOfBounds(1 + index, |coordinates|))
    }

    method AddInteriorRing(ring: Ring) returns (outcome: Outcome)
      modifies this
      ensures config == old(config)
      ensures coordinates == AddInteriorOutcome(old(coordinates), ring, config).rings
      ensures outcome == AddInteriorOutcome(old(coordinates), ring, config).outcome
    {
      if |coordinates| == 0 {
        return Fail(NoExteriorRing);
      }
      coordinates := coordinates + [ring];
      outcome := ProcessPolygon();
    }

    method SetExteriorRing(ring: Ring) returns (outcome: Outcome)
      modifies this
      ensures config == old(config)
      ensures coordinates == SetExteriorOutcome(old(coordinates), ring, config).rings
      ensures outcome == SetExteriorOutcome(old(coordinates), ring, config).outcome
    {
      if |coordinates| == 0 {
        coordinates := [ring];
      } else {
        coordinates := coordinates[0 := ring];
      }
      outcome := ProcessPolygon();
    }
  }

  // -------------------------------------------------------------- properties

  /** With neither fixing nor validation switched on, processing changes nothing. */
  lemma ProcessedWithoutSwitches(rings: seq<Ring>, flags: Flags)
    requires !flags.autoFixPolygonOrientation && !flags.validatePolygonOrientation
    ensures Processed(rings, flags) == RingsOutcome(rings, Pass)
  {
  }

  /**
   * With validation switched on, a polygon that comes through processing
   * follows the right-hand rule: every ring of at least 4 points, closed,
   * the exterior counterclockwise and every hole clockwise.
   */
  lemma ValidatedPolygonFollowsRightHandRule(rings: seq<Ring>, flags: Flags)
    requires flags.validatePolygonOrientation
    requires Processed(rings, flags).outcome.Pass?
    ensures RightHandRule(Processed(rings, flags).rings)
  {
    if |rings| > 0 {
      var fixed := if flags.autoFixPolygonOrientation then FixFrom(rings, 0) else RingsOutcome(rings, Pass);
      ValidationSucceedsIffRingsConform(fixed.rings);
    }
  }

  /**
   * Validation without fixing accepts a polygon exactly when every ring
   * conforms, and then only closes its rings.
   */
  lemma ValidationOnlyAcceptsConformingPolygons(rings: seq<Ring>, flags: Flags)
    requires flags.validatePolygonOrientation && !flags.autoFixPolygonOrientation
    ensures var p := Processed(rings, flags);
      && (p.outcome.Pass? <==> forall j :: 0 <= j < |rings| ==> Conforms(rings[j], j))
      && (p.outcome.Pass? ==> |p.rings| == |rings| && forall j :: 0 <= j < |rings| ==> p.rings[j] == Closed(rings[j]))
  {
    ValidationSucceedsIffRingsConform(rings);
  }

  /**
   * Fixing and validating together accept every polygon whose rings can be
   * closed and classified, provided the closed exterior ring has a non-zero
   * shoelace sum.
   */
  lemma FixedPolygonPassesValidation(rings: seq<Ring>, flags: Flags)
    requires flags.validatePolygonOrientation && flags.autoFixPolygonOrientation
    requires forall j :: 0 <= j < |rings| ==> Fixable(rings[j])
    requires |rings| > 0 ==> ShoelaceSum(Closed(rings[0])) != 0.0
    ensures Processed(rings, flags).outcome == Pass
    ensures RightHandRule(Processed(rings, flags).rings)
  {
    if |rings| > 0 {
      FixThenValidateSucceeds(rings);
    }
  }

  /** Fixing without validation succeeds exactly when every ring is fixable, and orients every ring. */
  lemma FixOnlyOrientsEveryRing(rings: seq<Ring>, flags: Flags)
    requires !flags.validatePolygonOrientation && flags.autoFixPolygonOrientation
    ensures var p := Processed(rings, flags);
      && |p.rings| == |rings|
      && (p.outcome.Pass? <==> forall j :: 0 <= j < |rings| ==> Fixable(rings[j]))
      && (p.outcome.Pass? ==> forall j :: 0 <= j < |rings| ==> p.rings[j] == Oriented(Closed(rings[j]), j))
  {
    FixSucceedsIffRingsFixable(rings);
  }

  /**
   * add with validation rejects a ring of fewer than 4 points, then an
   * open ring, and leaves the polygon as it was.
   */
  lemma AddRejectsInvalidRing(rings: seq<Ring>, ring: Ring, flags: Flags)
    requires flags.validatePolygonOrientation && |ring| > 0
    requires |ring| < 4 || !IsClosed(ring)
    ensures AddOutcome(rings, ring, flags).rings == rings
    ensures AddOutcome(rings, ring, flags).outcome ==
      if |ring| < 4 then Fail(TooFewPoints("Ring")) else Fail(NotClosed("Ring"))
  {
  }

  /** Without processing switches add appends the ring, unless it is empty. */
  lemma AddAppends(rings: seq<Ring>, ring: Ring, flags: Flags)
    requires !flags.autoFixPolygonOrientation && !flags.validatePolygonOrientation
    ensures AddOutcome(rings, ring, flags) ==
      RingsOutcome(if |ring| == 0 then rings else rings + [ring], Pass)
  {
  }

  /** Without processing switches setExteriorRing replaces ring 0 and keeps the holes. */
  lemma SetExteriorRingKeepsHoles(rings: seq<Ring>, ring: Ring, flags: Flags)
    requires !flags.autoFixPolygonOrientation && !flags.validatePolygonOrientation
    ensures var s := SetExteriorOutcome(rings, ring, flags);
      && s.outcome == Pass
      && |s.rings| == (if |rings| == 0 then 1 else |rings|)
      && s.rings[0] == ring
      && s.rings[1..] == (if |rings| == 0 then [] else rings[1..])
  {
  }

  /** getInteriorRing(i) is element i of getInteriorRings, and getInteriorRing(-1) the exterior ring. */
  lemma InteriorRingAccessorsAgree(p: Polygon, i: int)
    requires |p.coordinates| > 0
    ensures 0 <= i < |p.coordinates| - 1 ==> p.InteriorRing(i) == Ok(p.InteriorRings().value[i])
    ensures p.InteriorRing(-1) == p.ExteriorRing()
  {
  }
}
