/**
 * Cutting polygon rings and polygons at the antimeridian
 * (cutRingAtAntimeridian, polygonCrossesAntimeridian,
 * calculateAverageLongitude, cutPolygonAtAntimeridian): a crossing ring is
 * split into an east half (normalised longitudes >= 0) and a west half
 * (< 0), each crossing adding a boundary position at +180 to the east half
 * and at -180 to the west half, and both halves are closed.
 */
module RingCutting {
  import opened LngLatAlt
  import opened Failures
  import opened PolygonOrientation
  import opened Antimeridian
  import opened Configuration
  import opened Polygons

  // ------------------------------------------------------------- one ring

  /** The two halves of a ring being cut. */
  datatype Halves = Halves(east: Ring, west: Ring)

  /** A position with its longitude normalised, latitude and altitude kept. */
  function Normalised(p: Position): (r: Position)
    ensures -180.0 <= r.longitude <= 180.0
    ensures r.latitude == p.latitude && r.altitude == p.altitude
  {
    Position(NormalizeLongitude(p.longitude), p.latitude, p.altitude)
  }

  /** Puts the normalised position on the east half when its longitude is >= 0, else on the west half. */
  function Place(h: Halves, p: Position): Halves
  {
    var q := Normalised(p);
    if q.longitude >= 0.0 then h.(east := h.east + [q]) else h.(west := h.west + [q])
  }

  /** The halves after the segments 0 .. n - 1 of the ring. */
  function SplitUpTo(ring: Ring, n: nat): Halves
    requires n < |ring|
  {
    if n == 0 then Halves([], [])
    else
      var placed := Place(SplitUpTo(ring, n - 1), ring[n - 1]);
      if CrossesAntimeridian(ring[n - 1], ring[n]) then
        var lat := InterpolateLatitude(ring[n - 1], ring[n]);
        Halves(placed.east + [At(ANTIMERIDIAN, lat)], placed.west + [At(-ANTIMERIDIAN, lat)])
      else placed
  }

  /** The halves of a ring, its last position placed after all segments. */
  function RingHalves(ring: Ring): Halves
    requires |ring| > 0
  {
    Place(SplitUpTo(ring, |ring| - 1), ring[|ring| - 1])
  }

  /** A half is added to the result only when it is not empty, closed first. */
  function ClosedHalves(h: Halves): Result<seq<Ring>>
  {
    match EnsureRingClosed(h.east)
    case Err(f) => Err(f)
    case Ok(east) =>
      match EnsureRingClosed(h.west)
      case Err(f) => Err(f)
      case Ok(west) => Ok((if h.east == [] then [] else [east]) + (if h.west == [] then [] else [west]))
  }

  /**
   * cutRingAtAntimeridian: a ring without a crossing pair comes back alone;
   * a crossing ring comes back as its closed east and west halves, or as the
   * failure of closing a half of one or two positions.
   */
  function RingCut(ring: Ring): (r: Result<seq<Ring>>)
    ensures r.Ok? ==> 1 <= |r.value| <= 2
    ensures !HasCrossing(ring) ==> r == Ok([ring])
    ensures HasCrossing(ring) && r.Ok? ==> |r.value| == 2
    ensures r.Err? ==> r.failure == TooFewPointsToClose
  {
    if !HasCrossing(ring) then Ok([ring])
    else
      var h := RingHalves(ring);
      CrossingHalvesNotEmpty(ring);
      ClosedHalves(h)
  }

  /** Each crossing adds a boundary position to both halves, so a crossing ring has two non-empty halves. */
  lemma CrossingHalvesNotEmpty(ring: Ring)
    requires |ring| > 0 && HasCrossing(ring)
    ensures RingHalves(ring).east != [] && RingHalves(ring).west != []
  {
    var i :| 1 <= i < |ring| && CrossesAntimeridian(ring[i - 1], ring[i]);
    SplitKeepsBoundaries(ring, i, |ring| - 1);
  }

  /** Once a crossing pair has been passed, both halves hold a position. */
  lemma {:induction false} SplitKeepsBoundaries(ring: Ring, i: nat, n: nat)
    requires 1 <= i <= n < |ring| && CrossesAntimeridian(ring[i - 1], ring[i])
    ensures SplitUpTo(ring, n).east != [] && SplitUpTo(ring, n).west != []
  {
    if n > i {
      SplitKeepsBoundaries(ring, i, n - 1);
    }
  }

  method CutRingAtAntimeridian(ring: Ring) returns (r: Result<seq<Ring>>)
    ensures r == RingCut(ring)
  {
    var crosses := RingCrossesAntimeridian(ring);
    if !crosses {
      return Ok([ring]);
    }
    var halves := SplitRing(ring);
    CrossingHalvesNotEmpty(ring);
    r := CloseHalves(halves);
  }

  /** The search loop of cutRingAtAntimeridian: stops at the first crossing pair. */
  method RingCrossesAntimeridian(ring: Ring) returns (crosses: bool)
    ensures crosses == HasCrossing(ring)
  {
    var i := 0;
    while i + 1 < |ring|
      invariant 0 <= i && (i < |ring| || i == 0)
      invariant forall k :: 1 <= k <= i ==> !CrossesAntimeridian(ring[k - 1], ring[k])
    {
      if CrossesAntimeridian(ring[i], ring[i + 1]) {
        return true;
      }
      i := i + 1;
    }
    return false;
  }

  /** The splitting loop of cutRingAtAntimeridian, then the last position. */
  method SplitRing(ring: Ring) returns (h: Halves)
    requires |ring| > 0
    ensures h == RingHalves(ring)
  {
    var east, west := [], [];
    var i := 0;
    while i < |ring| - 1
      invariant 0 <= i <= |ring| - 1
      invariant SplitUpTo(ring, i) == Halves(east, west)
    {
      var p1, p2 := ring[i], ring[i + 1];
      var lon1 := NormalizeLongitude(p1.longitude);
      if lon1 >= 0.0 {
        east := east + [Position(lon1, p1.latitude, p1.altitude)];
      } else {
        west := west + [Position(lon1, p1.latitude, p1.altitude)];
      }
      if CrossesAntimeridian(p1, p2) {
        var lat := InterpolateLatitude(p1, p2);
        east := east + [At(ANTIMERIDIAN, lat)];
        west := west + [At(-ANTIMERIDIAN, lat)];
      }
      i := i + 1;
    }
    var last := ring[|ring| - 1];
    var lastLon := NormalizeLongitude(last.longitude);
    if lastLon >= 0.0 {
      east := east + [Position(lastLon, last.latitude, last.altitude)];
    } else {
      west := west + [Position(lastLon, last.latitude, last.altitude)];
    }
    return Halves(east, west);
  }

  /** Closes the non-empty halves, east first, and collects them. */
  method CloseHalves(h: Halves) returns (r: Result<seq<Ring>>)
    ensures r == ClosedHalves(h)
  {
    var result: seq<Ring> := [];
    if h.east != [] {
      var closed := EnsureRingClosed(h.east);
      if closed.Err? {
        return Err(closed.failure);
      }
      result := result + [closed.value];
    }
    if h.west != [] {
      var closed := EnsureRingClosed(h.west);
      if closed.Err? {
        return Err(closed.failure);
      }
      result := result + [closed.value];
    }
    assert result == (if h.east == [] then [] else [EnsureRingClosed(h.east).value])
      + (if h.west == [] then [] else [EnsureRingClosed(h.west).value]);
    return Ok(result);
  }

  // ------------------------------------------------------- ring properties

  /** East positions lie in [0, 180], west positions in [-180, 0). */
  predicate OnSides(h: Halves)
  {
    && (forall k :: 0 <= k < |h.east| ==> 0.0 <= h.east[k].longitude <= 180.0)
    && (forall k :: 0 <= k < |h.west| ==> -180.0 <= h.west[k].longitude < 0.0)
  }

  lemma PlaceOnSides(h: Halves, p: Position)
    requires OnSides(h)
    ensures OnSides(Place(h, p))
    ensures |Place(h, p).east| + |Place(h, p).west| == |h.east| + |h.west| + 1
    ensures h.east <= Place(h, p).east && h.west <= Place(h, p).west
  {
  }

  /**
   * The halves after n segments: on their sides, together one position per
   * placed vertex plus two per crossing, and each placed vertex on its side.
   */
  lemma {:induction false} SplitUpToShape(ring: Ring, n: nat)
    requires n < |ring|
    ensures var h := SplitUpTo(ring, n);
      && OnSides(h)
      && |h.east| + |h.west| == n + 2 * CrossingCount(ring, n + 1)
  {
    if n > 0 {
      SplitUpToShape(ring, n - 1);
      SplitStepShape(ring, n);
    }
  }

  /** One segment keeps the halves on their sides and adds one position, plus two on a crossing. */
  lemma SplitStepShape(ring: Ring, n: nat)
    requires 0 < n < |ring| && OnSides(SplitUpTo(ring, n - 1))
    ensures OnSides(SplitUpTo(ring, n))
    ensures |SplitUpTo(ring, n).east| + |SplitUpTo(ring, n).west|
      == |SplitUpTo(ring, n - 1).east| + |SplitUpTo(ring, n - 1).west| + 1
         + (if CrossesAntimeridian(ring[n - 1], ring[n]) then 2 else 0)
  {
    PlaceOnSides(SplitUpTo(ring, n - 1), ring[n - 1]);
  }

  /** Halves only grow as the cut goes on. */
  lemma {:induction false} SplitUpToGrows(ring: Ring, m: nat, n: nat)
    requires m <= n < |ring|
    ensures SplitUpTo(ring, m).east <= SplitUpTo(ring, n).east
    ensures SplitUpTo(ring, m).west <= SplitUpTo(ring, n).west
  {
    if m < n {
      SplitUpToGrows(ring, m, n - 1);
      SplitStepExtends(ring, n);
      var a, b, c := SplitUpTo(ring, m), SplitUpTo(ring, n - 1), SplitUpTo(ring, n);
      PrefixIsTransitive(a.east, b.east, c.east);
      PrefixIsTransitive(a.west, b.west, c.west);
    }
  }

  lemma PrefixIsTransitive(a: Ring, b: Ring, c: Ring)
    requires a <= b && b <= c
    ensures a <= c
  {
    assert forall k :: 0 <= k < |a| ==> c[k] == b[k] == a[k];
  }

  /** One segment only appends to the halves. */
  lemma SplitStepExtends(ring: Ring, n: nat)
    requires 0 < n < |ring|
    ensures SplitUpTo(ring, n - 1).east <= SplitUpTo(ring, n).east
    ensures SplitUpTo(ring, n - 1).west <= SplitUpTo(ring, n).west
  {
    PlaceExtends(SplitUpTo(ring, n - 1), ring[n - 1]);
  }

  /** Placing a position puts its normalised form on the half its longitude selects. */
  lemma PlaceSelectsHalf(h: Halves, p: Position)
    ensures var q := Normalised(p);
      q in (if q.longitude >= 0.0 then Place(h, p).east else Place(h, p).west)
  {
  }

  /** The halves after segment n start with the halves after placing vertex n. */
  lemma PlacedIsKept(ring: Ring, n: nat)
    requires n + 1 < |ring|
    ensures Place(SplitUpTo(ring, n), ring[n]).east <= SplitUpTo(ring, n + 1).east
    ensures Place(SplitUpTo(ring, n), ring[n]).west <= SplitUpTo(ring, n + 1).west
  {
  }

  /** Placing a position only appends to the halves. */
  lemma PlaceExtends(h: Halves, p: Position)
    ensures h.east <= Place(h, p).east && h.west <= Place(h, p).west
  {
  }

  lemma PrefixKeepsElement(a: Ring, b: Ring, c: Ring, q: Position)
    requires a <= b <= c && q in a
    ensures q in c
  {
    var k :| 0 <= k < |a| && a[k] == q;
    assert b[k] == q;
    assert c[k] == q;
  }

  /** What placing vertex i put on the halves is still there after the last segment. */
  lemma PlacedStaysToTheEnd(ring: Ring, i: nat)
    requires i < |ring| - 1
    ensures Place(SplitUpTo(ring, i), ring[i]).east <= SplitUpTo(ring, |ring| - 1).east
    ensures Place(SplitUpTo(ring, i), ring[i]).west <= SplitUpTo(ring, |ring| - 1).west
  {
    PlacedIsKept(ring, i);
    SplitUpToGrows(ring, i + 1, |ring| - 1);
    var a, b, c := Place(SplitUpTo(ring, i), ring[i]), SplitUpTo(ring, i + 1), SplitUpTo(ring, |ring| - 1);
    PrefixIsTransitive(a.east, b.east, c.east);
    PrefixIsTransitive(a.west, b.west, c.west);
  }

  /** The halves after the last segment start the halves of the ring. */
  lemma SplitStartsHalves(ring: Ring)
    requires |ring| > 0
    ensures SplitUpTo(ring, |ring| - 1).east <= RingHalves(ring).east
    ensures SplitUpTo(ring, |ring| - 1).west <= RingHalves(ring).west
  {
    PlaceExtends(SplitUpTo(ring, |ring| - 1), ring[|ring| - 1]);
  }

  /** Vertex i of the ring, normalised, is on the half its longitude selects. */
  lemma VertexIsPlaced(ring: Ring, i: nat)
    requires i < |ring|
    ensures var h, q := RingHalves(ring), Normalised(ring[i]);
      q in (if q.longitude >= 0.0 then h.east else h.west)
  {
    var q := Normalised(ring[i]);
    var placed := Place(SplitUpTo(ring, i), ring[i]);
    PlaceSelectsHalf(SplitUpTo(ring, i), ring[i]);
    if i < |ring| - 1 {
      var grown, h := SplitUpTo(ring, |ring| - 1), RingHalves(ring);
      PlacedStaysToTheEnd(ring, i);
      SplitStartsHalves(ring);
      if q.longitude >= 0.0 {
        PrefixKeepsElement(placed.east, grown.east, h.east, q);
      } else {
        PrefixKeepsElement(placed.west, grown.west, h.west, q);
      }
    }
  }

  /**
   * The halves of a whole ring: on their sides, and together the ring's
   * positions plus two boundary positions per crossing.
   */
  lemma RingHalvesShape(ring: Ring)
    requires |ring| > 0
    ensures OnSides(RingHalves(ring))
    ensures |RingHalves(ring).east| + |RingHalves(ring).west| == |ring| + 2 * CrossingCount(ring, |ring|)
  {
    SplitUpToShape(ring, |ring| - 1);
    PlaceOnSides(SplitUpTo(ring, |ring| - 1), ring[|ring| - 1]);
  }

  /**
   * A crossing ring is cut into its two halves, each closed, or fails
   * exactly when a half has only one or two positions.
   */
  lemma CrossingRingIsSplitInTwo(ring: Ring)
    requires HasCrossing(ring)
    ensures var h := RingHalves(ring);
      && (RingCut(ring).Err? <==> |h.east| < 3 || |h.west| < 3)
      && (RingCut(ring).Ok? ==> RingCut(ring).value == [Closed(h.east), Closed(h.west)])
      && (RingCut(ring).Ok? ==> IsClosed(RingCut(ring).value[0]) && IsClosed(RingCut(ring).value[1]))
  {
    CrossingHalvesNotEmpty(ring);
  }

  /** Every position of a successful cut lies on its half's side of the antimeridian. */
  lemma CutHalvesStayOnTheirSides(ring: Ring)
    requires HasCrossing(ring) && RingCut(ring).Ok?
    ensures forall k :: 0 <= k < |RingCut(ring).value[0]| ==> 0.0 <= RingCut(ring).value[0][k].longitude <= 180.0
    ensures forall k :: 0 <= k < |RingCut(ring).value[1]| ==> -180.0 <= RingCut(ring).value[1][k].longitude < 0.0
  {
    var h := RingHalves(ring);
    CrossingHalvesNotEmpty(ring);
    RingHalvesShape(ring);
    CrossingRingIsSplitInTwo(ring);
    assert RingCut(ring).value[0] == Closed(h.east);
    assert RingCut(ring).value[1] == Closed(h.west);
  }

  // --------------------------------------------------------------- polygons

  /** polygonCrossesAntimeridian: some ring has a crossing pair. */
  predicate PolygonCrosses(rings: seq<Ring>)
  {
    exists j :: 0 <= j < |rings| && HasCrossing(rings[j])
  }

  method PolygonCrossesAntimeridian(rings: seq<Ring>) returns (r: bool)
    ensures r == PolygonCrosses(rings)
  {
    var j := 0;
    while j < |rings|
      invariant 0 <= j <= |rings|
      invariant forall m :: 0 <= m < j ==> !HasCrossing(rings[m])
    {
      var ring := rings[j];
      var i := 1;
      while i < |ring|
        invariant 1 <= i <= |ring| || (|ring| == 0 && i == 1)
        invariant forall k :: 1 <= k < i && k < |ring| ==> !CrossesAntimeridian(ring[k - 1], ring[k])
      {
        if CrossesAntimeridian(ring[i - 1], ring[i]) {
          return true;
        }
        i := i + 1;
      }
      j := j + 1;
    }
    return false;
  }

  /**
   * calculateAverageLongitude: 0 for an empty ring, otherwise the normalised
   * mean direction of the normalised longitudes. The circular mean (sines,
   * cosines and atan2) is the parameter `meanDirection`.
   */
  function AverageLongitude(ring: Ring, meanDirection: seq<real> -> real): (r: real)
    ensures -180.0 <= r <= 180.0
    ensures |ring| == 0 ==> r == 0.0
  {
    if |ring| == 0 then 0.0
    else NormalizeLongitude(meanDirection(NormalizedLongitudes(ring)))
  }

  /** The normalised longitude of every position of the ring, in order. */
  function NormalizedLongitudes(ring: Ring): (r: seq<real>)
    ensures |r| == |ring|
    ensures forall k :: 0 <= k < |ring| ==> r[k] == NormalizeLongitude(ring[k].longitude)
  {
    if |ring| == 0 then [] else [NormalizeLongitude(ring[0].longitude)] + NormalizedLongitudes(ring[1..])
  }

  /** The holes of the east and west polygons. */
  datatype Sides = Sides(east: seq<Ring>, west: seq<Ring>)

  /** A way of cutting one ring that, like RingCut, gives one or two rings when it succeeds. */
  ghost predicate CutsInOneOrTwo(cutRing: Ring -> Result<seq<Ring>>)
  {
    forall ring :: cutRing(ring).Ok? ==> 1 <= |cutRing(ring).value| <= 2
  }

  /** `cutRing` is RingCut, for every ring RingCut is applied to. */
  ghost predicate IsRingCut(cutRing: Ring -> Result<seq<Ring>>)
  {
    forall ring {:trigger RingCut(ring)} :: cutRing(ring) == RingCut(ring)
  }

  /**
   * The holes 1 .. n - 1, each cut by `cutRing` (RingCut in the model of
   * cutPolygonAtAntimeridian), sorted onto the two sides: a hole that is
   * not cut goes east when its average longitude is positive and west
   * otherwise; a cut hole gives its east half to the east and its west half
   * to the west. The first failure of a cut is the result.
   */
  function HoleSides(rings: seq<Ring>, n: nat, cutRing: Ring -> Result<seq<Ring>>, meanDirection: seq<real> -> real): Result<Sides>
    requires 1 <= n <= |rings| && CutsInOneOrTwo(cutRing)
  {
    if n == 1 then Ok(Sides([], []))
    else
      match HoleSides(rings, n - 1, cutRing, meanDirection)
      case Err(f) => Err(f)
      case Ok(s) =>
        match cutRing(rings[n - 1])
        case Err(f) => Err(f)
        case Ok(parts) => Ok(SortHole(s, parts, meanDirection))
  }

  /** One hole, cut into `parts`, sorted onto the sides. */
  function SortHole(s: Sides, parts: seq<Ring>, meanDirection: seq<real> -> real): Sides
    requires 1 <= |parts| <= 2
  {
    if |parts| == 1 then
      if AverageLongitude(parts[0], meanDirection) > 0.0 then s.(east := s.east + [parts[0]])
      else s.(west := s.west + [parts[0]])
    else
      Sides(s.east + [parts[0]], s.west + [parts[1]])
  }

  /** What cutting a polygon returns: the polygon itself, or a MultiPolygon of the rings of each part. */
  datatype PolygonCut = SamePolygon | MultiPolygon(polygons: seq<seq<Ring>>)

  /**
   * cutPolygonAtAntimeridian: a polygon without rings, without a crossing
   * ring, or whose exterior ring is not cut stays as it is; otherwise the
   * east and west halves of the exterior ring become the exterior rings of
   * two polygons that share out the holes.
   */
  function PolygonCutOf(rings: seq<Ring>, meanDirection: seq<real> -> real): Result<PolygonCut>
  {
    if |rings| == 0 || !PolygonCrosses(rings) then Ok(SamePolygon)
    else
      match RingCut(rings[0])
      case Err(f) => Err(f)
      case Ok(exterior) =>
        if |exterior| == 1 then Ok(SamePolygon)
        else
          match HoleSides(rings, |rings|, RingCut, meanDirection)
          case Err(f) => Err(f)
          case Ok(s) => Ok(MultiPolygon([[exterior[0]] + s.east, [exterior[1]] + s.west]))
  }

  /** A failure while sorting the holes is the failure of the whole sort. */
  lemma {:induction false} HoleSidesFailureStays(rings: seq<Ring>, m: nat, n: nat, cutRing: Ring -> Result<seq<Ring>>, meanDirection: seq<real> -> real)
    requires 1 <= m <= n <= |rings| && CutsInOneOrTwo(cutRing)
    requires HoleSides(rings, m, cutRing, meanDirection).Err?
    ensures HoleSides(rings, n, cutRing, meanDirection) == HoleSides(rings, m, cutRing, meanDirection)
  {
    if m < n {
      HoleSidesFailureStays(rings, m, n - 1, cutRing, meanDirection);
      var failed := HoleSides(rings, m, cutRing, meanDirection);
      assert HoleSides(rings, n - 1, cutRing, meanDirection) == failed;
      HoleSidesStop(rings, n, cutRing, meanDirection);
      assert HoleSides(rings, n, cutRing, meanDirection) == failed;
    }
  }

  /** Sorting stops at the first failure. */
  lemma HoleSidesStop(rings: seq<Ring>, n: nat, cutRing: Ring -> Result<seq<Ring>>, meanDirection: seq<real> -> real)
    requires 2 <= n <= |rings| && CutsInOneOrTwo(cutRing) && HoleSides(rings, n - 1, cutRing, meanDirection).Err?
    ensures HoleSides(rings, n, cutRing, meanDirection) == HoleSides(rings, n - 1, cutRing, meanDirection)
  {
  }

  /** One step of the sort, once the holes before it were sorted and it was cut. */
  lemma HoleSidesStep(rings: seq<Ring>, n: nat, cutRing: Ring -> Result<seq<Ring>>, meanDirection: seq<real> -> real)
    requires 1 <= n < |rings| && CutsInOneOrTwo(cutRing)
    requires HoleSides(rings, n, cutRing, meanDirection).Ok? && cutRing(rings[n]).Ok?
    ensures HoleSides(rings, n + 1, cutRing, meanDirection) ==
      Ok(SortHole(HoleSides(rings, n, cutRing, meanDirection).value, cutRing(rings[n]).value, meanDirection))
  {
  }

  /** The sort fails at a hole whose cut fails. */
  lemma HoleSidesFail(rings: seq<Ring>, n: nat, cutRing: Ring -> Result<seq<Ring>>, meanDirection: seq<real> -> real)
    requires 1 <= n < |rings| && CutsInOneOrTwo(cutRing)
    requires HoleSides(rings, n, cutRing, meanDirection).Ok? && cutRing(rings[n]).Err?
    ensures HoleSides(rings, n + 1, cutRing, meanDirection) == Err(cutRing(rings[n]).failure)
  {
  }

  /**
   * The polygons made by the cut carry the configuration a new Polygon
   * gets, taken here to be the legacy one: neither fixing nor validating,
   * so add and addInteriorRing only append.
   */
  method CutPolygonAtAntimeridian(rings: seq<Ring>, meanDirection: seq<real> -> real) returns (r: Result<PolygonCut>)
    ensures r == PolygonCutOf(rings, meanDirection)
  {
    if |rings| == 0 {
      return Ok(SamePolygon);
    }
    var crosses := PolygonCrossesAntimeridian(rings);
    if !crosses {
      return Ok(SamePolygon);
    }
    var exterior := CutRingAtAntimeridian(rings[0]);
    if exterior.Err? {
      return Err(exterior.failure);
    }
    if |exterior.value| == 1 {
      return Ok(SamePolygon);
    }
    CrossingRingIsSplitInTwo(rings[0]);
    var sides := SortHoles(rings, RingCut, meanDirection);
    if sides.Err? {
      return Err(sides.failure);
    }
    var eastHoles, westHoles := sides.value.east, sides.value.west;
    var eastPolygon := BuildPolygon(exterior.value[0], eastHoles);
    var westPolygon := BuildPolygon(exterior.value[1], westHoles);
    return Ok(MultiPolygon([eastPolygon.coordinates, westPolygon.coordinates]));
  }

  /**
   * The loop over the holes of cutPolygonAtAntimeridian; the first failure
   * of a cut ends it. The ghost `cutRing` is RingCut, named by the caller.
   */
  method SortHoles(rings: seq<Ring>, ghost cutRing: Ring -> Result<seq<Ring>>, meanDirection: seq<real> -> real)
    returns (r: Result<Sides>)
    requires |rings| >= 1 && CutsInOneOrTwo(cutRing) && IsRingCut(cutRing)
    ensures r == HoleSides(rings, |rings|, cutRing, meanDirection)
  {
    var sides := Sides([], []);
    var i := 1;
    while i < |rings|
      invariant 1 <= i <= |rings|
      invariant HoleSides(rings, i, cutRing, meanDirection) == Ok(sides)
    {
      var next := SortNextHole(rings, i, sides, cutRing, meanDirection);
      if next.Err? {
        return next;
      }
      sides, i := next.value, i + 1;
    }
    return Ok(sides);
  }

  /**
   * One turn of that loop: cut hole i and sort its parts onto the sides.
   * A failure is the failure of the whole sort.
   */
  method SortNextHole(rings: seq<Ring>, i: nat, sides: Sides, ghost cutRing: Ring -> Result<seq<Ring>>, meanDirection: seq<real> -> real)
    returns (r: Result<Sides>)
    requires 1 <= i < |rings| && CutsInOneOrTwo(cutRing) && IsRingCut(cutRing)
    requires HoleSides(rings, i, cutRing, meanDirection) == Ok(sides)
    ensures r == HoleSides(rings, i + 1, cutRing, meanDirection)
    ensures r.Err? ==> r == HoleSides(rings, |rings|, cutRing, meanDirection)
  {
    var cut := CutRingAtAntimeridian(rings[i]);
    assert cut == cutRing(rings[i]);
    if cut.Err? {
      HoleSidesFail(rings, i, cutRing, meanDirection);
      HoleSidesFailureStays(rings, i + 1, |rings|, cutRing, meanDirection);
      return Err(cut.failure);
    }
    HoleSidesStep(rings, i, cutRing, meanDirection);
    var next := AddHole(sides, cut.value, meanDirection);
    return Ok(next);
  }

  /**
   * One hole of cutPolygonAtAntimeridian onto the lists of east and west
   * holes: an uncut hole by the sign of its average longitude, a cut hole
   * half to each side.
   */
  method AddHole(s: Sides, parts: seq<Ring>, meanDirection: seq<real> -> real) returns (r: Sides)
    requires 1 <= |parts| <= 2
    ensures r == SortHole(s, parts, meanDirection)
  {
    var eastHoles, westHoles := s.east, s.west;
    if |parts| == 1 {
      var averageLongitude := AverageLongitude(parts[0], meanDirection);
      if averageLongitude > 0.0 {
        eastHoles := eastHoles + [parts[0]];
      } else {
        westHoles := westHoles + [parts[0]];
      }
    } else {
      eastHoles := eastHoles + [parts[0]];
      westHoles := westHoles + [parts[1]];
    }
    return Sides(eastHoles, westHoles);
  }

  /** A new polygon with the exterior ring added and then each hole added as an interior ring. */
  method BuildPolygon(exterior: Ring, holes: seq<Ring>) returns (polygon: Polygon)
    requires exterior != []
    ensures fresh(polygon)
    ensures polygon.coordinates == [exterior] + holes
  {
    polygon := new Polygon(LegacyFlags);
    var _ := polygon.Add(exterior);
    AddAppends([], exterior, LegacyFlags);
    var k := 0;
    while k < |holes|
      invariant 0 <= k <= |holes|
      invariant polygon.config == LegacyFlags
      invariant polygon.coordinates == [exterior] + holes[..k]
    {
      var _ := polygon.AddInteriorRing(holes[k]);
      ProcessedWithoutSwitches([exterior] + holes[..k] + [holes[k]], LegacyFlags);
      assert holes[..k + 1] == holes[..k] + [holes[k]];
      k := k + 1;
    }
    assert holes[..|holes|] == holes;
  }

  // --------------------------------------------------- polygon properties

  /**
   * A polygon is left as it is exactly when it has no rings or its exterior
   * ring does not cross: a crossing hole alone never cuts the polygon.
   */
  lemma PolygonIsCutIffExteriorCrosses(rings: seq<Ring>, meanDirection: seq<real> -> real)
    ensures PolygonCutOf(rings, meanDirection) == Ok(SamePolygon) <==>
      |rings| == 0 || !HasCrossing(rings[0])
  {
    if |rings| > 0 && HasCrossing(rings[0]) {
      assert PolygonCrosses(rings);
    }
  }

  /**
   * A cut polygon becomes two polygons: the closed east half of the exterior
   * ring with the east holes, and the closed west half with the west holes.
   */
  lemma CutPolygonHasTwoParts(rings: seq<Ring>, meanDirection: seq<real> -> real)
    requires PolygonCutOf(rings, meanDirection).Ok? && PolygonCutOf(rings, meanDirection).value.MultiPolygon?
    ensures var polygons := PolygonCutOf(rings, meanDirection).value.polygons;
      var h := RingHalves(rings[0]);
      && |polygons| == 2
      && HoleSides(rings, |rings|, RingCut, meanDirection).Ok?
      && polygons[0] == [Closed(h.east)] + HoleSides(rings, |rings|, RingCut, meanDirection).value.east
      && polygons[1] == [Closed(h.west)] + HoleSides(rings, |rings|, RingCut, meanDirection).value.west
  {
    CrossingRingIsSplitInTwo(rings[0]);
  }

  /** The number of holes among rings 1 .. n - 1 that cross the antimeridian. */
  function CrossingHoles(rings: seq<Ring>, n: nat): nat
    requires 1 <= n <= |rings|
  {
    if n == 1 then 0 else CrossingHoles(rings, n - 1) + (if HasCrossing(rings[n - 1]) then 1 else 0)
  }

  /** Every hole goes to one side, or, when it is cut, one half to each: no hole is lost. */
  lemma HoleSidesCount(rings: seq<Ring>, n: nat, meanDirection: seq<real> -> real)
    requires 1 <= n <= |rings|
    requires HoleSides(rings, n, RingCut, meanDirection).Ok?
    ensures var s := HoleSides(rings, n, RingCut, meanDirection).value;
      |s.east| + |s.west| == (n - 1) + CrossingHoles(rings, n)
  {
    HoleSidesCountBy(rings, n, RingCut, meanDirection);
  }

  /** A cutting that splits exactly the crossing rings in two, as RingCut does. */
  ghost predicate SplitsCrossingRingsInTwo(cutRing: Ring -> Result<seq<Ring>>)
  {
    forall ring :: cutRing(ring).Ok? ==> |cutRing(ring).value| == if HasCrossing(ring) then 2 else 1
  }

  lemma {:induction false} HoleSidesCountBy(rings: seq<Ring>, n: nat, cutRing: Ring -> Result<seq<Ring>>, meanDirection: seq<real> -> real)
    requires 1 <= n <= |rings| && CutsInOneOrTwo(cutRing) && SplitsCrossingRingsInTwo(cutRing)
    requires HoleSides(rings, n, cutRing, meanDirection).Ok?
    ensures var s := HoleSides(rings, n, cutRing, meanDirection).value;
      |s.east| + |s.west| == (n - 1) + CrossingHoles(rings, n)
  {
    if n > 1 {
      assert HoleSides(rings, n - 1, cutRing, meanDirection).Ok?;
      HoleSidesCountBy(rings, n - 1, cutRing, meanDirection);
    }
  }
}
