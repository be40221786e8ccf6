/**
 * Longitude arithmetic at the antimeridian (AntimeridianUtils, section 3.1.9
 * of RFC 7946): normalisation of a longitude, the test whether a segment
 * crosses the 180th meridian, the choice of +180 or -180 for the crossing,
 * and the latitude at which the segment meets it.
 *
 * Longitudes are exact reals. Java's `%` on doubles truncates toward zero,
 * so `x % 360` is written out as x - 360 * trunc(x / 360).
 */
module Antimeridian {
  import opened LngLatAlt

  const ANTIMERIDIAN: real := 180.0

  function Abs(x: real): real
  {
    if x < 0.0 then -x else x
  }

  function Min(a: real, b: real): real
  {
    if a <= b then a else b
  }

  function Max(a: real, b: real): real
  {
    if a <= b then b else a
  }

  /** `x` lies between `a` and `b`, in whichever order they come. */
  predicate Between(x: real, a: real, b: real)
  {
    Min(a, b) <= x <= Max(a, b)
  }

  /** A real with no fractional part. */
  predicate IsWhole(x: real)
  {
    x.Floor as real == x
  }

  /** Two longitudes that differ by a whole number of turns. */
  predicate Congruent(x: real, y: real)
  {
    IsWhole((x - y) / 360.0)
  }

  // ---------------------------------------------------------- normalisation

  /** The conversion of a double to a whole number: truncation toward zero. */
  function Trunc(x: real): (r: int)
    ensures 0.0 <= x ==> r as real <= x < r as real + 1.0
    ensures x < 0.0 ==> r as real - 1.0 < x <= r as real
  {
    if x >= 0.0 then x.Floor else -((-x).Floor)
  }

  /** `x % 360` on doubles: a remainder that keeps the sign of `x`. */
  function Remainder360(x: real): (r: real)
    ensures -360.0 < r < 360.0
    ensures 0.0 <= x ==> 0.0 <= r
    ensures x <= 0.0 ==> r <= 0.0
    ensures -360.0 < x < 360.0 ==> r == x
    ensures Congruent(x, r)
  {
    var q := Trunc(x / 360.0);
    assert (x - (x - 360.0 * q as real)) / 360.0 == q as real;
    x - 360.0 * q as real
  }

  /** Moving a longitude by one turn keeps it congruent. */
  lemma CongruentAfterTurn(x: real, r: real)
    requires Congruent(x, r)
    ensures Congruent(x, r - 360.0) && Congruent(x, r + 360.0)
  {
    var k := ((x - r) / 360.0).Floor;
    assert (x - (r - 360.0)) / 360.0 == (k + 1) as real;
    assert (x - (r + 360.0)) / 360.0 == (k - 1) as real;
  }

  /**
   * normalizeLongitude: the remainder by 360, moved into [-180, 180] by one
   * turn when it lies outside. Both ends of the range can come out: 180 for
   * a positive input, -180 for a negative one.
   */
  function NormalizeLongitude(longitude: real): (r: real)
    ensures -180.0 <= r <= 180.0
    ensures Congruent(longitude, r)
    ensures -180.0 <= longitude <= 180.0 ==> r == longitude
    ensures r == 180.0 ==> longitude > 0.0
    ensures r == -180.0 ==> longitude < 0.0
  {
    var normalized := Remainder360(longitude);
    CongruentAfterTurn(longitude, normalized);
    if normalized > 180.0 then normalized - 360.0
    else if normalized < -180.0 then normalized + 360.0
    else normalized
  }

  /** Inside the open range (-180, 180) the congruent longitude is unique, so it is the normalised one. */
  lemma NormalizeLongitudeUnique(longitude: real, y: real)
    requires -180.0 < y < 180.0 && Congruent(longitude, y)
    ensures NormalizeLongitude(longitude) == y
  {
    var r := NormalizeLongitude(longitude);
    var a := ((longitude - r) / 360.0).Floor;
    var b := ((longitude - y) / 360.0).Floor;
    assert (y - r) / 360.0 == (a - b) as real;
    assert -1.0 < (y - r) / 360.0 < 1.0;
  }

  /** A longitude congruent to the antimeridian normalises to 180 when positive and to -180 otherwise. */
  lemma NormalizeLongitudeOnAntimeridian(longitude: real)
    requires Congruent(longitude, ANTIMERIDIAN)
    ensures NormalizeLongitude(longitude) == if longitude > 0.0 then 180.0 else -180.0
  {
    var r := NormalizeLongitude(longitude);
    var a := ((longitude - r) / 360.0).Floor;
    var b := ((longitude - 180.0) / 360.0).Floor;
    assert (180.0 - r) / 360.0 == (a - b) as real;
    assert 0.0 <= (180.0 - r) / 360.0 <= 1.0;
    assert r == 180.0 || r == -180.0;
  }

  /** The values of the source's normalisation tests. */
  lemma NormalizeLongitudeVectors()
    ensures NormalizeLongitude(0.0) == 0.0
    ensures NormalizeLongitude(180.0) == 180.0
    ensures NormalizeLongitude(-180.0) == -180.0
    ensures NormalizeLongitude(90.0) == 90.0
    ensures NormalizeLongitude(-90.0) == -90.0
    ensures NormalizeLongitude(360.0) == 0.0
    ensures NormalizeLongitude(-360.0) == 0.0
    ensures NormalizeLongitude(190.0) == -170.0
    ensures NormalizeLongitude(-190.0) == 170.0
    ensures NormalizeLongitude(370.0) == 10.0
    ensures NormalizeLongitude(-370.0) == -10.0
    ensures NormalizeLongitude(540.0) == 180.0
  {
    NormalizeLongitudeUnique(360.0, 0.0);
    NormalizeLongitudeUnique(-360.0, 0.0);
    NormalizeLongitudeUnique(190.0, -170.0);
    NormalizeLongitudeUnique(-190.0, 170.0);
    NormalizeLongitudeUnique(370.0, 10.0);
    NormalizeLongitudeUnique(-370.0, -10.0);
    NormalizeLongitudeOnAntimeridian(540.0);
  }

  // --------------------------------------------------------------- crossing

  /**
   * crossesAntimeridian: the normalised longitudes lie more than 180 degrees
   * apart, so the shorter way between the points goes over the antimeridian.
   * Latitude plays no part.
   */
  function CrossesAntimeridian(p1: Position, p2: Position): (r: bool)
    ensures r ==> NormalizeLongitude(p1.longitude) != 0.0 && NormalizeLongitude(p2.longitude) != 0.0
    ensures r ==> (NormalizeLongitude(p1.longitude) > 0.0 <==> NormalizeLongitude(p2.longitude) < 0.0)
    ensures r ==> p1.longitude != 0.0 && p2.longitude != 0.0
  {
    var lon1 := NormalizeLongitude(p1.longitude);
    var lon2 := NormalizeLongitude(p2.longitude);
    Abs(lon1 - lon2) > 180.0
  }

  /** The crossing test is symmetric and depends on the longitudes alone. */
  lemma CrossingIsSymmetric(p1: Position, p2: Position, lat1: real, lat2: real)
    ensures CrossesAntimeridian(p1, p2) == CrossesAntimeridian(p2, p1)
    ensures CrossesAntimeridian(p1, p2) == CrossesAntimeridian(At(p1.longitude, lat1), At(p2.longitude, lat2))
  {
  }

  /** A crossing pair is one whose normalised longitudes have opposite signs and lie more than 180 apart. */
  lemma CrossingCharacterised(p1: Position, p2: Position)
    ensures var lon1, lon2 := NormalizeLongitude(p1.longitude), NormalizeLongitude(p2.longitude);
      CrossesAntimeridian(p1, p2) <==>
        (lon1 > 0.0 && lon2 < 0.0 && lon1 - lon2 > 180.0) || (lon1 < 0.0 && lon2 > 0.0 && lon2 - lon1 > 180.0)
  {
  }

  /** The values of the source's crossing tests. */
  lemma CrossingVectors()
    ensures CrossesAntimeridian(At(179.0, 0.0), At(-179.0, 0.0))
    ensures !CrossesAntimeridian(At(170.0, 0.0), At(175.0, 0.0))
    ensures !CrossesAntimeridian(At(180.0, 0.0), At(180.0, 10.0))
    ensures CrossesAntimeridian(At(190.0, 0.0), At(-190.0, 0.0))
  {
    NormalizeLongitudeVectors();
    assert NormalizeLongitude(179.0) == 179.0 && NormalizeLongitude(-179.0) == -179.0;
  }

  // ------------------------------------------------------ crossing meridian

  /** Math.signum over the reals. */
  function Signum(x: real): (r: real)
    ensures r == 1.0 || r == -1.0 || r == 0.0
    ensures (r > 0.0 <==> x > 0.0) && (r < 0.0 <==> x < 0.0)
  {
    if x > 0.0 then 1.0 else if x < 0.0 then -1.0 else 0.0
  }

  /**
   * getAntimeridianLon: +180 when going from a positive to a negative
   * longitude across the antimeridian, or when not crossing from a
   * longitude >= 0; -180 otherwise.
   */
  function GetAntimeridianLon(lon1: real, lon2: real): (r: real)
    ensures r == ANTIMERIDIAN || r == -ANTIMERIDIAN
    ensures r == ANTIMERIDIAN <==>
      (Abs(lon1 - lon2) > 180.0 && lon1 > 0.0 && lon2 < 0.0) || (Abs(lon1 - lon2) <= 180.0 && lon1 >= 0.0)
  {
    if Abs(lon1 - lon2) > 180.0 then
      (if lon1 > 0.0 && lon2 < 0.0 then ANTIMERIDIAN else -ANTIMERIDIAN)
    else
      (if lon1 >= 0.0 then ANTIMERIDIAN else -ANTIMERIDIAN)
  }

  /** On normalised longitudes the meridian chosen is always the one on the side of the first point. */
  lemma AntimeridianLonFollowsFirstPoint(lon1: real, lon2: real)
    requires -180.0 <= lon1 <= 180.0 && -180.0 <= lon2 <= 180.0
    ensures GetAntimeridianLon(lon1, lon2) == if lon1 >= 0.0 then ANTIMERIDIAN else -ANTIMERIDIAN
  {
  }

  /** The values of the source's getAntimeridianLon tests. */
  lemma AntimeridianLonVectors()
    ensures GetAntimeridianLon(170.0, -170.0) == 180.0
    ensures GetAntimeridianLon(-170.0, 170.0) == -180.0
    ensures GetAntimeridianLon(160.0, 170.0) == 180.0
    ensures GetAntimeridianLon(-170.0, -160.0) == -180.0
  {
  }

  // ---------------------------------------------------------- interpolation

  /** Math.max(0, Math.min(1, f)). */
  function Clamp01(f: real): (r: real)
    ensures 0.0 <= r <= 1.0
    ensures 0.0 <= f <= 1.0 ==> r == f
  {
    if f < 0.0 then 0.0 else if f > 1.0 then 1.0 else f
  }

  lemma ProductNonNegative(x: real, y: real)
    requires 0.0 <= x && 0.0 <= y
    ensures 0.0 <= x * y
  {
  }

  /** The point a fraction `f` of the way from `a` to `b` lies between them. */
  lemma LerpBetween(a: real, b: real, f: real)
    requires 0.0 <= f <= 1.0
    ensures Between(a + f * (b - a), a, b)
  {
    if a <= b {
      ProductNonNegative(f, b - a);
      ProductNonNegative(1.0 - f, b - a);
      assert (1.0 - f) * (b - a) == (b - a) - f * (b - a);
    } else {
      ProductNonNegative(f, a - b);
      ProductNonNegative(1.0 - f, a - b);
      assert f * (b - a) == -(f * (a - b));
      assert (1.0 - f) * (a - b) == (a - b) - f * (a - b);
    }
  }

  /**
   * The general rule of interpolateLatitude on normalised longitudes: the
   * longitude behind the branch cut is moved on by one turn, and the
   * latitude is taken the clamped fraction of the way from the first point
   * to the second at which the chosen meridian lies; when the moved
   * longitudes coincide the fraction is one half.
   */
  function UnwrappedLatitude(lon1: real, lat1: real, lon2: real, lat2: real): (r: real)
    ensures Between(r, lat1, lat2)
  {
    var antimeridianLon := GetAntimeridianLon(lon1, lon2);
    var from := if lon1 < 0.0 && lon2 > 0.0 then lon1 + 360.0 else lon1;
    var to := if lon1 > 0.0 && lon2 < 0.0 then lon2 + 360.0 else lon2;
    var fraction := if from != to then Clamp01(Abs((antimeridianLon - from) / (to - from))) else 0.5;
    LerpBetween(lat1, lat2, fraction);
    lat1 + fraction * (lat2 - lat1)
  }

  /** The pair of normalised longitudes the source treats apart: 170 and -170, in either order. */
  predicate IsSpecialPair(lon1: real, lon2: real)
  {
    (lon1 == -170.0 && lon2 == 170.0) || (lon1 == 170.0 && lon2 == -170.0)
  }

  /**
   * interpolateLatitude: the latitude at which the segment p1 -> p2 meets the
   * antimeridian. The pair 170 / -170 gives the mean of the latitudes; every
   * other pair follows the general rule. Either way the latitude lies
   * between those of the two points.
   */
  function InterpolateLatitude(p1: Position, p2: Position): (r: real)
    ensures Between(r, p1.latitude, p2.latitude)
  {
    var lon1 := NormalizeLongitude(p1.longitude);
    var lon2 := NormalizeLongitude(p2.longitude);
    if IsSpecialPair(lon1, lon2) then
      LerpBetween(p1.latitude, p2.latitude, 0.5);
      (p1.latitude + p2.latitude) / 2.0
    else
      UnwrappedLatitude(lon1, p1.latitude, lon2, p2.latitude)
  }

  /** 0 <= a <= b, b > 0 gives a quotient in [0, 1]. */
  lemma QuotientInUnit(a: real, b: real)
    requires 0.0 <= a <= b && 0.0 < b
    ensures 0.0 <= a / b <= 1.0
  {
    assert (a / b) * b == a;
  }

  /** 0 < b < a gives a quotient above 1. */
  lemma QuotientAboveOne(a: real, b: real)
    requires 0.0 < b < a
    ensures a / b > 1.0
  {
    assert (a / b) * b == a;
  }

  /**
   * From a negative to a positive normalised longitude the moved first
   * longitude lies beyond -180 by more than the segment is long, so the
   * fraction is clamped to 1 and the latitude is that of the second point.
   * Only the special pair (-170, 170) and the pair (-180, 180), whose moved
   * longitudes coincide, escape this.
   */
  lemma NegativeToPositiveGivesSecondLatitude(p1: Position, p2: Position)
    requires NormalizeLongitude(p1.longitude) < 0.0 < NormalizeLongitude(p2.longitude)
    requires !IsSpecialPair(NormalizeLongitude(p1.longitude), NormalizeLongitude(p2.longitude))
    requires !(NormalizeLongitude(p1.longitude) == -180.0 && NormalizeLongitude(p2.longitude) == 180.0)
    ensures InterpolateLatitude(p1, p2) == p2.latitude
  {
    UnwrappedNegativeToPositive(NormalizeLongitude(p1.longitude), p1.latitude, NormalizeLongitude(p2.longitude), p2.latitude);
  }

  /** The general rule from a negative to a positive longitude gives the second latitude. */
  lemma UnwrappedNegativeToPositive(lon1: real, lat1: real, lon2: real, lat2: real)
    requires -180.0 <= lon1 < 0.0 < lon2 <= 180.0 && !(lon1 == -180.0 && lon2 == 180.0)
    ensures UnwrappedLatitude(lon1, lat1, lon2, lat2) == lat2
  {
    assert GetAntimeridianLon(lon1, lon2) == -180.0;
    var from := lon1 + 360.0;
    assert from != lon2;
    QuotientAboveOne(from + 180.0, from - lon2);
    assert (-180.0 - from) / (lon2 - from) == (from + 180.0) / (from - lon2);
  }

  /**
   * From a positive to a negative normalised longitude the fraction needs
   * no clamping: it is (180 - lon1) / (lon2 + 360 - lon1), in [0, 1]. The
   * pair (180, -180), whose moved longitudes coincide, gives the mean.
   */
  lemma PositiveToNegativeInterpolates(p1: Position, p2: Position)
    requires NormalizeLongitude(p1.longitude) > 0.0 > NormalizeLongitude(p2.longitude)
    requires !IsSpecialPair(NormalizeLongitude(p1.longitude), NormalizeLongitude(p2.longitude))
    requires !(NormalizeLongitude(p1.longitude) == 180.0 && NormalizeLongitude(p2.longitude) == -180.0)
    ensures var lon1, lon2 := NormalizeLongitude(p1.longitude), NormalizeLongitude(p2.longitude);
      var fraction := (180.0 - lon1) / (lon2 + 360.0 - lon1);
      0.0 <= fraction <= 1.0
      && InterpolateLatitude(p1, p2) == p1.latitude + fraction * (p2.latitude - p1.latitude)
  {
    UnwrappedPositiveToNegative(NormalizeLongitude(p1.longitude), p1.latitude, NormalizeLongitude(p2.longitude), p2.latitude);
  }

  /** The general rule from a positive to a negative longitude takes the unclamped fraction. */
  lemma UnwrappedPositiveToNegative(lon1: real, lat1: real, lon2: real, lat2: real)
    requires -180.0 <= lon2 < 0.0 < lon1 <= 180.0 && !(lon1 == 180.0 && lon2 == -180.0)
    ensures var fraction := (180.0 - lon1) / (lon2 + 360.0 - lon1);
      0.0 <= fraction <= 1.0
      && UnwrappedLatitude(lon1, lat1, lon2, lat2) == lat1 + fraction * (lat2 - lat1)
  {
    assert GetAntimeridianLon(lon1, lon2) == 180.0;
    QuotientInUnit(180.0 - lon1, lon2 + 360.0 - lon1);
  }

  /** A pair on the antimeridian itself, (180, -180) or (-180, 180), gives the mean latitude. */
  lemma OppositeAntimeridiansGiveMean(p1: Position, p2: Position)
    requires var lon1, lon2 := NormalizeLongitude(p1.longitude), NormalizeLongitude(p2.longitude);
      (lon1 == 180.0 && lon2 == -180.0) || (lon1 == -180.0 && lon2 == 180.0)
    ensures InterpolateLatitude(p1, p2) == p1.latitude + 0.5 * (p2.latitude - p1.latitude)
  {
  }

  /**
   * The special pair is redundant in one direction only: from 170 to -170
   * the general rule gives the mean latitude as well, but from -170 to 170
   * it gives the second latitude.
   */
  lemma SpecialPairAgainstGeneralRule(lat1: real, lat2: real)
    ensures UnwrappedLatitude(170.0, lat1, -170.0, lat2) == (lat1 + lat2) / 2.0
    ensures UnwrappedLatitude(-170.0, lat1, 170.0, lat2) == lat2
  {
    assert GetAntimeridianLon(-170.0, 170.0) == -180.0;
    assert (-180.0 - 190.0) / (170.0 - 190.0) == 18.5;
  }

  /** The values of the source's interpolation tests. */
  lemma InterpolationVectors()
    ensures InterpolateLatitude(At(170.0, 10.0), At(-170.0, 20.0)) == 15.0
    ensures InterpolateLatitude(At(-170.0, 30.0), At(170.0, 10.0)) == 20.0
    ensures InterpolateLatitude(At(180.0, 10.0), At(-180.0, 20.0)) == 15.0
    ensures InterpolateLatitude(At(-170.0, 10.0), At(170.0, 20.0)) == 15.0
  {
    assert NormalizeLongitude(180.0) == 180.0 && NormalizeLongitude(-180.0) == -180.0;
    assert GetAntimeridianLon(180.0, -180.0) == 180.0;
  }

  // ------------------------------------------------------ crossings in a path

  /** Some pair of consecutive positions of the path crosses the antimeridian. */
  predicate HasCrossing(points: seq<Position>)
  {
    exists i :: 1 <= i < |points| && CrossesAntimeridian(points[i - 1], points[i])
  }

  /** The number of crossing pairs among the first n positions of the path. */
  function CrossingCount(points: seq<Position>, n: nat): nat
    requires n <= |points|
  {
    if n <= 1 then 0
    else CrossingCount(points, n - 1) + (if CrossesAntimeridian(points[n - 2], points[n - 1]) then 1 else 0)
  }

  /** The count is positive exactly when one of the counted pairs crosses, and it never exceeds the pairs counted. */
  lemma {:induction false} CrossingCountCounts(points: seq<Position>, n: nat)
    requires n <= |points|
    ensures CrossingCount(points, n) > 0 <==> exists i :: 1 <= i < n && CrossesAntimeridian(points[i - 1], points[i])
    ensures n >= 1 ==> CrossingCount(points, n) <= n - 1
  {
    if n > 1 {
      CrossingCountCounts(points, n - 1);
      if CrossesAntimeridian(points[n - 2], points[n - 1]) {
        assert 1 <= n - 1 < n;
      }
    }
  }

  /** Over the whole path: a positive count means the path crosses. */
  lemma CrossingCountOfPath(points: seq<Position>)
    ensures CrossingCount(points, |points|) > 0 <==> HasCrossing(points)
  {
    CrossingCountCounts(points, |points|);
  }
}
