/**
 * GeoJsonProcessor (and the identical copies in GeoJsonUtils): walks a
 * GeoJSON object and applies the RFC 7946 recommendations the configuration
 * switches on — orientation fixing and antimeridian cutting for polygons,
 * antimeridian cutting for line strings — descending into features and
 * collections.
 */
module GeoJsonProcessing {
  import opened LngLatAlt
  import opened Failures
  import opened PolygonOrientation
  import opened Antimeridian
  import opened Configuration
  import LineCutting
  import RingCutting
  import Polygons

  /** The GeoJSON objects the processor tells apart. */
  datatype GeoJson =
    | Point(position: Position)
    | MultiPoint(points: seq<Position>)
    | LineString(points: seq<Position>)
    | MultiLineString(lines: seq<seq<Position>>)
    | Polygon(rings: seq<Ring>)
    | MultiPolygon(polygons: seq<seq<Ring>>)
    | GeometryCollection(geometries: seq<GeoJson>)
    | Feature(feature: FeatureData)
    | FeatureCollection(features: seq<FeatureData>)

  /** A feature: an optional geometry with its properties and identifier, which processing carries along. */
  datatype FeatureData = FeatureData(geometry: Option<GeoJson>, properties: map<string, string>, id: Option<string>)

  // ------------------------------------------------------------ specification

  /**
   * processPolygon: fixPolygonOrientation when auto-fixing — its result is
   * dropped, but the rings were closed and reversed in place — then the
   * antimeridian cut when cutting.
   */
  function PolygonResult(rings: seq<Ring>, flags: Flags, meanDirection: seq<real> -> real): Result<GeoJson>
  {
    var fixed := if flags.autoFixPolygonOrientation then FixFrom(rings, 0) else RingsOutcome(rings, Pass);
    if fixed.outcome.Fail? then Err(fixed.outcome.failure)
    else if !flags.cutAntimeridian then Ok(Polygon(fixed.rings))
    else
      match RingCutting.PolygonCutOf(fixed.rings, meanDirection)
      case Err(f) => Err(f)
      case Ok(cut) => if cut.SamePolygon? then Ok(Polygon(fixed.rings)) else Ok(MultiPolygon(cut.polygons))
  }

  /** processLineString: the antimeridian cut when cutting. */
  function LineStringResult(points: seq<Position>, flags: Flags): GeoJson
  {
    if !flags.cutAntimeridian then LineString(points)
    else
      match LineCutting.LineStringCut(points)
      case SameLineString => LineString(points)
      case MultiLineString(lines) => MultiLineString(lines)
  }

  /** process: dispatch on the kind of object; every other kind comes back as it is. */
  function ProcessResult(obj: GeoJson, flags: Flags, meanDirection: seq<real> -> real): Result<GeoJson>
    decreases obj
  {
    match obj
    case Polygon(rings) => PolygonResult(rings, flags, meanDirection)
    case LineString(points) => Ok(LineStringResult(points, flags))
    case Feature(feature) =>
      (match FeatureResult(feature, flags, meanDirection)
       case Err(f) => Err(f)
       case Ok(processed) => Ok(Feature(processed)))
    case FeatureCollection(features) =>
      (match FeaturesResult(features, |features|, flags, meanDirection)
       case Err(f) => Err(f)
       case Ok(processed) => Ok(FeatureCollection(processed)))
    case GeometryCollection(geometries) =>
      (match GeometriesResult(geometries, |geometries|, flags, meanDirection)
       case Err(f) => Err(f)
       case Ok(processed) => Ok(GeometryCollection(processed)))
    case _ => Ok(obj)
  }

  /** processFeature: the geometry, when there is one, is processed and replaced. */
  function FeatureResult(feature: FeatureData, flags: Flags, meanDirection: seq<real> -> real): Result<FeatureData>
    decreases feature
  {
    match feature.geometry
    case None => Ok(feature)
    case Some(geometry) =>
      match ProcessResult(geometry, flags, meanDirection)
      case Err(f) => Err(f)
      case Ok(processed) => Ok(feature.(geometry := Some(processed)))
  }

  /** The first n features processed in order; the first failure ends the walk. */
  function FeaturesResult(features: seq<FeatureData>, n: nat, flags: Flags, meanDirection: seq<real> -> real): Result<seq<FeatureData>>
    requires n <= |features|
    decreases features, n
  {
    if n == 0 then Ok([])
    else
      match FeaturesResult(features, n - 1, flags, meanDirection)
      case Err(f) => Err(f)
      case Ok(done) =>
        match FeatureResult(features[n - 1], flags, meanDirection)
        case Err(f) => Err(f)
        case Ok(processed) => Ok(done + [processed])
  }

  /** The first n geometries processed in order; the first failure ends the walk. */
  function GeometriesResult(geometries: seq<GeoJson>, n: nat, flags: Flags, meanDirection: seq<real> -> real): Result<seq<GeoJson>>
    requires n <= |geometries|
    decreases geometries, n
  {
    if n == 0 then Ok([])
    else
      match GeometriesResult(geometries, n - 1, flags, meanDirection)
      case Err(f) => Err(f)
      case Ok(done) =>
        match ProcessResult(geometries[n - 1], flags, meanDirection)
        case Err(f) => Err(f)
        case Ok(processed) => Ok(done + [processed])
  }

  // ------------------------------------------ the caller's object afterwards

  /**
   * The object the caller passed in, as the call leaves it, whether the call
   * returns or throws. processPolygon fixes the polygon's own rings in place
   * (a cut builds new polygons and leaves the old one fixed); processFeature
   * sets the feature's geometry once it is processed; processFeatureCollection
   * processes its features in place one by one; processGeometryCollection
   * sets its new list only once every member is processed, and until then its
   * members carry whatever was done to them in place.
   */
  function InputAfter(obj: GeoJson, flags: Flags, meanDirection: seq<real> -> real): GeoJson
    decreases obj
  {
    match obj
    case Polygon(rings) => if flags.autoFixPolygonOrientation then Polygon(FixFrom(rings, 0).rings) else obj
    case Feature(feature) => Feature(FeatureAfter(feature, flags, meanDirection))
    case FeatureCollection(features) => FeatureCollection(FeaturesAfter(features, |features|, flags, meanDirection))
    case GeometryCollection(geometries) =>
      (match GeometriesResult(geometries, |geometries|, flags, meanDirection)
       case Ok(processed) => GeometryCollection(processed)
       case Err(_) => GeometryCollection(GeometriesAfter(geometries, |geometries|, flags, meanDirection)))
    case _ => obj
  }

  /** A feature after processFeature: its geometry replaced, or, on a failure, changed in place. */
  function FeatureAfter(feature: FeatureData, flags: Flags, meanDirection: seq<real> -> real): FeatureData
    decreases feature
  {
    match feature.geometry
    case None => feature
    case Some(geometry) =>
      match ProcessResult(geometry, flags, meanDirection)
      case Ok(processed) => feature.(geometry := Some(processed))
      case Err(_) => feature.(geometry := Some(InputAfter(geometry, flags, meanDirection)))
  }

  /** The features after the walk has reached feature n, stopping at the first failure. */
  function FeaturesAfter(features: seq<FeatureData>, n: nat, flags: Flags, meanDirection: seq<real> -> real): (r: seq<FeatureData>)
    requires n <= |features|
    ensures |r| == |features|
    decreases features, n
  {
    if n == 0 then features
    else
      var before := FeaturesAfter(features, n - 1, flags, meanDirection);
      if FeaturesResult(features, n - 1, flags, meanDirection).Err? then before
      else before[n - 1 := FeatureAfter(features[n - 1], flags, meanDirection)]
  }

  /** The members of a geometry collection after the walk has reached member n, stopping at the first failure. */
  function GeometriesAfter(geometries: seq<GeoJson>, n: nat, flags: Flags, meanDirection: seq<real> -> real): (r: seq<GeoJson>)
    requires n <= |geometries|
    ensures |r| == |geometries|
    decreases geometries, n
  {
    if n == 0 then geometries
    else
      var before := GeometriesAfter(geometries, n - 1, flags, meanDirection);
      if GeometriesResult(geometries, n - 1, flags, meanDirection).Err? then before
      else before[n - 1 := InputAfter(geometries[n - 1], flags, meanDirection)]
  }

  // ----------------------------------------------------------------- methods

  method Process(obj: GeoJson, flags: Flags, meanDirection: seq<real> -> real) returns (r: Result<GeoJson>, after: GeoJson)
    ensures r == ProcessResult(obj, flags, meanDirection)
    ensures after == InputAfter(obj, flags, meanDirection)
    decreases obj
  {
    match obj {
      case Polygon(rings) =>
        var ringsAfter;
        r, ringsAfter := ProcessPolygon(rings, flags, meanDirection);
        after := Polygon(ringsAfter);
      case LineString(points) =>
        var processed := ProcessLineString(points, flags);
        r, after := Ok(processed), obj;
      case Feature(feature) =>
        var processed, featureAfter := ProcessFeature(feature, flags, meanDirection);
        r := if processed.Err? then Err(processed.failure) else Ok(Feature(processed.value));
        after := Feature(featureAfter);
      case FeatureCollection(features) =>
        var processed, featuresAfter := ProcessFeatureCollection(features, flags, meanDirection);
        r := if processed.Err? then Err(processed.failure) else Ok(FeatureCollection(processed.value));
        after := FeatureCollection(featuresAfter);
      case GeometryCollection(geometries) =>
        var processed, geometriesAfter := ProcessGeometryCollection(geometries, flags, meanDirection);
        r := if processed.Err? then Err(processed.failure) else Ok(GeometryCollection(processed.value));
        after := GeometryCollection(geometriesAfter);
      case _ =>
        r, after := Ok(obj), obj;
    }
  }

  /**
   * processPolygon; ringsAfter are the polygon's own rings when it returns or
   * throws, which fixing has closed and reversed in place.
   */
  method ProcessPolygon(rings: seq<Ring>, flags: Flags, meanDirection: seq<real> -> real)
    returns (r: Result<GeoJson>, ringsAfter: seq<Ring>)
    ensures r == PolygonResult(rings, flags, meanDirection)
    ensures Polygon(ringsAfter) == InputAfter(Polygon(rings), flags, meanDirection)
  {
    ringsAfter := rings;
    if flags.autoFixPolygonOrientation {
      var fixed := FixPolygonOrientation(rings);
      ringsAfter := fixed.rings;
      if fixed.outcome.Fail? {
        return Err(fixed.outcome.failure), ringsAfter;
      }
    }
    if flags.cutAntimeridian {
      var cut := RingCutting.CutPolygonAtAntimeridian(ringsAfter, meanDirection);
      if cut.Err? {
        return Err(cut.failure), ringsAfter;
      }
      if cut.value.MultiPolygon? {
        return Ok(MultiPolygon(cut.value.polygons)), ringsAfter;
      }
    }
    return Ok(Polygon(ringsAfter)), ringsAfter;
  }

  method ProcessLineString(points: seq<Position>, flags: Flags) returns (r: GeoJson)
    ensures r == LineStringResult(points, flags)
  {
    if flags.cutAntimeridian {
      var cut := LineCutting.CutLineStringAtAntimeridian(points);
      if cut.MultiLineString? {
        return MultiLineString(cut.lines);
      }
    }
    return LineString(points);
  }

  method ProcessFeature(feature: FeatureData, flags: Flags, meanDirection: seq<real> -> real)
    returns (r: Result<FeatureData>, after: FeatureData)
    ensures r == FeatureResult(feature, flags, meanDirection)
    ensures after == FeatureAfter(feature, flags, meanDirection)
    decreases feature
  {
    if feature.geometry.None? {
      return Ok(feature), feature;
    }
    var processed, geometryAfter := Process(feature.geometry.value, flags, meanDirection);
    if processed.Err? {
      return Err(processed.failure), feature.(geometry := Some(geometryAfter));
    }
    var updated := feature.(geometry := Some(processed.value));
    return Ok(updated), updated;
  }

  /** processFeatureCollection; after are the collection's features when it returns or throws. */
  method ProcessFeatureCollection(features: seq<FeatureData>, flags: Flags, meanDirection: seq<real> -> real)
    returns (r: Result<seq<FeatureData>>, after: seq<FeatureData>)
    ensures r == FeaturesResult(features, |features|, flags, meanDirection)
    ensures after == FeaturesAfter(features, |features|, flags, meanDirection)
    decreases features
  {
    var processed: seq<FeatureData> := [];
    after := features;
    var i := 0;
    while i < |features|
      invariant 0 <= i <= |features|
      invariant FeaturesResult(features, i, flags, meanDirection) == Ok(processed)
      invariant after == FeaturesAfter(features, i, flags, meanDirection)
    {
      var one, featureAfter := ProcessFeature(features[i], flags, meanDirection);
      after := after[i := featureAfter];
      if one.Err? {
        FeaturesFailureStays(features, i + 1, |features|, flags, meanDirection);
        FeaturesAfterStays(features, i + 1, |features|, flags, meanDirection);
        return Err(one.failure), after;
      }
      processed := processed + [one.value];
      i := i + 1;
    }
    return Ok(processed), after;
  }

  /**
   * processGeometryCollection; after are the collection's members when it
   * returns (the new list) or throws (the old list, its members changed in
   * place).
   */
  method ProcessGeometryCollection(geometries: seq<GeoJson>, flags: Flags, meanDirection: seq<real> -> real)
    returns (r: Result<seq<GeoJson>>, after: seq<GeoJson>)
    ensures r == GeometriesResult(geometries, |geometries|, flags, meanDirection)
    ensures GeometryCollection(after) == InputAfter(GeometryCollection(geometries), flags, meanDirection)
    decreases geometries
  {
    var processed: seq<GeoJson> := [];
    var members := geometries;
    var i := 0;
    while i < |geometries|
      invariant 0 <= i <= |geometries|
      invariant GeometriesResult(geometries, i, flags, meanDirection) == Ok(processed)
      invariant members == GeometriesAfter(geometries, i, flags, meanDirection)
    {
      var one, memberAfter := Process(geometries[i], flags, meanDirection);
      members := members[i := memberAfter];
      if one.Err? {
        GeometriesFailureStays(geometries, i + 1, |geometries|, flags, meanDirection);
        GeometriesAfterStays(geometries, i + 1, |geometries|, flags, meanDirection);
        return Err(one.failure), members;
      }
      processed := processed + [one.value];
      i := i + 1;
    }
    return Ok(processed), processed;
  }

  /** The deprecated process(object): a fresh configuration, i.e. the legacy switches. */
  method ProcessWithDefaultConfiguration(obj: GeoJson, meanDirection: seq<real> -> real) returns (r: Result<GeoJson>)
    ensures r == Ok(obj)
  {
    var config := new GeoJsonConfig();
    var after;
    r, after := Process(obj, config.Values(), meanDirection);
    ProcessWithoutSwitchesIsIdentity(obj, config.Values(), meanDirection);
  }

  /**
   * createPolygonFromRings: a new polygon to which every ring is added in
   * turn. A new polygon is taken to carry the legacy configuration, under
   * which add skips an empty ring and appends any other.
   */
  method CreatePolygonFromRings(rings: seq<Ring>) returns (polygon: Polygons.Polygon)
    ensures fresh(polygon)
    ensures polygon.coordinates == NonEmptyRings(rings)
  {
    polygon := new Polygons.Polygon(LegacyFlags);
    var i := 0;
    while i < |rings|
      invariant 0 <= i <= |rings|
      invariant polygon.config == LegacyFlags
      invariant polygon.coordinates == NonEmptyRings(rings[..i])
      modifies polygon
    {
      Polygons.AddAppends(polygon.coordinates, rings[i], LegacyFlags);
      var _ := polygon.Add(rings[i]);
      assert rings[..i + 1][..i] == rings[..i];
      i := i + 1;
    }
    assert rings[..|rings|] == rings;
  }

  /** The rings that are not empty, in order. */
  function NonEmptyRings(rings: seq<Ring>): (r: seq<Ring>)
    ensures |r| <= |rings|
    ensures forall k :: 0 <= k < |r| ==> r[k] != []
  {
    if |rings| == 0 then []
    else NonEmptyRings(rings[..|rings| - 1]) + (if rings[|rings| - 1] == [] then [] else [rings[|rings| - 1]])
  }

  // -------------------------------------------------------------- properties

  lemma {:induction false} FeaturesFailureStays(features: seq<FeatureData>, m: nat, n: nat, flags: Flags, meanDirection: seq<real> -> real)
    requires 1 <= m <= n <= |features|
    requires FeaturesResult(features, m, flags, meanDirection).Err?
    ensures FeaturesResult(features, n, flags, meanDirection) == FeaturesResult(features, m, flags, meanDirection)
  {
    if m < n {
      FeaturesFailureStays(features, m, n - 1, flags, meanDirection);
    }
  }

  lemma {:induction false} GeometriesFailureStays(geometries: seq<GeoJson>, m: nat, n: nat, flags: Flags, meanDirection: seq<real> -> real)
    requires 1 <= m <= n <= |geometries|
    requires GeometriesResult(geometries, m, flags, meanDirection).Err?
    ensures GeometriesResult(geometries, n, flags, meanDirection) == GeometriesResult(geometries, m, flags, meanDirection)
  {
    if m < n {
      GeometriesFailureStays(geometries, m, n - 1, flags, meanDirection);
    }
  }

  lemma {:induction false} FeaturesAfterStays(features: seq<FeatureData>, m: nat, n: nat, flags: Flags, meanDirection: seq<real> -> real)
    requires 1 <= m <= n <= |features|
    requires FeaturesResult(features, m, flags, meanDirection).Err?
    ensures FeaturesAfter(features, n, flags, meanDirection) == FeaturesAfter(features, m, flags, meanDirection)
  {
    if m < n {
      FeaturesFailureStays(features, m, n - 1, flags, meanDirection);
      FeaturesAfterStays(features, m, n - 1, flags, meanDirection);
    }
  }

  lemma {:induction false} GeometriesAfterStays(geometries: seq<GeoJson>, m: nat, n: nat, flags: Flags, meanDirection: seq<real> -> real)
    requires 1 <= m <= n <= |geometries|
    requires GeometriesResult(geometries, m, flags, meanDirection).Err?
    ensures GeometriesAfter(geometries, n, flags, meanDirection) == GeometriesAfter(geometries, m, flags, meanDirection)
  {
    if m < n {
      GeometriesFailureStays(geometries, m, n - 1, flags, meanDirection);
      GeometriesAfterStays(geometries, m, n - 1, flags, meanDirection);
    }
  }

  /** Until the walk fails, the features it has reached are as processFeature left them and the rest are untouched. */
  lemma {:induction false} FeaturesAfterUpTo(features: seq<FeatureData>, n: nat, flags: Flags, meanDirection: seq<real> -> real)
    requires n <= |features|
    requires n == 0 || FeaturesResult(features, n - 1, flags, meanDirection).Ok?
    ensures var after := FeaturesAfter(features, n, flags, meanDirection);
      forall j :: 0 <= j < |features| ==> after[j] == if j < n then FeatureAfter(features[j], flags, meanDirection) else features[j]
  {
    if n > 0 {
      assert n - 1 == 0 || FeaturesResult(features, n - 2, flags, meanDirection).Ok?;
      FeaturesAfterUpTo(features, n - 1, flags, meanDirection);
    }
  }

  /** Until the walk fails, the members it has reached are as process left them and the rest are untouched. */
  lemma {:induction false} GeometriesAfterUpTo(geometries: seq<GeoJson>, n: nat, flags: Flags, meanDirection: seq<real> -> real)
    requires n <= |geometries|
    requires n == 0 || GeometriesResult(geometries, n - 1, flags, meanDirection).Ok?
    ensures var after := GeometriesAfter(geometries, n, flags, meanDirection);
      forall j :: 0 <= j < |geometries| ==> after[j] == if j < n then InputAfter(geometries[j], flags, meanDirection) else geometries[j]
  {
    if n > 0 {
      assert n - 1 == 0 || GeometriesResult(geometries, n - 2, flags, meanDirection).Ok?;
      GeometriesAfterUpTo(geometries, n - 1, flags, meanDirection);
    }
  }

  /** When the walk over the features succeeds, the features processed so far are in place and the rest untouched. */
  lemma {:induction false} FeaturesAfterOnSuccess(features: seq<FeatureData>, n: nat, flags: Flags, meanDirection: seq<real> -> real)
    requires n <= |features|
    requires FeaturesResult(features, n, flags, meanDirection).Ok?
    ensures FeaturesAfter(features, n, flags, meanDirection) == FeaturesResult(features, n, flags, meanDirection).value + features[n..]
  {
    if n > 0 {
      assert FeaturesResult(features, n - 1, flags, meanDirection).Ok?;
      FeaturesAfterOnSuccess(features, n - 1, flags, meanDirection);
      var done := FeaturesResult(features, n - 1, flags, meanDirection).value;
      assert features[n - 1..] == [features[n - 1]] + features[n..];
      assert (done + features[n - 1..])[n - 1 := FeatureAfter(features[n - 1], flags, meanDirection)]
          == done + [FeatureAfter(features[n - 1], flags, meanDirection)] + features[n..];
    }
  }

  /**
   * When the call returns the caller's own object, which is every kind but a
   * LineString or Polygon that was cut, the object the caller holds afterwards
   * is the returned one; a LineString is never changed in place.
   */
  lemma ReturnedObjectIsTheInput(obj: GeoJson, flags: Flags, meanDirection: seq<real> -> real)
    requires ProcessResult(obj, flags, meanDirection).Ok?
    ensures var r := ProcessResult(obj, flags, meanDirection).value;
      && (!obj.Polygon? && !obj.LineString? ==> InputAfter(obj, flags, meanDirection) == r)
      && (obj.Polygon? && r.Polygon? ==> InputAfter(obj, flags, meanDirection) == r)
      && (obj.LineString? ==> InputAfter(obj, flags, meanDirection) == obj)
  {
    match obj
    case FeatureCollection(features) =>
      FeaturesAfterOnSuccess(features, |features|, flags, meanDirection);
      assert features[|features|..] == [];
    case _ =>
  }

  /**
   * When feature k is the first whose processing throws, the failure is
   * feature k's, and the collection the caller holds has features 0..k-1
   * processed (their geometries replaced), feature k as its processing left
   * it, and the later features untouched.
   */
  lemma FeatureCollectionFailureState(features: seq<FeatureData>, k: nat, flags: Flags, meanDirection: seq<real> -> real)
    requires k < |features|
    requires FeaturesResult(features, k, flags, meanDirection).Ok? && FeatureResult(features[k], flags, meanDirection).Err?
    ensures ProcessResult(FeatureCollection(features), flags, meanDirection) == Err(FeatureResult(features[k], flags, meanDirection).failure)
    ensures var after := InputAfter(FeatureCollection(features), flags, meanDirection).features;
      && |after| == |features|
      && (forall j :: 0 <= j < k ==> FeatureResult(features[j], flags, meanDirection) == Ok(after[j]))
      && after[k] == FeatureAfter(features[k], flags, meanDirection)
      && (forall j :: k < j < |features| ==> after[j] == features[j])
  {
    FeaturesFailureStays(features, k + 1, |features|, flags, meanDirection);
    FeaturesAfterStays(features, k + 1, |features|, flags, meanDirection);
    FeaturesAfterUpTo(features, k + 1, flags, meanDirection);
    FeaturesKeepOrder(features, k, flags, meanDirection);
  }

  /**
   * When member k is the first whose processing throws, the failure is
   * member k's, and the collection keeps its old list, in which members
   * 0..k carry what processing did to them in place and the later members
   * are untouched.
   */
  lemma GeometryCollectionFailureState(geometries: seq<GeoJson>, k: nat, flags: Flags, meanDirection: seq<real> -> real)
    requires k < |geometries|
    requires GeometriesResult(geometries, k, flags, meanDirection).Ok? && ProcessResult(geometries[k], flags, meanDirection).Err?
    ensures ProcessResult(GeometryCollection(geometries), flags, meanDirection) == Err(ProcessResult(geometries[k], flags, meanDirection).failure)
    ensures var after := InputAfter(GeometryCollection(geometries), flags, meanDirection).geometries;
      && |after| == |geometries|
      && (forall j :: 0 <= j <= k ==> after[j] == InputAfter(geometries[j], flags, meanDirection))
      && (forall j :: k < j < |geometries| ==> after[j] == geometries[j])
  {
    GeometriesFailureStays(geometries, k + 1, |geometries|, flags, meanDirection);
    GeometriesAfterStays(geometries, k + 1, |geometries|, flags, meanDirection);
    GeometriesAfterUpTo(geometries, k + 1, flags, meanDirection);
  }

  /**
   * With fixing on, when ring j is the first that cannot be fixed,
   * processPolygon throws that ring's failure and leaves the polygon with
   * the rings before j closed and oriented and the others as they were.
   */
  lemma PolygonFixFailureKeepsFixedRings(rings: seq<Ring>, j: nat, flags: Flags, meanDirection: seq<real> -> real)
    requires flags.autoFixPolygonOrientation
    requires j < |rings| && !Fixable(rings[j]) && forall k :: 0 <= k < j ==> Fixable(rings[k])
    ensures PolygonResult(rings, flags, meanDirection) == Err(FixFailure(rings[j]))
    ensures var after := InputAfter(Polygon(rings), flags, meanDirection).rings;
      && |after| == |rings|
      && forall k :: 0 <= k < |rings| ==> after[k] == if k < j then Oriented(Closed(rings[k]), k) else rings[k]
  {
    FixFromFailsAt(rings, 0, j);
    FixFromFailureRings(rings, 0, j);
  }

  /**
   * With fixing on, when every ring is fixed but the cut then throws, the
   * polygon keeps every ring closed and oriented.
   */
  lemma PolygonCutFailureKeepsFixedRings(rings: seq<Ring>, flags: Flags, meanDirection: seq<real> -> real)
    requires flags.autoFixPolygonOrientation
    requires forall j :: 0 <= j < |rings| ==> Fixable(rings[j])
    requires PolygonResult(rings, flags, meanDirection).Err?
    ensures flags.cutAntimeridian
    ensures var after := InputAfter(Polygon(rings), flags, meanDirection).rings;
      && |after| == |rings|
      && forall k :: 0 <= k < |rings| ==> after[k] == Oriented(Closed(rings[k]), k)
  {
    FixSucceedsIffRingsFixable(rings);
  }

  /** With neither fixing nor cutting switched on, processing returns every object unchanged. */
  lemma {:induction false} ProcessWithoutSwitchesIsIdentity(obj: GeoJson, flags: Flags, meanDirection: seq<real> -> real)
    requires !flags.autoFixPolygonOrientation && !flags.cutAntimeridian
    ensures ProcessResult(obj, flags, meanDirection) == Ok(obj)
    decreases obj
  {
    match obj
    case Feature(feature) =>
      FeatureWithoutSwitchesIsIdentity(feature, flags, meanDirection);
    case FeatureCollection(features) =>
      FeaturesWithoutSwitchesAreIdentity(features, |features|, flags, meanDirection);
      assert features[..|features|] == features;
    case GeometryCollection(geometries) =>
      GeometriesWithoutSwitchesAreIdentity(geometries, |geometries|, flags, meanDirection);
      assert geometries[..|geometries|] == geometries;
    case _ =>
  }

  lemma {:induction false} FeatureWithoutSwitchesIsIdentity(feature: FeatureData, flags: Flags, meanDirection: seq<real> -> real)
    requires !flags.autoFixPolygonOrientation && !flags.cutAntimeridian
    ensures FeatureResult(feature, flags, meanDirection) == Ok(feature)
    decreases feature
  {
    if feature.geometry.Some? {
      ProcessWithoutSwitchesIsIdentity(feature.geometry.value, flags, meanDirection);
    }
  }

  lemma {:induction false} FeaturesWithoutSwitchesAreIdentity(features: seq<FeatureData>, n: nat, flags: Flags, meanDirection: seq<real> -> real)
    requires n <= |features|
    requires !flags.autoFixPolygonOrientation && !flags.cutAntimeridian
    ensures FeaturesResult(features, n, flags, meanDirection) == Ok(features[..n])
    decreases features, n
  {
    if n > 0 {
      FeaturesWithoutSwitchesAreIdentity(features, n - 1, flags, meanDirection);
      FeatureWithoutSwitchesIsIdentity(features[n - 1], flags, meanDirection);
      assert features[..n] == features[..n - 1] + [features[n - 1]];
    }
  }

  lemma {:induction false} GeometriesWithoutSwitchesAreIdentity(geometries: seq<GeoJson>, n: nat, flags: Flags, meanDirection: seq<real> -> real)
    requires n <= |geometries|
    requires !flags.autoFixPolygonOrientation && !flags.cutAntimeridian
    ensures GeometriesResult(geometries, n, flags, meanDirection) == Ok(geometries[..n])
    decreases geometries, n
  {
    if n > 0 {
      GeometriesWithoutSwitchesAreIdentity(geometries, n - 1, flags, meanDirection);
      ProcessWithoutSwitchesIsIdentity(geometries[n - 1], flags, meanDirection);
      assert geometries[..n] == geometries[..n - 1] + [geometries[n - 1]];
    }
  }

  /** Processing a collection keeps its size and its order: element k comes from element k. */
  lemma {:induction false} GeometriesKeepOrder(geometries: seq<GeoJson>, n: nat, flags: Flags, meanDirection: seq<real> -> real)
    requires n <= |geometries|
    requires GeometriesResult(geometries, n, flags, meanDirection).Ok?
    ensures var done := GeometriesResult(geometries, n, flags, meanDirection).value;
      && |done| == n
      && forall k :: 0 <= k < n ==> ProcessResult(geometries[k], flags, meanDirection) == Ok(done[k])
  {
    if n > 0 {
      assert GeometriesResult(geometries, n - 1, flags, meanDirection).Ok?;
      GeometriesKeepOrder(geometries, n - 1, flags, meanDirection);
    }
  }

  /** Processing features keeps their number, their order, their properties and identifiers. */
  lemma {:induction false} FeaturesKeepOrder(features: seq<FeatureData>, n: nat, flags: Flags, meanDirection: seq<real> -> real)
    requires n <= |features|
    requires FeaturesResult(features, n, flags, meanDirection).Ok?
    ensures var done := FeaturesResult(features, n, flags, meanDirection).value;
      && |done| == n
      && forall k :: 0 <= k < n ==>
        && done[k].properties == features[k].properties && done[k].id == features[k].id
        && done[k].geometry.Some? == features[k].geometry.Some?
        && FeatureResult(features[k], flags, meanDirection) == Ok(done[k])
  {
    if n > 0 {
      assert FeaturesResult(features, n - 1, flags, meanDirection).Ok?;
      FeaturesKeepOrder(features, n - 1, flags, meanDirection);
    }
  }

  /**
   * Processing changes a Polygon only into a Polygon or a MultiPolygon, a
   * LineString only into a LineString or a MultiLineString, keeps features
   * and collections with their sizes, and returns every other object as it
   * is.
   */
  lemma ProcessKeepsKinds(obj: GeoJson, flags: Flags, meanDirection: seq<real> -> real)
    requires ProcessResult(obj, flags, meanDirection).Ok?
    ensures var r := ProcessResult(obj, flags, meanDirection).value;
      && (obj.Polygon? ==> r.Polygon? || r.MultiPolygon?)
      && (obj.LineString? ==> r.LineString? || r.MultiLineString?)
      && (obj.Feature? ==> r.Feature? && r.feature.properties == obj.feature.properties && r.feature.id == obj.feature.id
                           && r.feature.geometry.Some? == obj.feature.geometry.Some?)
      && (obj.FeatureCollection? ==> r.FeatureCollection? && |r.features| == |obj.features|)
      && (obj.GeometryCollection? ==> r.GeometryCollection? && |r.geometries| == |obj.geometries|)
      && (obj.Point? || obj.MultiPoint? || obj.MultiLineString? || obj.MultiPolygon? ==> r == obj)
  {
    match obj
    case FeatureCollection(features) =>
      FeaturesKeepOrder(features, |features|, flags, meanDirection);
    case GeometryCollection(geometries) =>
      GeometriesKeepOrder(geometries, |geometries|, flags, meanDirection);
    case _ =>
  }

  /**
   * With cutting on, a LineString whose longitudes are in range comes back
   * as parts none of which crosses the antimeridian; it is cut exactly when
   * it has at least two positions and a crossing pair.
   */
  lemma ProcessedLineStringDoesNotCross(points: seq<Position>, flags: Flags)
    requires flags.cutAntimeridian && LineCutting.InRange(points)
    ensures var r := LineStringResult(points, flags);
      && (r.MultiLineString? <==> |points| >= 2 && HasCrossing(points))
      && (r.LineString? ==> r.points == points && (|points| < 2 || !HasCrossing(points)))
      && (r.MultiLineString? ==> forall k :: 0 <= k < |r.lines| ==> !HasCrossing(r.lines[k]))
  {
    LineCutting.LineIsCutIffItCrosses(points);
    if LineCutting.LineStringCut(points).MultiLineString? {
      LineCutting.CutLinePartsDoNotCross(points);
    }
  }

  /**
   * With fixing on and cutting off, a polygon comes through exactly when
   * each ring can be fixed, and then every ring is closed and oriented.
   */
  lemma ProcessedPolygonIsOriented(rings: seq<Ring>, flags: Flags, meanDirection: seq<real> -> real)
    requires flags.autoFixPolygonOrientation && !flags.cutAntimeridian
    ensures var r := PolygonResult(rings, flags, meanDirection);
      && (r.Ok? <==> forall j :: 0 <= j < |rings| ==> Fixable(rings[j]))
      && (r.Ok? ==> r.value.Polygon? && |r.value.rings| == |rings|)
      && (r.Ok? ==> forall j :: 0 <= j < |rings| ==> r.value.rings[j] == Oriented(Closed(rings[j]), j))
  {
    FixSucceedsIffRingsFixable(rings);
  }

  /**
   * With cutting on, a polygon whose fixed exterior ring does not cross
   * stays one polygon; the holes alone never cut it.
   */
  lemma PolygonWithoutCrossingExteriorStays(rings: seq<Ring>, flags: Flags, meanDirection: seq<real> -> real)
    requires !flags.autoFixPolygonOrientation && flags.cutAntimeridian
    requires |rings| == 0 || !HasCrossing(rings[0])
    ensures PolygonResult(rings, flags, meanDirection) == Ok(Polygon(rings))
  {
    RingCutting.PolygonIsCutIffExteriorCrosses(rings, meanDirection);
  }
}
