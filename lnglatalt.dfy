/** A WGS84 position: longitude, latitude and an optional altitude (the class LngLatAlt). */
module LngLatAlt {

  datatype Option<+T> = None | Some(value: T)

  /** The additional elements a LngLatAlt may carry beyond the altitude are not modelled. */
  datatype Position = Position(longitude: real, latitude: real, altitude: Option<real>)

  /** The two-argument constructor: a position without altitude. */
  function At(longitude: real, latitude: real): Position
  {
    Position(longitude, latitude, None)
  }

  /** The comparison the ring utilities use: longitude and latitude only, altitude ignored. */
  predicate SameLonLat(a: Position, b: Position)
  {
    a.longitude == b.longitude && a.latitude == b.latitude
  }
}
