/**
 * GeoJsonConfig: the four switches of the RFC 7946 engine, held by a
 * mutable object whose setters return the object itself.
 */
module Configuration {

  /** The values of the four switches at one moment. */
  datatype Flags = Flags(
    validatePolygonOrientation: bool,
    warnOnCrsUse: bool,
    cutAntimeridian: bool,
    autoFixPolygonOrientation: bool)

  /** The field initialisers: every switch off except the warning about CRS use. */
  const LegacyFlags: Flags := Flags(false, true, false, false)

  /**
   * The RFC 7946 preset switches on validation, fixing and cutting. It
   * leaves warnOnCrsUse at its initial value, which is true.
   */
  const Rfc7946Flags: Flags := Flags(true, true, true, true)

  class GeoJsonConfig {
    var validatePolygonOrientation: bool
    var warnOnCrsUse: bool
    var cutAntimeridian: bool
    var autoFixPolygonOrientation: bool

    function Values(): Flags
      reads this
    {
      Flags(validatePolygonOrientation, warnOnCrsUse, cutAntimeridian, autoFixPolygonOrientation)
    }

    /** The no-argument constructor: the field initialisers, i.e. legacy mode. */
    constructor ()
      ensures Values() == LegacyFlags
    {
      validatePolygonOrientation := false;
      warnOnCrsUse := true;
      cutAntimeridian := false;
      autoFixPolygonOrientation := false;
    }

    /** GeoJsonConfig(boolean): the field initialisers, then the three engine switches on when asked. */
    constructor WithCompliance(rfc7946Compliance: bool)
      ensures Values() == if rfc7946Compliance then Rfc7946Flags else LegacyFlags
    {
      validatePolygonOrientation := false;
      warnOnCrsUse := true;
      cutAntimeridian := false;
      autoFixPolygonOrientation := false;
      new;
      if rfc7946Compliance {
        var _ := SetValidatePolygonOrientation(true);
        autoFixPolygonOrientation := true;
        cutAntimeridian := true;
      }
    }

    static method Rfc7946() returns (config: GeoJsonConfig)
      ensures fresh(config) && config.Values() == Rfc7946Flags
    {
      config := new GeoJsonConfig.WithCompliance(true);
    }

    static method Legacy() returns (config: GeoJsonConfig)
      ensures fresh(config) && config.Values() == LegacyFlags
    {
      config := new GeoJsonConfig.WithCompliance(false);
    }

    method SetValidatePolygonOrientation(value: bool) returns (self: GeoJsonConfig)
      modifies this
      ensures self == this
      ensures Values() == old(Values()).(validatePolygonOrientation := value)
    {
      validatePolygonOrientation := value;
      self := this;
    }

    method SetWarnOnCrsUse(value: bool) returns (self: GeoJsonConfig)
      modifies this
      ensures self == this
      ensures Values() == old(Values()).(warnOnCrsUse := value)
    {
      warnOnCrsUse := value;
      self := this;
    }

    method SetCutAntimeridian(value: bool) returns (self: GeoJsonConfig)
      modifies this
      ensures self == this
      ensures Values() == old(Values()).(cutAntimeridian := value)
    {
      cutAntimeridian := value;
      self := this;
    }

    method SetAutoFixPolygonOrientation(value: bool) returns (self: GeoJsonConfig)
      modifies this
      ensures self == this
      ensures Values() == old(Values()).(autoFixPolygonOrientation := value)
    {
      autoFixPolygonOrientation := value;
      self := this;
    }
  }

  /**
   * The chained setters of the custom-configuration test: each call returns
   * the same object, so the four settings accumulate on it.
   */
  method CustomConfiguration() returns (config: GeoJsonConfig)
    ensures fresh(config)
    ensures config.Values() == Flags(true, false, false, true)
  {
    config := new GeoJsonConfig();
    var c1 := config.SetValidatePolygonOrientation(true);
    var c2 := c1.SetAutoFixPolygonOrientation(true);
    var c3 := c2.SetCutAntimeridian(false);
    var _ := c3.SetWarnOnCrsUse(false);
  }
}
