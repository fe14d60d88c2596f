/** The rates of the soil temperature component (`SoilTemperatureRate`):
    three properties over private backing fields and a copy constructor. */
module RateRecord {
  import opened RecordSupport

  /** The values of the backing fields of a `SoilTemperatureRate`. */
  datatype RateFields = RateFields(
    rSnowWaterContentRate: real,
    rSoilSurfaceTemperatureRate: real,
    rAgeOfSnowRate: int32)

  /** The values a new record starts with: zeros. */
  const DefaultRateFields: RateFields := RateFields(0.0, 0.0, 0)

  class SoilTemperatureRate {
    var rSnowWaterContentRate: real
    var rSoilSurfaceTemperatureRate: real
    var rAgeOfSnowRate: int32

    /** The backing fields, read together. */
    function Fields(): RateFields
      reads this
    {
      RateFields(rSnowWaterContentRate, rSoilSurfaceTemperatureRate, rAgeOfSnowRate)
    }

    /** The parameterless constructor: every field keeps the default of
        its type. */
    constructor ()
      ensures Fields() == DefaultRateFields
    {
      rSnowWaterContentRate := 0.0;
      rSoilSurfaceTemperatureRate := 0.0;
      rAgeOfSnowRate := 0;
    }

    /** The copy constructor: with `copyAll` every scalar is copied and
        without it the record keeps its defaults. The source is not
        changed. */
    constructor Copy(toCopy: SoilTemperatureRate, copyAll: bool)
      ensures !copyAll ==> Fields() == DefaultRateFields
      ensures copyAll ==> rSnowWaterContentRate == toCopy.rSnowWaterContentRate
      ensures copyAll ==> rSoilSurfaceTemperatureRate == toCopy.rSoilSurfaceTemperatureRate
      ensures copyAll ==> rAgeOfSnowRate == toCopy.rAgeOfSnowRate
      ensures toCopy.Fields() == old(toCopy.Fields())
    {
      if copyAll {
        rSnowWaterContentRate := toCopy.rSnowWaterContentRate;
        rSoilSurfaceTemperatureRate := toCopy.rSoilSurfaceTemperatureRate;
        rAgeOfSnowRate := toCopy.rAgeOfSnowRate;
      } else {
        rSnowWaterContentRate := 0.0;
        rSoilSurfaceTemperatureRate := 0.0;
        rAgeOfSnowRate := 0;
      }
    }

    /** The setter of `rSnowWaterContentRate`: only its backing field changes. */
    method SetRSnowWaterContentRate(value: real)
      modifies this
      ensures Fields() == old(Fields()).(rSnowWaterContentRate := value)
    {
      rSnowWaterContentRate := value;
    }

    /** The setter of `rSoilSurfaceTemperatureRate`: only its backing field changes. */
    method SetRSoilSurfaceTemperatureRate(value: real)
      modifies this
      ensures Fields() == old(Fields()).(rSoilSurfaceTemperatureRate := value)
    {
      rSoilSurfaceTemperatureRate := value;
    }

    /** The setter of `rAgeOfSnowRate`: only its backing field changes. */
    method SetRAgeOfSnowRate(value: int32)
      modifies this
      ensures Fields() == old(Fields()).(rAgeOfSnowRate := value)
    {
      rAgeOfSnowRate := value;
    }
  }
}
