/** The state variables of the soil temperature component
    (`SoilTemperatureState`): seven properties over private backing fields
    and a copy constructor. */
module StateRecord {
  import opened RecordSupport

  /** The values of the backing fields of a `SoilTemperatureState`; an
      array-valued field holds a reference, which is null until set. */
  datatype StateFields = StateFields(
    rSoilTempArrayRate: array?<real>,
    pSoilLayerDepth: array?<real>,
    pInternalAlbedo: real,
    SnowWaterContent: real,
    SoilSurfaceTemperature: real,
    AgeOfSnow: int32,
    SoilTempArray: array?<real>)

  /** The values a new record starts with: null arrays and zeros. */
  const DefaultStateFields: StateFields := StateFields(null, null, 0.0, 0.0, 0.0, 0, null)

  class SoilTemperatureState {
    var rSoilTempArrayRate: array?<real>
    var pSoilLayerDepth: array?<real>
    var pInternalAlbedo: real
    var SnowWaterContent: real
    var SoilSurfaceTemperature: real
    var AgeOfSnow: int32
    var SoilTempArray: array?<real>

    /** The backing fields, read together. */
    function Fields(): StateFields
      reads this
    {
      StateFields(rSoilTempArrayRate, pSoilLayerDepth, pInternalAlbedo, SnowWaterContent, SoilSurfaceTemperature, AgeOfSnow, SoilTempArray)
    }

    /** The parameterless constructor: every field keeps the default of
        its type. */
    constructor ()
      ensures Fields() == DefaultStateFields
    {
      rSoilTempArrayRate := null;
      pSoilLayerDepth := null;
      pInternalAlbedo := 0.0;
      SnowWaterContent := 0.0;
      SoilSurfaceTemperature := 0.0;
      AgeOfSnow := 0;
      SoilTempArray := null;
    }

    /** The copy constructor: with `copyAll` every scalar is copied and
        every array is copied element by element into a new array of the
        same length; without it the record keeps its defaults. Reading the
        length of a null array throws, so a full copy needs every array
        of the source to be set. The source is not changed. */
    constructor Copy(toCopy: SoilTemperatureState, copyAll: bool)
      requires copyAll ==> toCopy.rSoilTempArrayRate != null && toCopy.pSoilLayerDepth != null && toCopy.SoilTempArray != null
      ensures !copyAll ==> Fields() == DefaultStateFields
      ensures copyAll ==> pInternalAlbedo == toCopy.pInternalAlbedo
      ensures copyAll ==> SnowWaterContent == toCopy.SnowWaterContent
      ensures copyAll ==> SoilSurfaceTemperature == toCopy.SoilSurfaceTemperature
      ensures copyAll ==> AgeOfSnow == toCopy.AgeOfSnow
      ensures copyAll ==> (rSoilTempArrayRate != null && fresh(rSoilTempArrayRate) && rSoilTempArrayRate != toCopy.rSoilTempArrayRate
                           && rSoilTempArrayRate[..] == toCopy.rSoilTempArrayRate[..])
      ensures copyAll ==> (pSoilLayerDepth != null && fresh(pSoilLayerDepth) && pSoilLayerDepth != toCopy.pSoilLayerDepth
                           && pSoilLayerDepth[..] == toCopy.pSoilLayerDepth[..])
      ensures copyAll ==> (SoilTempArray != null && fresh(SoilTempArray) && SoilTempArray != toCopy.SoilTempArray
                           && SoilTempArray[..] == toCopy.SoilTempArray[..])
      ensures toCopy.Fields() == old(toCopy.Fields())
      ensures toCopy.rSoilTempArrayRate != null ==> toCopy.rSoilTempArrayRate[..] == old(toCopy.rSoilTempArrayRate[..])
      ensures toCopy.pSoilLayerDepth != null ==> toCopy.pSoilLayerDepth[..] == old(toCopy.pSoilLayerDepth[..])
      ensures toCopy.SoilTempArray != null ==> toCopy.SoilTempArray[..] == old(toCopy.SoilTempArray[..])
    {
      if copyAll {
        var rSoilTempArrayRateCopy := CopyArray(toCopy.rSoilTempArrayRate);
        rSoilTempArrayRate := rSoilTempArrayRateCopy;
        var pSoilLayerDepthCopy := CopyArray(toCopy.pSoilLayerDepth);
        pSoilLayerDepth := pSoilLayerDepthCopy;
        pInternalAlbedo := toCopy.pInternalAlbedo;
        SnowWaterContent := toCopy.SnowWaterContent;
        SoilSurfaceTemperature := toCopy.SoilSurfaceTemperature;
        AgeOfSnow := toCopy.AgeOfSnow;
        var SoilTempArrayCopy := CopyArray(toCopy.SoilTempArray);
        SoilTempArray := SoilTempArrayCopy;
      } else {
        rSoilTempArrayRate := null;
        pSoilLayerDepth := null;
        pInternalAlbedo := 0.0;
        SnowWaterContent := 0.0;
        SoilSurfaceTemperature := 0.0;
        AgeOfSnow := 0;
        SoilTempArray := null;
      }
    }

    /** The setter of `rSoilTempArrayRate`: only its backing field changes. */
    method SetRSoilTempArrayRate(value: array?<real>)
      modifies this
      ensures Fields() == old(Fields()).(rSoilTempArrayRate := value)
    {
      rSoilTempArrayRate := value;
    }

    /** The setter of `pSoilLayerDepth`: only its backing field changes. */
    method SetPSoilLayerDepth(value: array?<real>)
      modifies this
      ensures Fields() == old(Fields()).(pSoilLayerDepth := value)
    {
      pSoilLayerDepth := value;
    }

    /** The setter of `pInternalAlbedo`: only its backing field changes. */
    method SetPInternalAlbedo(value: real)
      modifies this
      ensures Fields() == old(Fields()).(pInternalAlbedo := value)
    {
      pInternalAlbedo := value;
    }

    /** The setter of `SnowWaterContent`: only its backing field changes. */
    method SetSnowWaterContent(value: real)
      modifies this
      ensures Fields() == old(Fields()).(SnowWaterContent := value)
    {
      SnowWaterContent := value;
    }

    /** The setter of `SoilSurfaceTemperature`: only its backing field changes. */
    method SetSoilSurfaceTemperature(value: real)
      modifies this
      ensures Fields() == old(Fields()).(SoilSurfaceTemperature := value)
    {
      SoilSurfaceTemperature := value;
    }

    /** The setter of `AgeOfSnow`: only its backing field changes. */
    method SetAgeOfSnow(value: int32)
      modifies this
      ensures Fields() == old(Fields()).(AgeOfSnow := value)
    {
      AgeOfSnow := value;
    }

    /** The setter of `SoilTempArray`: only its backing field changes. */
    method SetSoilTempArray(value: array?<real>)
      modifies this
      ensures Fields() == old(Fields()).(SoilTempArray := value)
    {
      SoilTempArray := value;
    }
  }

  /** A full copy shares no array with its source: writing an element of
      the copy's `SoilTempArray` leaves the source's `SoilTempArray` as it was. */
  method CopyIsIndependent(source: SoilTemperatureState, i: nat, value: real) returns (copy: SoilTemperatureState)
    requires source.rSoilTempArrayRate != null && source.pSoilLayerDepth != null && source.SoilTempArray != null
    requires i < source.SoilTempArray.Length
    ensures copy.SoilTempArray != null && i < copy.SoilTempArray.Length && copy.SoilTempArray[i] == value
    ensures source.SoilTempArray[..] == old(source.SoilTempArray[..])
    ensures source.Fields() == old(source.Fields())
  {
    copy := new SoilTemperatureState.Copy(source, true);
    copy.SoilTempArray[i] := value;
  }
}
