/** The exogenous inputs of the soil temperature component
    (`SoilTemperatureExogenous`): fourteen properties over private backing
    fields and a copy constructor. */
module ExogenousRecord {
  import opened RecordSupport

  /** The values of the backing fields of a `SoilTemperatureExogenous`; an
      array-valued field holds a reference, which is null until set. */
  datatype ExogenousFields = ExogenousFields(
    iAirTemperatureMax: real,
    iTempMax: real,
    iAirTemperatureMin: real,
    iTempMin: real,
    iGlobalSolarRadiation: real,
    iRadiation: real,
    iRAIN: real,
    iCropResidues: real,
    iPotentialSoilEvaporation: real,
    iLeafAreaIndex: real,
    SoilTempArray: array?<real>,
    iSoilTempArray: array?<real>,
    iSoilWaterContent: real,
    iSoilSurfaceTemperature: real)

  /** The values a new record starts with: null arrays and zeros. */
  const DefaultExogenousFields: ExogenousFields := ExogenousFields(0.0, 0.0, 0.0, 0.0, 0.0, 0.0, 0.0, 0.0, 0.0, 0.0, null, null, 0.0, 0.0)

  class SoilTemperatureExogenous {
    var iAirTemperatureMax: real
    var iTempMax: real
    var iAirTemperatureMin: real
    var iTempMin: real
    var iGlobalSolarRadiation: real
    var iRadiation: real
    var iRAIN: real
    var iCropResidues: real
    var iPotentialSoilEvaporation: real
    var iLeafAreaIndex: real
    var SoilTempArray: array?<real>
    var iSoilTempArray: array?<real>
    var iSoilWaterContent: real
    var iSoilSurfaceTemperature: real

    /** The backing fields, read together. */
    function Fields(): ExogenousFields
      reads this
    {
      ExogenousFields(iAirTemperatureMax, iTempMax, iAirTemperatureMin, iTempMin, iGlobalSolarRadiation, iRadiation, iRAIN, iCropResidues, iPotentialSoilEvaporation, iLeafAreaIndex, SoilTempArray, iSoilTempArray, iSoilWaterContent, iSoilSurfaceTemperature)
    }

    /** The parameterless constructor: every field keeps the default of
        its type. */
    constructor ()
      ensures Fields() == DefaultExogenousFields
    {
      iAirTemperatureMax := 0.0;
      iTempMax := 0.0;
      iAirTemperatureMin := 0.0;
      iTempMin := 0.0;
      iGlobalSolarRadiation := 0.0;
      iRadiation := 0.0;
      iRAIN := 0.0;
      iCropResidues := 0.0;
      iPotentialSoilEvaporation := 0.0;
      iLeafAreaIndex := 0.0;
      SoilTempArray := null;
      iSoilTempArray := null;
      iSoilWaterContent := 0.0;
      iSoilSurfaceTemperature := 0.0;
    }

    /** The copy constructor: with `copyAll` every scalar is copied and
        every array is copied element by element into a new array of the
        same length; without it the record keeps its defaults. Reading the
        length of a null array throws, so a full copy needs every array
        of the source to be set. The source is not changed. */
    constructor Copy(toCopy: SoilTemperatureExogenous, copyAll: bool)
      requires copyAll ==> toCopy.SoilTempArray != null && toCopy.iSoilTempArray != null
      ensures !copyAll ==> Fields() == DefaultExogenousFields
      ensures copyAll ==> iAirTemperatureMax == toCopy.iAirTemperatureMax
      ensures copyAll ==> iTempMax == toCopy.iTempMax
      ensures copyAll ==> iAirTemperatureMin == toCopy.iAirTemperatureMin
      ensures copyAll ==> iTempMin == toCopy.iTempMin
      ensures copyAll ==> iGlobalSolarRadiation == toCopy.iGlobalSolarRadiation
      ensures copyAll ==> iRadiation == toCopy.iRadiation
      ensures copyAll ==> iRAIN == toCopy.iRAIN
      ensures copyAll ==> iCropResidues == toCopy.iCropResidues
      ensures copyAll ==> iPotentialSoilEvaporation == toCopy.iPotentialSoilEvaporation
      ensures copyAll ==> iLeafAreaIndex == toCopy.iLeafAreaIndex
      ensures copyAll ==> iSoilWaterContent == toCopy.iSoilWaterContent
      ensures copyAll ==> iSoilSurfaceTemperature == toCopy.iSoilSurfaceTemperature
      ensures copyAll ==> (SoilTempArray != null && fresh(SoilTempArray) && SoilTempArray != toCopy.SoilTempArray
                           && SoilTempArray[..] == toCopy.SoilTempArray[..])
      ensures copyAll ==> (iSoilTempArray != null && fresh(iSoilTempArray) && iSoilTempArray != toCopy.iSoilTempArray
                           && iSoilTempArray[..] == toCopy.iSoilTempArray[..])
      ensures toCopy.Fields() == old(toCopy.Fields())
      ensures toCopy.SoilTempArray != null ==> toCopy.SoilTempArray[..] == old(toCopy.SoilTempArray[..])
      ensures toCopy.iSoilTempArray != null ==> toCopy.iSoilTempArray[..] == old(toCopy.iSoilTempArray[..])
    {
      if copyAll {
        iAirTemperatureMax := toCopy.iAirTemperatureMax;
        iTempMax := toCopy.iTempMax;
        iAirTemperatureMin := toCopy.iAirTemperatureMin;
        iTempMin := toCopy.iTempMin;
        iGlobalSolarRadiation := toCopy.iGlobalSolarRadiation;
        iRadiation := toCopy.iRadiation;
        iRAIN := toCopy.iRAIN;
        iCropResidues := toCopy.iCropResidues;
        iPotentialSoilEvaporation := toCopy.iPotentialSoilEvaporation;
        iLeafAreaIndex := toCopy.iLeafAreaIndex;
        var SoilTempArrayCopy := CopyArray(toCopy.SoilTempArray);
        SoilTempArray := SoilTempArrayCopy;
        var iSoilTempArrayCopy := CopyArray(toCopy.iSoilTempArray);
        iSoilTempArray := iSoilTempArrayCopy;
        iSoilWaterContent := toCopy.iSoilWaterContent;
        iSoilSurfaceTemperature := toCopy.iSoilSurfaceTemperature;
      } else {
        iAirTemperatureMax := 0.0;
        iTempMax := 0.0;
        iAirTemperatureMin := 0.0;
        iTempMin := 0.0;
        iGlobalSolarRadiation := 0.0;
        iRadiation := 0.0;
        iRAIN := 0.0;
        iCropResidues := 0.0;
        iPotentialSoilEvaporation := 0.0;
        iLeafAreaIndex := 0.0;
        SoilTempArray := null;
        iSoilTempArray := null;
        iSoilWaterContent := 0.0;
        iSoilSurfaceTemperature := 0.0;
      }
    }

    /** The setter of `iAirTemperatureMax`: only its backing field changes. */
    method SetIAirTemperatureMax(value: real)
      modifies this
      ensures Fields() == old(Fields()).(iAirTemperatureMax := value)
    {
      iAirTemperatureMax := value;
    }

    /** The setter of `iTempMax`: only its backing field changes. */
    method SetITempMax(value: real)
      modifies this
      ensures Fields() == old(Fields()).(iTempMax := value)
    {
      iTempMax := value;
    }

    /** The setter of `iAirTemperatureMin`: only its backing field changes. */
    method SetIAirTemperatureMin(value: real)
      modifies this
      ensures Fields() == old(Fields()).(iAirTemperatureMin := value)
    {
      iAirTemperatureMin := value;
    }

    /** The setter of `iTempMin`: only its backing field changes. */
    method SetITempMin(value: real)
      modifies this
      ensures Fields() == old(Fields()).(iTempMin := value)
    {
      iTempMin := value;
    }

    /** The setter of `iGlobalSolarRadiation`: only its backing field changes. */
    method SetIGlobalSolarRadiation(value: real)
      modifies this
      ensures Fields() == old(Fields()).(iGlobalSolarRadiation := value)
    {
      iGlobalSolarRadiation := value;
    }

    /** The setter of `iRadiation`: only its backing field changes. */
    method SetIRadiation(value: real)
      modifies this
      ensures Fields() == old(Fields()).(iRadiation := value)
    {
      iRadiation := value;
    }

    /** The setter of `iRAIN`: only its backing field changes. */
    method SetIRAIN(value: real)
      modifies this
      ensures Fields() == old(Fields()).(iRAIN := value)
    {
      iRAIN := value;
    }

    /** The setter of `iCropResidues`: only its backing field changes. */
    method SetICropResidues(value: real)
      modifies this
      ensures Fields() == old(Fields()).(iCropResidues := value)
    {
      iCropResidues := value;
    }

    /** The setter of `iPotentialSoilEvaporation`: only its backing field changes. */
    method SetIPotentialSoilEvaporation(value: real)
      modifies this
      ensures Fields() == old(Fields()).(iPotentialSoilEvaporation := value)
    {
      iPotentialSoilEvaporation := value;
    }

    /** The setter of `iLeafAreaIndex`: only its backing field changes. */
    method SetILeafAreaIndex(value: real)
      modifies this
      ensures Fields() == old(Fields()).(iLeafAreaIndex := value)
    {
      iLeafAreaIndex := value;
    }

    /** The setter of `SoilTempArray`: only its backing field changes. */
    method SetSoilTempArray(value: array?<real>)
      modifies this
      ensures Fields() == old(Fields()).(SoilTempArray := value)
    {
      SoilTempArray := value;
    }

    /** The setter of `iSoilTempArray`: only its backing field changes. */
    method SetISoilTempArray(value: array?<real>)
      modifies this
      ensures Fields() == old(Fields()).(iSoilTempArray := value)
    {
      iSoilTempArray := value;
    }

    /** The setter of `iSoilWaterContent`: only its backing field changes. */
    method SetISoilWaterContent(value: real)
      modifies this
      ensures Fields() == old(Fields()).(iSoilWaterContent := value)
    {
      iSoilWaterContent := value;
    }

    /** The setter of `iSoilSurfaceTemperature`: only its backing field changes. */
    method SetISoilSurfaceTemperature(value: real)
      modifies this
      ensures Fields() == old(Fields()).(iSoilSurfaceTemperature := value)
    {
      iSoilSurfaceTemperature := value;
    }
  }

  /** A full copy shares no array with its source: writing an element of
      the copy's `iSoilTempArray` leaves the source's `iSoilTempArray` as it was. */
  method CopyIsIndependent(source: SoilTemperatureExogenous, i: nat, value: real) returns (copy: SoilTemperatureExogenous)
    requires source.SoilTempArray != null && source.iSoilTempArray != null
    requires i < source.iSoilTempArray.Length
    ensures copy.iSoilTempArray != null && i < copy.iSoilTempArray.Length && copy.iSoilTempArray[i] == value
    ensures source.iSoilTempArray[..] == old(source.iSoilTempArray[..])
    ensures source.Fields() == old(source.Fields())
  {
    copy := new SoilTemperatureExogenous.Copy(source, true);
    copy.iSoilTempArray[i] := value;
  }
}
