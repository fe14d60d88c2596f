/** The auxiliary variable of the soil temperature component
    (`SoilTemperatureAuxiliary`): one property over a private backing field
    and a copy constructor. */
module AuxiliaryRecord {
  import opened RecordSupport

  /** The values of the backing fields of a `SoilTemperatureAuxiliary`. */
  datatype AuxiliaryFields = AuxiliaryFields(
    SnowIsolationIndex: real)

  /** The values a new record starts with: zeros. */
  const DefaultAuxiliaryFields: AuxiliaryFields := AuxiliaryFields(0.0)

  class SoilTemperatureAuxiliary {
    var SnowIsolationIndex: real

    /** The backing fields, read together. */
    function Fields(): AuxiliaryFields
      reads this
    {
      AuxiliaryFields(SnowIsolationIndex)
    }

    /** The parameterless constructor: every field keeps the default of
        its type. */
    constructor ()
      ensures Fields() == DefaultAuxiliaryFields
    {
      SnowIsolationIndex := 0.0;
    }

    /** The copy constructor: with `copyAll` every scalar is copied and
        without it the record keeps its defaults. The source is not
        changed. */
    constructor Copy(toCopy: SoilTemperatureAuxiliary, copyAll: bool)
      ensures !copyAll ==> Fields() == DefaultAuxiliaryFields
      ensures copyAll ==> SnowIsolationIndex == toCopy.SnowIsolationIndex
      ensures toCopy.Fields() == old(toCopy.Fields())
    {
      if copyAll {
        SnowIsolationIndex := toCopy.SnowIsolationIndex;
      } else {
        SnowIsolationIndex := 0.0;
      }
    }

    /** The setter of `SnowIsolationIndex`: only its backing field changes. */
    method SetSnowIsolationIndex(value: real)
      modifies this
      ensures Fields() == old(Fields()).(SnowIsolationIndex := value)
    {
      SnowIsolationIndex := value;
    }
  }
}
