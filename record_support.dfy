/** What the soil temperature records share: the C# `int` range and the
    element-by-element copy of a `double[]` their copy constructors make. */
module RecordSupport {
  /** A C# `int`: a 32-bit two's complement integer. */
  newtype int32 = x: int | -0x8000_0000 <= x < 0x8000_0000

  /** `new double[source.Length]` filled by a `for` loop that copies each
      element: a new array with the same elements. */
  method CopyArray(source: array<real>) returns (copy: array<real>)
    ensures fresh(copy)
    ensures copy[..] == source[..]
  {
    copy := new real[source.Length];
    var i := 0;
    while i < source.Length
      invariant 0 <= i <= source.Length
      invariant forall k :: 0 <= k < i ==> copy[k] == source[k]
    {
      copy[i] := source[i];
      i := i + 1;
    }
  }
}
