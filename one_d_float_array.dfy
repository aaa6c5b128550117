/** STELLA's rank-1 dense array of floats: a buffer allocated once from its
    dimension, with whole-array fill, indexed read and write, and the flat
    address of an index. */
module OneDFloatArrays {

  /** Java's `int`. */
  newtype int32 = x: int | -0x8000_0000 <= x < 0x8000_0000

  /** A STELLA type surrogate; the registry behind it is not modelled. */
  datatype Surrogate = Surrogate(name: string)

  /** The type tag of every rank-1 float array. */
  const SGT_STELLA_1D_FLOAT_ARRAY: Surrogate := Surrogate("1D-FLOAT-ARRAY")

  class OneDFloatArray {
    var dim1: int32
    var theArray: array?<real>

    /** The buffer exists and holds exactly `dim1` elements. */
    ghost predicate Valid()
      reads this
    {
      theArray != null && theArray.Length == dim1 as int
    }

    /** The elements, in order. */
    ghost function Contents(): seq<real>
      reads this, theArray
      requires Valid()
    {
      theArray[..]
    }

    /** `new1DFloatArray`: record the dimension and allocate a zeroed buffer. */
    constructor New1DFloatArray(d: int32)
      requires 0 <= d
      ensures Valid() && dim1 == d && fresh(theArray)
      ensures Contents() == seq(d as int, _ => 0.0)
    {
      dim1 := d;
      theArray := null;
      new;
      InitializeDimensionalArray();
    }

    /** Allocate a fresh buffer of `Length()` elements, all 0 (Java's default). */
    method InitializeDimensionalArray()
      requires 0 <= dim1
      modifies this`theArray
      ensures Valid() && fresh(theArray)
      ensures Contents() == seq(dim1 as int, _ => 0.0)
    {
      theArray := new real[Length()](_ => 0.0);
    }

    /** The buffer itself, not a copy. */
    function TheArrayReader(): (r: array?<real>)
      reads this
      ensures r == theArray
      ensures Valid() ==> r != null && r.Length == Length() as int
    {
      theArray
    }

    /** The total number of elements: the dimension, which in a valid array is
        the buffer's length. */
    function Length(): (n: int32)
      reads this
      ensures n == dim1
      ensures Valid() ==> n as int == theArray.Length
    {
      dim1
    }

    /** Overwrite every element with `initialValue`. */
    method InitializeArray(initialValue: real)
      requires Valid()
      modifies theArray
      ensures Valid() && theArray == old(theArray)
      ensures Contents() == seq(dim1 as int, _ => initialValue)
    {
      var buffer := theArray;
      var iter000: int32 := 0;
      var upperBound000 := Length() - 1;
      while iter000 <= upperBound000
        invariant 0 <= iter000 <= dim1
        invariant forall k :: 0 <= k < iter000 as int ==> buffer[k] == initialValue
      {
        var i := iter000;
        buffer[i] := initialValue;
        iter000 := iter000 + 1;
      }
    }

    /** The element at position `i`. */
    function OneDAref(i: int32): (r: real)
      reads this, theArray
      requires Valid() && 0 <= i < dim1
      ensures r == Contents()[i]
    {
      theArray[i]
    }

    /** Set the element at position `i` to `value` and return `value`. */
    method OneDArefSetter(value: real, i: int32) returns (r: real)
      requires Valid() && 0 <= i < dim1
      modifies theArray
      ensures Valid() && theArray == old(theArray)
      ensures r == value
      ensures Contents() == old(Contents())[i := value]
      ensures OneDAref(i) == value
      ensures forall j :: 0 <= j < dim1 && j != i ==> OneDAref(j) == old(OneDAref(j))
    {
      theArray[i] := value;
      r := value;
    }

    /** The flat address of position `i`: for rank 1 it is `i` itself, for any
        `i`, so an in-bounds position's address lies inside the buffer and reads
        the same element. */
    function OneDArefAddress(i: int32): (a: int32)
      reads this, theArray
      ensures a == i
      ensures Valid() && 0 <= i < dim1 ==> 0 <= a < dim1 && OneDAref(a) == OneDAref(i)
    {
      i
    }

    /** The type tag, the same for every instance. */
    function PrimaryType(): (t: Surrogate)
      ensures t == SGT_STELLA_1D_FLOAT_ARRAY
    {
      SGT_STELLA_1D_FLOAT_ARRAY
    }
  }

  /** Allocate five elements, fill them with 3.0 and read the last one back;
      position 5 is out of bounds. */
  method CreateFillRead() returns (x: real, inBounds: bool)
    ensures x == 3.0
    ensures !inBounds
  {
    var a := new OneDFloatArray.New1DFloatArray(5);
    a.InitializeArray(3.0);
    x := a.OneDAref(4);
    inBounds := 5 < a.Length();
  }
}
