/** DoubleList: a growable list of doubles over a primitive backing array. */
module DoubleList {
  import opened JavaLang
  import opened JavaNum

  /** The capacity a full list grows to: `(int)(size * multiplier + 10)`. */
  function GrownCapacity(size: nat, multiplier: real): (c: int)
    ensures IntMin <= c <= IntMax
    ensures 1.0 <= multiplier && size < IntMax ==> size < c
  {
    GrowthExceedsSize(size, multiplier);
    DoubleToInt(size as real * multiplier + 10.0)
  }

  lemma GrowthExceedsSize(size: nat, multiplier: real)
    ensures 1.0 <= multiplier && size < IntMax ==> size < DoubleToInt(size as real * multiplier + 10.0)
  {
    if 1.0 <= multiplier && size < IntMax {
      NonNegProduct(size as real, multiplier - 1.0);
      var x := size as real * multiplier + 10.0;
      assert x >= size as real + 10.0;
      var t := Truncate(x);
      assert t as real > x - 1.0;
      assert t > size;
      assert DoubleToInt(x) == Saturate(t, IntMin, IntMax);
    }
  }

  /** The elementwise quotient dividedBy computes: a[i] / c[i] where c[i] is positive,
      z everywhere else (zero and negative counts alike). */
  function Quotients(a: seq<real>, c: seq<real>, z: real): (r: seq<real>)
    requires |a| == |c|
    ensures |r| == |a|
    ensures forall i | 0 <= i < |r| :: r[i] == if c[i] > 0.0 then a[i] / c[i] else z
    decreases |a|
  {
    if |a| == 0 then []
    else
      var n := |a| - 1;
      Quotients(a[..n], c[..n], z) + [if c[n] > 0.0 then a[n] / c[n] else z]
  }

  class DoubleList {
    /** The backing array; only its first `size` entries are list elements. */
    var doubles: array<real>
    var size: int
    /** The float growth factor; a float is modelled as a real. */
    var multiplier: real
    ghost var Repr: set<object>

    /** The list's own invariant. A multiplier below 1 could let a grown array be no larger
        than the list, and a list of Integer.MAX_VALUE elements cannot grow; neither is
        admitted here. */
    ghost predicate Valid()
      reads this, Repr
    {
      Repr == {this, doubles}
      && 0 <= size <= doubles.Length <= IntMax
      && 1.0 <= multiplier
    }

    /** The list's elements in order. */
    ghost function Contents(): (s: seq<real>)
      reads this, Repr
      requires Valid()
      ensures |s| == size
    {
      doubles[..size]
    }

    /** `new DoubleList(capacity, multiplier)`; `new DoubleList(capacity)` passes 1.1 and
        `new DoubleList()` passes 10 and 1.1. */
    constructor (capacity: nat, multiplier: real)
      requires capacity <= IntMax && 1.0 <= multiplier
      ensures Valid() && fresh(Repr)
      ensures Contents() == [] && doubles.Length == capacity
      ensures this.multiplier == multiplier
    {
      doubles := new real[capacity](_ => 0.0);
      size := 0;
      this.multiplier := multiplier;
      Repr := {this, doubles};
    }

    function Size(): (n: int)
      reads this, Repr
      requires Valid()
      ensures n == |Contents()|
    {
      size
    }

    /** `get(index)`: the element, or ArrayIndexOutOfBoundsException outside [0, size). */
    function Get(index: int): (r: Result<real>)
      reads this, Repr
      requires Valid()
      ensures r.Ok? <==> 0 <= index < |Contents()|
      ensures r.Ok? ==> r.value == Contents()[index]
      ensures r.Err? ==> r.error == ArrayIndexOutOfBounds
    {
      if index < 0 || index >= size then Err(ArrayIndexOutOfBounds) else Ok(doubles[index])
    }

    /** `set(index, value)`: overwrites one element, or throws without a change. */
    method Set(index: int, value: real) returns (o: Outcome)
      requires Valid()
      modifies doubles
      ensures Valid()
      ensures o == Pass <==> 0 <= index < |Contents()|
      ensures o.Fail? ==> o.error == ArrayIndexOutOfBounds && Contents() == old(Contents())
      ensures o == Pass ==> Contents() == old(Contents())[index := value]
    {
      if index < 0 || index >= size {
        return Fail(ArrayIndexOutOfBounds);
      }
      doubles[index] := value;
      o := Pass;
    }

    /** `increment(index, addition)`: adds to one element, or throws without a change. */
    method Increment(index: int, addition: real) returns (o: Outcome)
      requires Valid()
      modifies doubles
      ensures Valid()
      ensures o == Pass <==> 0 <= index < |Contents()|
      ensures o.Fail? ==> o.error == ArrayIndexOutOfBounds && Contents() == old(Contents())
      ensures o == Pass ==> Contents() == old(Contents())[index := old(Contents())[index] + addition]
    {
      if index < 0 || index >= size {
        return Fail(ArrayIndexOutOfBounds);
      }
      doubles[index] := doubles[index] + addition;
      o := Pass;
    }

    /** `add(newdouble)`: appends, first growing a full backing array to GrownCapacity. */
    method Add(v: real)
      requires Valid() && size < IntMax
      modifies Repr
      ensures Valid() && fresh(Repr - old(Repr))
      ensures Contents() == old(Contents()) + [v]
      ensures multiplier == old(multiplier)
      ensures old(size) < old(doubles.Length) ==> doubles == old(doubles)
      ensures old(size) == old(doubles.Length) ==>
        doubles.Length == GrownCapacity(old(size), multiplier)
    {
      if size == doubles.Length {
        var newSize := GrownCapacity(size, multiplier);
        Resize(newSize);
      }
      doubles[size] := v;
      size := size + 1;
    }

    /** `resize(newSize)`: a fresh zero-filled array holding the first min(newSize, length)
        entries of the old one. */
    method Resize(newSize: int)
      requires Valid() && size <= newSize <= IntMax
      modifies this
      ensures Valid() && fresh(doubles)
      ensures doubles.Length == newSize && size == old(size) && multiplier == old(multiplier)
      ensures Contents() == old(Contents())
      ensures forall i | size <= i < doubles.Length && old(doubles.Length) <= i :: doubles[i] == 0.0
    {
      var newArray := new real[newSize](_ => 0.0);
      var count := if newSize < doubles.Length then newSize else doubles.Length;
      forall i | 0 <= i < count {
        newArray[i] := doubles[i];
      }
      doubles := newArray;
      Repr := {this, doubles};
    }

    /** `getBackingArray()`: packs the backing array to exactly the list's elements and
        returns it. */
    method GetBackingArray() returns (a: array<real>)
      requires Valid()
      modifies this
      ensures Valid() && fresh(Repr - old(Repr))
      ensures a == doubles && a[..] == old(Contents())
      ensures Contents() == old(Contents()) && multiplier == old(multiplier)
    {
      Resize(size);
      a := doubles;
    }

    /** `add(DoubleList dl)`: appends dl's elements in order. Appending a list to itself
        re-reads the growing size and never ends, so dl must be another list. */
    method AddAll(dl: DoubleList)
      requires Valid() && dl.Valid() && Repr !! dl.Repr
      requires size + dl.size <= IntMax - 1
      modifies Repr
      ensures Valid() && fresh(Repr - old(Repr))
      ensures Contents() == old(Contents()) + dl.Contents()
      ensures multiplier == old(multiplier)
    {
      var i := 0;
      while i < dl.size
        invariant Valid() && fresh(Repr - old(Repr)) && Repr !! dl.Repr
        invariant 0 <= i <= dl.size
        invariant Contents() == old(Contents()) + dl.Contents()[..i]
        invariant multiplier == old(multiplier)
      {
        var x := dl.doubles[i];
        Add(x);
        i := i + 1;
      }
    }

    /** `add(double[] arr)`: appends arr's elements in order. The array is not this list's
        own backing array (which only escapes through getBackingArray). */
    method AddArray(arr: array<real>)
      requires Valid() && arr !in Repr
      requires size + arr.Length <= IntMax - 1
      modifies Repr
      ensures Valid() && fresh(Repr - old(Repr))
      ensures Contents() == old(Contents()) + arr[..]
      ensures multiplier == old(multiplier)
    {
      var i := 0;
      while i < arr.Length
        invariant Valid() && fresh(Repr - old(Repr)) && arr !in Repr
        invariant 0 <= i <= arr.Length
        invariant Contents() == old(Contents()) + arr[..i]
        invariant multiplier == old(multiplier)
      {
        Add(arr[i]);
        i := i + 1;
      }
    }

    /** `clone()`: a new list with the same elements and multiplier in storage of its own. */
    method Clone() returns (copy: DoubleList)
      requires Valid()
      ensures copy.Valid() && fresh(copy.Repr)
      ensures copy.Contents() == Contents() && copy.multiplier == multiplier
    {
      copy := new DoubleList(size, multiplier);
      var i := 0;
      while i < size
        invariant copy.Valid() && fresh(copy.Repr)
        invariant 0 <= i <= size
        invariant copy.Contents() == Contents()[..i] && copy.multiplier == multiplier
      {
        copy.Add(doubles[i]);
        i := i + 1;
      }
    }

    /** `dividedBy(counts, divByZeroValue)`: a new list of the elementwise quotients, or
        IllegalArgumentException when the two lists differ in size. */
    method DividedBy(counts: DoubleList, divByZeroValue: real) returns (r: Result<DoubleList>)
      requires Valid() && counts.Valid()
      ensures r.Err? <==> size != counts.size
      ensures r.Err? ==> r.error == IllegalArgument
      ensures r.Ok? ==>
                r.value.Valid() && fresh(r.value.Repr)
                && r.value.Contents() == Quotients(Contents(), counts.Contents(), divByZeroValue)
    {
      if size != counts.size {
        return Err(IllegalArgument);
      }
      ghost var q := Quotients(Contents(), counts.Contents(), divByZeroValue);
      var res := new DoubleList(counts.size, 1.1);
      var i := 0;
      while i < counts.size
        invariant res.Valid() && fresh(res.Repr)
        invariant 0 <= i <= counts.size
        invariant res.Contents() == q[..i]
      {
        var c := counts.doubles[i];
        if c > 0.0 {
          res.Add(doubles[i] / c);
        } else {
          res.Add(divByZeroValue);
        }
        assert q[..i + 1] == q[..i] + [q[i]];
        i := i + 1;
      }
      assert q[..i] == q;
      r := Ok(res);
    }
  }

  /** `createAndFill(size, value)`: a list of `size` copies of value. */
  method CreateAndFill(size: nat, value: real) returns (dl: DoubleList)
    requires size < IntMax
    ensures dl.Valid() && fresh(dl.Repr)
    ensures dl.Contents() == seq(size, _ => value)
  {
    dl := new DoubleList(size, 1.1);
    var i := 0;
    while i < size
      invariant dl.Valid() && fresh(dl.Repr)
      invariant 0 <= i <= size
      invariant dl.Contents() == seq(i, _ => value)
    {
      dl.Add(value);
      i := i + 1;
    }
  }
}
