/** ArrayUtil: conversions between int arrays, lists and double arrays, and the sum, average,
    minimum and maximum of a double array. */
module ArrayUtil {
  import opened JavaLang
  import opened JavaNum
  import opened Stats
  import DoubleList
  import StoredObservationSummary

  /** `toDoubleList(int[])`: a new list holding each int widened to a double, in order. */
  method ToDoubleList(intarr: array<int>) returns (doubles: seq<real>)
    ensures |doubles| == intarr.Length
    ensures forall i | 0 <= i < intarr.Length :: doubles[i] == intarr[i] as real
  {
    doubles := [];
    var i := 0;
    while i < intarr.Length
      invariant 0 <= i <= intarr.Length
      invariant |doubles| == i
      invariant forall k | 0 <= k < i :: doubles[k] == intarr[k] as real
    {
      doubles := doubles + [intarr[i] as real];
      i := i + 1;
    }
  }

  /** `toDoubleArray(List<? extends Number>)`: a new array of the list's values, in order. */
  method ListToDoubleArray(list: seq<real>) returns (arr: array<real>)
    ensures fresh(arr) && arr[..] == list
  {
    arr := new real[|list|](_ => 0.0);
    var i := 0;
    while i < |list|
      modifies arr
      invariant 0 <= i <= |list|
      invariant arr[..i] == list[..i]
    {
      arr[i] := list[i];
      assert arr[..i + 1] == arr[..i] + [arr[i]];
      assert list[..i + 1] == list[..i] + [list[i]];
      i := i + 1;
    }
    assert arr[..] == arr[..i];
  }

  /** `toDoubleArray(DoubleList)`: a new array of the list's elements, in order. */
  method ToDoubleArray(list: DoubleList.DoubleList) returns (arr: array<real>)
    requires list.Valid()
    ensures fresh(arr) && arr[..] == list.Contents()
  {
    arr := new real[list.Size()](_ => 0.0);
    var i := 0;
    while i < list.Size()
      modifies arr
      invariant 0 <= i <= list.size
      invariant forall k | 0 <= k < i :: arr[k] == list.Contents()[k]
    {
      var g := list.Get(i);
      arr[i] := g.value;
      i := i + 1;
    }
  }

  /** `sum(arr)`: the running total from 0. */
  method Sum(arr: array<real>) returns (sum: real)
    ensures sum == Stats.Sum(arr[..])
  {
    sum := 0.0;
    var i := 0;
    while i < arr.Length
      invariant 0 <= i <= arr.Length
      invariant sum == Stats.Sum(arr[..i])
    {
      assert arr[..i + 1][..i] == arr[..i];
      sum := sum + arr[i];
      i := i + 1;
    }
    assert arr[..i] == arr[..];
  }

  /** `average(arr)`: sum / length; an empty array divides 0 by 0, a NaN, given here as None. */
  method Average(arr: array<real>) returns (r: Option<real>)
    ensures r.None? <==> arr.Length == 0
    ensures r.Some? ==> r.value == Stats.Sum(arr[..]) / arr.Length as real
    ensures r.Some? ==> MinOf(arr[..]) <= r.value <= MaxOf(arr[..])
  {
    var sum := Sum(arr);
    if arr.Length == 0 {
      return None;
    }
    MeanBetween(arr[..]);
    r := Some(sum / arr.Length as real);
  }

  /** `min(arr)`: Double.MAX_VALUE lowered by each strictly smaller element. */
  method Min(arr: array<real>) returns (min: real)
    ensures min == MinOf(arr[..])
    ensures arr.Length == 0 ==> min == DoubleMax
    ensures forall k | 0 <= k < arr.Length :: min <= arr[k]
    ensures arr.Length > 0 && AllFinite(arr[..]) ==> min in arr[..]
  {
    min := DoubleMax;
    var i := 0;
    while i < arr.Length
      invariant 0 <= i <= arr.Length
      invariant min == MinOf(arr[..i])
    {
      assert arr[..i + 1][..i] == arr[..i];
      if arr[i] < min {
        min := arr[i];
      }
      i := i + 1;
    }
    assert arr[..i] == arr[..];
    MinOfMember(arr[..]);
  }

  /** `max(arr)`: -Double.MAX_VALUE raised by each strictly larger element. */
  method Max(arr: array<real>) returns (max: real)
    ensures max == MaxOf(arr[..])
    ensures arr.Length == 0 ==> max == -DoubleMax
    ensures forall k | 0 <= k < arr.Length :: arr[k] <= max
    ensures arr.Length > 0 && AllFinite(arr[..]) ==> max in arr[..]
  {
    max := -DoubleMax;
    var i := 0;
    while i < arr.Length
      invariant 0 <= i <= arr.Length
      invariant max == MaxOf(arr[..i])
    {
      assert arr[..i + 1][..i] == arr[..i];
      if arr[i] > max {
        max := arr[i];
      }
      i := i + 1;
    }
    assert arr[..i] == arr[..];
    MaxOfMember(arr[..]);
  }

  /** `storedSummary(arr)`: a new StoredObservationSummary to which arr is added. */
  method StoredSummary(arr: array<real>) returns (summ: StoredObservationSummary.StoredObservationSummary)
    requires arr.Length < IntMax
    ensures summ.Valid() && fresh(summ.Repr)
    ensures summ.Contents() == arr[..]
  {
    summ := new StoredObservationSummary.StoredObservationSummary();
    summ.AddAll(arr);
  }
}
