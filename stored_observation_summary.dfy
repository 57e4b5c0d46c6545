/** StoredObservationSummary: an ObservationSummary that also keeps every observation, in a
    DoubleList, and a sorted copy of them built on demand, from which it reads the median, the
    proportion of observations below a value and the value at a proportion. */
module StoredObservationSummary {
  import opened JavaLang
  import opened JavaNum
  import opened Sorting
  import MathUtil
  import DoubleList
  import ObservationSummary

  /** The median of an ascending sequence: 0.0 when empty, the middle element for an odd
      count, the mean of the two middle elements for an even count. */
  function Median(s: seq<real>): (r: real)
    ensures |s| == 0 ==> r == 0.0
    ensures |s| % 2 == 1 ==> r == s[|s| / 2]
  {
    var size := |s|;
    if size == 0 then 0.0
    else if size % 2 == 0 then 0.5 * (s[size / 2] + s[size / 2 - 1])
    else s[size / 2]
  }

  /** The median splits an ascending sequence in two: the first half (with the middle element
      of an odd count) lies at or below it, the second half at or above it. */
  lemma MedianSplits(s: seq<real>)
    requires Ascending(s)
    ensures forall i | 0 <= i < (|s| + 1) / 2 :: s[i] <= Median(s)
    ensures forall i | |s| / 2 <= i < |s| :: Median(s) <= s[i]
  {
    var n := |s|;
    if n > 0 && n % 2 == 0 {
      assert s[n / 2 - 1] <= s[n / 2];
    }
  }

  /** The largest index whose element is below v, or -1 when there is none. */
  function LastIndexBelow(s: seq<real>, v: real): (r: int)
    ensures -1 <= r < |s|
    ensures r >= 0 ==> s[r] < v
    ensures forall k | r < k < |s| :: v <= s[k]
  {
    if |s| == 0 then -1
    else if s[|s| - 1] < v then |s| - 1
    else LastIndexBelow(s[..|s| - 1], v)
  }

  /** The number of elements below v. */
  function CountBelow(s: seq<real>, v: real): (c: nat)
    ensures c <= |s|
  {
    if |s| == 0 then 0
    else CountBelow(s[..|s| - 1], v) + (if s[|s| - 1] < v then 1 else 0)
  }

  /** What getProportionAtValue computes from the sorted observations s: 0.0 when empty; with
      one observation 1.0 iff v exceeds it; otherwise 1.0 when no element exceeds v, 0.0 when
      none is below v, and else (lastIndexBelow + 1) / size. */
  function ProportionAtValue(s: seq<real>, v: real): (r: real)
  {
    if |s| == 0 then 0.0
    else if |s| == 1 then (if v > s[0] then 1.0 else 0.0)
    else if forall k | 0 <= k < |s| :: !(s[k] > v) then 1.0
    else if LastIndexBelow(s, v) <= -1 then 0.0
    else (LastIndexBelow(s, v) as real + 1.0) / |s| as real
  }

  /** In an ascending sequence the elements below v are exactly those up to the last one. */
  lemma {:induction false} CountBelowAscending(s: seq<real>, v: real)
    requires Ascending(s)
    ensures CountBelow(s, v) == LastIndexBelow(s, v) + 1
    decreases |s|
  {
    if |s| > 0 {
      var init := s[..|s| - 1];
      assert Ascending(init);
      CountBelowAscending(init, v);
      if s[|s| - 1] < v {
        assert LastIndexBelow(init, v) == |init| - 1 by {
          if |init| > 0 {
            assert s[|init| - 1] <= s[|s| - 1];
          }
        }
      }
    }
  }

  lemma {:induction false} CountBelowMonotone(s: seq<real>, v1: real, v2: real)
    requires v1 <= v2
    ensures CountBelow(s, v1) <= CountBelow(s, v2)
    decreases |s|
  {
    if |s| > 0 {
      CountBelowMonotone(s[..|s| - 1], v1, v2);
    }
  }

  lemma QuotientUnit(a: nat, n: nat)
    requires a <= n && 0 < n
    ensures 0.0 <= a as real / n as real <= 1.0
  {
    MathUtil.QuotientNonNeg(a as real, n as real);
    QuotientMonotone(a, n, n);
    MathUtil.SelfQuotient(n as real);
  }

  lemma QuotientMonotone(a: nat, b: nat, n: nat)
    requires a <= b && 0 < n
    ensures a as real / n as real <= b as real / n as real
  {
    MathUtil.QuotientNonNeg((b - a) as real, n as real);
  }

  /** The result is a proportion. */
  lemma ProportionInUnit(s: seq<real>, v: real)
    ensures 0.0 <= ProportionAtValue(s, v) <= 1.0
  {
    if |s| > 1 && LastIndexBelow(s, v) > -1 {
      QuotientUnit(LastIndexBelow(s, v) + 1, |s|);
    }
  }

  /** When some observation lies below v and some above, the result is the fraction of
      observations below v. */
  lemma ProportionIsFractionBelow(s: seq<real>, v: real)
    requires Ascending(s) && |s| >= 2
    requires exists k | 0 <= k < |s| :: s[k] < v
    requires exists k | 0 <= k < |s| :: s[k] > v
    ensures ProportionAtValue(s, v) == CountBelow(s, v) as real / |s| as real
  {
    CountBelowAscending(s, v);
  }

  /** A larger value never gets a smaller proportion. */
  lemma ProportionMonotone(s: seq<real>, v1: real, v2: real)
    requires Ascending(s) && v1 <= v2
    ensures ProportionAtValue(s, v1) <= ProportionAtValue(s, v2)
  {
    ProportionInUnit(s, v1);
    ProportionInUnit(s, v2);
    var n := |s|;
    if n >= 2 {
      var none1 := forall k | 0 <= k < n :: !(s[k] > v1);
      var none2 := forall k | 0 <= k < n :: !(s[k] > v2);
      var l1 := LastIndexBelow(s, v1);
      var l2 := LastIndexBelow(s, v2);
      if !none1 && !none2 && l1 > -1 && l2 > -1 {
        CountBelowAscending(s, v1);
        CountBelowAscending(s, v2);
        CountBelowMonotone(s, v1, v2);
        QuotientMonotone(l1 + 1, l2 + 1, n);
      }
    }
  }

  /** The proportion of observations below v, as the method's documentation describes it. */
  function ProportionBelow(s: seq<real>, v: real): (r: real)
  {
    if |s| == 0 then 0.0 else CountBelow(s, v) as real / |s| as real
  }

  /** The corrected proportion lies in [0, 1] and grows with v. */
  lemma ProportionBelowMonotone(s: seq<real>, v1: real, v2: real)
    requires v1 <= v2
    ensures 0.0 <= ProportionBelow(s, v1) <= ProportionBelow(s, v2) <= 1.0
  {
    if |s| > 0 {
      CountBelowMonotone(s, v1, v2);
      QuotientUnit(CountBelow(s, v1), |s|);
      QuotientUnit(CountBelow(s, v2), |s|);
      QuotientMonotone(CountBelow(s, v1), CountBelow(s, v2), |s|);
    }
  }

  /** On two or more sorted observations getProportionAtValue gives the proportion below v
      exactly when v is not the largest observation; at the largest it answers 1.0 although
      that observation is not below it. */
  lemma ProportionAtMaximum(s: seq<real>, v: real)
    requires Ascending(s) && |s| >= 2
    ensures ProportionAtValue(s, v) == ProportionBelow(s, v) <==> s[|s| - 1] != v
  {
    CountBelowAscending(s, v);
    if s[|s| - 1] == v {
      TieAtMaximum(s, v);
    } else if s[|s| - 1] < v {
      var n := |s| as real;
      assert LastIndexBelow(s, v) == |s| - 1;
      assert forall k | 0 <= k < |s| :: !(s[k] > v) by {
        forall k | 0 <= k < |s| ensures !(s[k] > v) {
          if k < |s| - 1 {
            assert s[k] <= s[|s| - 1];
          }
        }
      }
      assert ProportionAtValue(s, v) == 1.0;
      assert ProportionBelow(s, v) == n / n == 1.0;
    } else {
      assert !(forall k | 0 <= k < |s| :: !(s[k] > v));
      if LastIndexBelow(s, v) == -1 {
        assert ProportionAtValue(s, v) == 0.0;
        assert ProportionBelow(s, v) == 0.0 / (|s| as real) == 0.0;
      } else {
        assert ProportionAtValue(s, v) == (LastIndexBelow(s, v) as real + 1.0) / |s| as real;
        assert CountBelow(s, v) as real == LastIndexBelow(s, v) as real + 1.0;
      }
    }
  }

  lemma TieAtMaximum(s: seq<real>, v: real)
    requires Ascending(s) && |s| >= 2 && s[|s| - 1] == v
    requires CountBelow(s, v) == LastIndexBelow(s, v) + 1
    ensures ProportionAtValue(s, v) == 1.0 && ProportionBelow(s, v) < 1.0
  {
    assert forall k | 0 <= k < |s| :: !(s[k] > v) by {
      forall k | 0 <= k < |s| ensures !(s[k] > v) {
        if k < |s| - 1 {
          assert s[k] <= s[|s| - 1];
        }
      }
    }
    QuotientBelowOne(CountBelow(s, v), |s|);
  }

  lemma QuotientBelowOne(a: nat, n: nat)
    requires a < n
    ensures a as real / n as real < 1.0
  {
    var q := a as real / n as real;
    assert q * n as real == a as real;
    if q >= 1.0 {
      NonNegProduct(q - 1.0, n as real);
    }
  }

  /** The example: two equal observations and the value equal to both. */
  lemma ProportionTieExample()
    ensures ProportionAtValue([5.0, 5.0], 5.0) == 1.0
    ensures ProportionBelow([5.0, 5.0], 5.0) == 0.0
  {
    assert [5.0, 5.0][..1] == [5.0];
  }

  /** What getValueAtProportion computes from sorted observations s once it has sorted them:
      lowIndex = (int)(fraction * (size - 1)), highIndex = lowIndex + 1, both clamped into
      [0, size - 1], then linear interpolation by the residue fraction * (size - 1) - lowIndex. */
  function ValueAtProportion(s: seq<real>, fraction: real): (r: real)
    requires |s| > 0
  {
    var size := |s|;
    var lowIndex0 := DoubleToInt(fraction * (size - 1) as real);
    var highIndex0 := WrapInt(lowIndex0 + 1);
    var lowIndex1 := if lowIndex0 < 0 then 0 else lowIndex0;
    var highIndex1 := if highIndex0 < 0 then 0 else highIndex0;
    var lowIndex := if lowIndex1 >= size then size - 1 else lowIndex1;
    var highIndex := if highIndex1 >= size then size - 1 else highIndex1;
    var proportion := fraction * (size - 1) as real - lowIndex as real;
    MathUtil.Map(proportion, 0.0, 1.0, s[lowIndex], s[highIndex])
  }

  /** For a fraction in [0, 1] getValueAtProportion reads the sorted observations exactly as
      MathUtil.findFractile reads a sorted array. */
  lemma ValueAtProportionIsFractile(s: seq<real>, fraction: real)
    requires 0 < |s| <= IntMax && 0.0 <= fraction <= 1.0
    ensures MathUtil.Fractile(fraction, s) == Ok(ValueAtProportion(s, fraction))
  {
    var m := (|s| - 1) as real;
    MathUtil.UnitScale(fraction, m);
    assert MathUtil.Position(fraction, |s|) == fraction * m;
    var lo := Truncate(fraction * m);
    assert DoubleToInt(fraction * m) == lo;
    assert WrapInt(lo + 1) == lo + 1;
  }

  /** getValueAtProportion(0.5) is the median, as the source's own test expects. */
  lemma ValueAtHalfIsMedian(s: seq<real>)
    requires 0 < |s| <= IntMax
    ensures ValueAtProportion(s, 0.5) == Median(s)
  {
    var n := |s|;
    var k := n / 2;
    if n % 2 == 1 {
      assert 0.5 * (n - 1) as real == k as real;
      assert Truncate(k as real) == k;
    } else {
      assert 0.5 * (n - 1) as real == (k - 1) as real + 0.5;
      assert Truncate((k - 1) as real + 0.5) == k - 1;
    }
  }

  /** Between two sorted reads: a fraction in [0, 1] gives a value between the least and the
      greatest observation. */
  lemma ValueAtProportionInRange(s: seq<real>, fraction: real)
    requires 0 < |s| <= IntMax && 0.0 <= fraction <= 1.0 && Ascending(s)
    ensures s[0] <= ValueAtProportion(s, fraction) <= s[|s| - 1]
  {
    ValueAtProportionIsFractile(s, fraction);
    MathUtil.FractileInRange(fraction, s);
  }

  class StoredObservationSummary {
    /** The ObservationSummary state this class inherits. */
    var base: ObservationSummary.ObservationSummary
    var observations: DoubleList.DoubleList
    /** The sorted copy; None while it has never been built (null in the source). */
    var sortedObservations: Option<seq<real>>
    var isSorted: bool
    /** How many observations there were when the sorted copy was last built. */
    ghost var sortedPrefix: nat
    ghost var Repr: set<object>

    /** The stored observations agree with the inherited summary; the sorted copy, when it
        exists, is the sorted form of the observations there were when it was built, and all
        of them when it is marked current. */
    ghost predicate Valid()
      reads this, Repr
    {
      this in Repr && base in Repr && observations in Repr
      && Repr == {this, base} + observations.Repr
      && this !in observations.Repr && base !in observations.Repr
      && observations.Valid() && base.Valid()
      && base.Observations == observations.Contents()
      && sortedPrefix <= observations.size
      && (sortedObservations.Some? ==>
            sortedObservations.value == SortedCopy(observations.Contents()[..sortedPrefix]))
      && (isSorted ==> sortedObservations.Some? && sortedPrefix == observations.size)
    }

    ghost function Contents(): seq<real>
      reads this, Repr
      requires Valid()
    {
      observations.Contents()
    }

    constructor ()
      ensures Valid() && fresh(Repr)
      ensures Contents() == [] && sortedObservations == None && !isSorted
    {
      base := new ObservationSummary.ObservationSummary();
      observations := new DoubleList.DoubleList(10, 1.1);
      sortedObservations := None;
      isSorted := false;
      sortedPrefix := 0;
      new;
      Repr := {this, base} + observations.Repr;
    }

    /** `add(value)`: appends to the stored observations, adds to the inherited summary and
        marks the sorted copy stale without touching it. */
    method Add(value: real)
      requires Valid() && observations.size < IntMax
      modifies Repr
      ensures Valid() && fresh(Repr - old(Repr))
      ensures Contents() == old(Contents()) + [value]
      ensures !isSorted && sortedObservations == old(sortedObservations)
    {
      ghost var before := observations.Contents();
      observations.Add(value);
      base.Add(value);
      isSorted := false;
      Repr := {this, base} + observations.Repr;
      assert (before + [value])[..sortedPrefix] == before[..sortedPrefix];
    }

    /** The inherited `add(double... nums)`: each element through this class's add, in order. */
    method AddAll(nums: array<real>)
      requires Valid() && observations.size + nums.Length < IntMax
      requires nums !in Repr
      modifies Repr
      ensures Valid() && fresh(Repr - old(Repr))
      ensures Contents() == old(Contents()) + nums[..]
      ensures nums.Length > 0 ==> !isSorted
      ensures nums.Length == 0 ==> isSorted == old(isSorted)
      ensures sortedObservations == old(sortedObservations)
    {
      var i := 0;
      while i < nums.Length
        invariant 0 <= i <= nums.Length
        invariant Valid() && fresh(Repr - old(Repr)) && nums !in Repr
        invariant Contents() == old(Contents()) + nums[..i]
        invariant i > 0 ==> !isSorted
        invariant i == 0 ==> isSorted == old(isSorted)
        invariant sortedObservations == old(sortedObservations)
      {
        Add(nums[i]);
        assert nums[..i + 1] == nums[..i] + [nums[i]];
        i := i + 1;
      }
      assert nums[..i] == nums[..];
    }

    /** `sortObservations()`: unless already current, copies the observations into a new
        list and sorts it; the observations themselves keep their order. */
    method SortObservations()
      requires Valid()
      modifies this
      ensures Valid() && Repr == old(Repr) && Contents() == old(Contents())
      ensures isSorted && sortedObservations == Some(SortedCopy(Contents()))
      ensures base == old(base) && observations == old(observations)
    {
      if isSorted {
        assert observations.Contents()[..sortedPrefix] == observations.Contents();
        return;
      }
      var list: seq<real> := [];
      var i := 0;
      while i < observations.Size()
        invariant 0 <= i <= observations.size
        invariant list == observations.Contents()[..i]
      {
        var g := observations.Get(i);
        list := list + [g.value];
        i := i + 1;
      }
      assert observations.Contents()[..i] == observations.Contents();
      sortedObservations := Some(SortedCopy(list));
      sortedPrefix := i;
      isSorted := true;
    }

    /** `getMedian()`: the median of the observations, through the sorted copy. */
    method GetMedian() returns (r: real)
      requires Valid()
      modifies this
      ensures Valid() && Repr == old(Repr) && Contents() == old(Contents())
      ensures isSorted && sortedObservations == Some(SortedCopy(Contents()))
      ensures r == Median(SortedCopy(Contents()))
    {
      SortObservations();
      r := Median(sortedObservations.value);
    }

    /** `getProportionAtValue(value)`: the scan for lastIndexBelow and firstIndexAbove over the
        sorted copy. */
    method GetProportionAtValue(value: real) returns (r: real)
      requires Valid()
      modifies this
      ensures Valid() && Repr == old(Repr) && Contents() == old(Contents())
      ensures isSorted && sortedObservations == Some(SortedCopy(Contents()))
      ensures r == ProportionAtValue(SortedCopy(Contents()), value)
    {
      SortObservations();
      var sorted := sortedObservations.value;
      if |sorted| == 0 {
        return 0.0;
      }
      if |sorted| == 1 {
        return if value > sorted[0] then 1.0 else 0.0;
      }
      r := ScanProportion(sorted, value);
    }

    /** `getValueAtProportion(fraction)`: 0.0 while the sorted copy has never been built, even
        with observations present; the size tests read the copy before it is brought up to
        date, so a stale copy of no observations gives 0.0 and one of a single observation
        gives the first observation; otherwise the copy is refreshed and read at fraction. */
    method GetValueAtProportion(fraction: real) returns (r: real)
      requires Valid()
      modifies this
      ensures Valid() && Repr == old(Repr) && Contents() == old(Contents())
      ensures old(sortedObservations).None? ==> r == 0.0 && sortedObservations == None
      ensures old(sortedObservations).Some? && |old(sortedObservations).value| == 0 ==> r == 0.0
      ensures old(sortedObservations).Some? && |old(sortedObservations).value| == 1 ==>
                r == Contents()[0]
      ensures old(sortedObservations).None? || |old(sortedObservations).value| <= 1 ==>
                sortedObservations == old(sortedObservations) && isSorted == old(isSorted)
                && sortedPrefix == old(sortedPrefix)
      ensures old(sortedObservations).Some? && |old(sortedObservations).value| >= 2 ==>
                isSorted && sortedObservations == Some(SortedCopy(Contents()))
                && r == ValueAtProportion(SortedCopy(Contents()), fraction)
    {
      if sortedObservations.None? {
        return 0.0;
      }
      var stale := sortedObservations.value;
      if |stale| == 0 {
        return 0.0;
      }
      if |stale| == 1 {
        StaleSingle(observations.Contents(), sortedPrefix);
        return stale[0];
      }
      SortObservations();
      var sorted := sortedObservations.value;
      r := ValueAtProportion(sorted, fraction);
    }
  }

  /** The scan of getProportionAtValue over a sorted copy of two or more observations:
      lastIndexBelow is the last index below value, firstIndexAbove the first above it (size
      when there is none). */
  method ScanProportion(sorted: seq<real>, value: real) returns (r: real)
    requires |sorted| >= 2
    ensures r == ProportionAtValue(sorted, value)
  {
    var size := |sorted|;
    var lastIndexBelow := -1;
    var firstIndexAbove := size;
    var i := 0;
    while i < size
      invariant 0 <= i <= size
      invariant lastIndexBelow == LastIndexBelow(sorted[..i], value)
      invariant firstIndexAbove == size <==> forall k | 0 <= k < i :: !(sorted[k] > value)
      invariant firstIndexAbove <= size && (firstIndexAbove < size ==> firstIndexAbove < i)
    {
      var d := sorted[i];
      assert sorted[..i + 1][..i] == sorted[..i];
      if d < value {
        lastIndexBelow := i;
      }
      if d > value && firstIndexAbove == size {
        firstIndexAbove := i;
      }
      i := i + 1;
    }
    assert sorted[..i] == sorted;
    if firstIndexAbove >= size {
      return 1.0;
    }
    if lastIndexBelow <= -1 {
      return 0.0;
    }
    r := (lastIndexBelow as real + 1.0) / size as real;
  }

  /** A sorted copy of a single observation is that observation, the first one there was. */
  lemma StaleSingle(s: seq<real>, p: nat)
    requires p <= |s| && |SortedCopy(s[..p])| == 1
    ensures SortedCopy(s[..p]) == [s[0]]
  {
    var c := SortedCopy(s[..p]);
    assert s[..p] == [s[0]];
    assert c[0] in multiset(c);
  }
}
