/** DoubleHistogram: counts of values in equal-width buckets over [min, max], with the fullest
    bucket tracked as values are added. Counts are unbounded integers here. */
module DoubleHistogram {
  import opened JavaLang
  import opened JavaNum
  import opened Text
  import ArrayUtil
  import Stats

  /** The total of a sequence of counts. */
  function SumInts(s: seq<int>): int
  {
    if |s| == 0 then 0 else SumInts(s[..|s| - 1]) + s[|s| - 1]
  }

  /** Adding one to a single count adds one to the total. */
  lemma {:induction false} SumIncrement(s: seq<int>, k: nat)
    requires k < |s|
    ensures SumInts(s[k := s[k] + 1]) == SumInts(s) + 1
    decreases |s|
  {
    var t := s[k := s[k] + 1];
    var n := |s| - 1;
    if k < n {
      assert t[..n] == s[..n][k := s[k] + 1];
      SumIncrement(s[..n], k);
    } else {
      assert t[..n] == s[..n];
    }
  }

  /** Counts that are none of them positive have a total that is not positive. */
  lemma {:induction false} SumNonPositive(s: seq<int>)
    requires forall i | 0 <= i < |s| :: s[i] <= 0
    ensures SumInts(s) <= 0
    decreases |s|
  {
    if |s| > 0 {
      SumNonPositive(s[..|s| - 1]);
    }
  }

  /** maxCount bounds every count and is 0 or positive; when positive, maxCountIndex is a
      bucket holding it; otherwise maxCountIndex is -1 or a bucket. */
  ghost predicate Tracks(b: seq<int>, maxCount: int, maxCountIndex: int)
  {
    0 <= maxCount
    && (forall i | 0 <= i < |b| :: b[i] <= maxCount)
    && -1 <= maxCountIndex < |b|
    && (maxCount > 0 ==> 0 <= maxCountIndex && b[maxCountIndex] == maxCount)
  }

  /** Counting one more in bucket k, and taking k as the fullest bucket when its count now
      exceeds maxCount, keeps the tracking right. */
  lemma TracksIncrement(b: seq<int>, maxCount: int, maxCountIndex: int, k: nat)
    requires Tracks(b, maxCount, maxCountIndex) && k < |b|
    ensures var c := b[k := b[k] + 1];
            Tracks(c, if c[k] > maxCount then c[k] else maxCount, if c[k] > maxCount then k else maxCountIndex)
  {
  }

  /** Tracking as setBuckets does it: maxCountIndex is -1 exactly while maxCount is 0, and
      otherwise the first bucket holding maxCount. */
  ghost predicate FirstMax(b: seq<int>, maxCount: int, maxCountIndex: int)
  {
    Tracks(b, maxCount, maxCountIndex)
    && (maxCountIndex == -1 <==> maxCount == 0)
    && (maxCountIndex >= 0 ==> forall i | 0 <= i < maxCountIndex :: b[i] < maxCount)
  }

  /** One more count appended, taken as the fullest only when strictly above maxCount. */
  lemma FirstMaxStep(b: seq<int>, maxCount: int, maxCountIndex: int, x: int)
    requires FirstMax(b, maxCount, maxCountIndex)
    ensures FirstMax(b + [x], if x > maxCount then x else maxCount, if x > maxCount then |b| else maxCountIndex)
    ensures SumInts(b + [x]) == SumInts(b) + x
  {
    assert (b + [x])[..|b|] == b;
  }

  /** Under setBuckets' tracking, maxCountIndex is -1 exactly when no count is positive. */
  lemma FirstMaxNone(b: seq<int>, maxCount: int, maxCountIndex: int)
    requires FirstMax(b, maxCount, maxCountIndex)
    ensures maxCountIndex == -1 <==> forall i | 0 <= i < |b| :: b[i] <= 0
  {
  }

  /** A content times the premultiplier, rounded by Math.round and narrowed to int. */
  function RoundedCount(premultiplier: real, content: real): (n: int)
    ensures IntMin <= n <= IntMax
  {
    WrapInt(MathRound(premultiplier * content))
  }

  /** Every content rounded as setBuckets does. */
  function Rounded(premultiplier: real, contents: seq<real>): (r: seq<int>)
    ensures |r| == |contents|
  {
    seq(|contents|, k requires 0 <= k < |contents| => RoundedCount(premultiplier, contents[k]))
  }

  /** The loop of setBuckets: a new array of the rounded contents, with the first index of the
      largest positive count (-1 when none is positive), that count (0 when none) and the
      total. */
  method RoundCounts(bucketContents: array<real>, premultiplier: real)
    returns (counts: array<int>, most: int, mostIndex: int, total: int)
    ensures fresh(counts) && counts[..] == Rounded(premultiplier, bucketContents[..])
    ensures FirstMax(counts[..], most, mostIndex) && total == SumInts(counts[..])
  {
    counts := new int[bucketContents.Length](_ => 0);
    most, mostIndex, total := 0, -1, 0;
    var i := 0;
    while i < counts.Length
      invariant 0 <= i <= counts.Length == bucketContents.Length
      modifies counts
      invariant counts[..i] == Rounded(premultiplier, bucketContents[..i])
      invariant FirstMax(counts[..i], most, mostIndex) && total == SumInts(counts[..i])
    {
      ghost var prefix := counts[..i];
      var count := RoundedCount(premultiplier, bucketContents[i]);
      counts[i] := count;
      RoundedSnoc(premultiplier, bucketContents[..], i);
      assert counts[..i + 1] == prefix + [count];
      FirstMaxStep(prefix, most, mostIndex, count);
      total := total + count;
      if count > most {
        most := count;
        mostIndex := i;
      }
      i := i + 1;
    }
    assert counts[..i] == counts[..];
    assert bucketContents[..i] == bucketContents[..];
  }

  /** Rounding one more content appends its rounded count. */
  lemma RoundedSnoc(premultiplier: real, contents: seq<real>, i: nat)
    requires i < |contents|
    ensures Rounded(premultiplier, contents[..i + 1]) == Rounded(premultiplier, contents[..i]) + [RoundedCount(premultiplier, contents[i])]
  {
  }

  /** The bucket addValue picks for val: `(int)((val - min) / delta)`, raised to 0 when
      negative and lowered to n - 1 when n or more. With no buckets it is -1 or 0, which is
      outside the array. */
  function BucketIndex(val: real, min: real, delta: real, n: nat): (k: int)
    ensures n > 0 ==> 0 <= k < n
    ensures n == 0 ==> k < 0 || k >= n
  {
    var raw := DivideToInt(val - min, delta);
    if raw < 0 then 0 else if raw >= n then n - 1 else raw
  }

  /** With positive width, a value in [min + k * delta, min + (k + 1) * delta) lands in
      bucket k. */
  lemma BucketExact(val: real, min: real, delta: real, n: nat, k: nat)
    requires 0.0 < delta && k < n <= IntMax
    requires min + k as real * delta <= val < min + (k + 1) as real * delta
    ensures BucketIndex(val, min, delta, n) == k
  {
    var q := (val - min) / delta;
    assert q * delta == val - min;
    assert k as real <= q by {
      if q < k as real {
        PosProduct(k as real - q, delta);
      }
    }
    assert q < (k + 1) as real by {
      if q >= (k + 1) as real {
        NonNegProduct(q - (k + 1) as real, delta);
      }
    }
  }

  /** With the range [min, max] split into n buckets of positive width, min falls in the first
      bucket and max, which is exactly n widths up, in the last. */
  lemma BucketOfRangeEnds(min: real, max: real, n: nat)
    requires min < max && 0 < n <= IntMax
    ensures BucketIndex(min, min, (max - min) / n as real, n) == 0
    ensures BucketIndex(max, min, (max - min) / n as real, n) == n - 1
  {
    var delta := (max - min) / n as real;
    assert delta * n as real == max - min;
    MathUtilQuotient(max - min, n as real);
    assert (max - min) / delta == n as real;
  }

  lemma MathUtilQuotient(w: real, m: real)
    requires 0.0 < w && 0.0 < m
    ensures 0.0 < w / m && w / (w / m) == m
  {
    PosProductInverse(w, m);
  }

  lemma PosProductInverse(w: real, m: real)
    requires 0.0 < w && 0.0 < m
    ensures 0.0 < w / m
  {
    if w / m <= 0.0 {
      assert (w / m) * m == w;
      NonNegProduct(-(w / m), m);
    }
  }

  /** The counts after adding vals one by one to counts b. */
  function AddedAll(b: seq<int>, vals: seq<real>, min: real, delta: real): (r: seq<int>)
    requires |b| > 0
    ensures |r| == |b|
  {
    if |vals| == 0 then b
    else
      var c := AddedAll(b, vals[..|vals| - 1], min, delta);
      var k := BucketIndex(vals[|vals| - 1], min, delta, |c|);
      c[k := c[k] + 1]
  }

  /** Every added value is counted exactly once. */
  lemma {:induction false} AddedAllCounts(b: seq<int>, vals: seq<real>, min: real, delta: real)
    requires |b| > 0
    ensures SumInts(AddedAll(b, vals, min, delta)) == SumInts(b) + |vals|
    decreases |vals|
  {
    if |vals| > 0 {
      var c := AddedAll(b, vals[..|vals| - 1], min, delta);
      AddedAllCounts(b, vals[..|vals| - 1], min, delta);
      SumIncrement(c, BucketIndex(vals[|vals| - 1], min, delta, |c|));
    }
  }

  /** The decimal counts that toExcelTSVRow joins. */
  function BucketStrings(b: seq<int>): (r: seq<string>)
    ensures |r| == |b|
  {
    seq(|b|, i requires 0 <= i < |b| => IntToString(b[i]))
  }

  /** toExcelTSVRow's row: one tab between neighbouring counts, none before the first or
      after the last. */
  lemma TSVRowTabs(b: seq<int>)
    requires |b| > 0
    ensures Count(Join(BucketStrings(b), "\t"), '\t') == |b| - 1
    ensures var r := Join(BucketStrings(b), "\t"); r[0] != '\t' && r[|r| - 1] != '\t'
  {
    var parts := BucketStrings(b);
    forall i | 0 <= i < |parts| ensures Count(parts[i], '\t') == 0 && |parts[i]| > 0 {
      IntToStringChars(b[i]);
      CountAbsent(parts[i], '\t');
    }
    JoinCount(parts, '\t');
    JoinEnds(parts, "\t");
    IntToStringChars(b[0]);
    IntToStringChars(b[|b| - 1]);
  }

  class DoubleHistogram {
    var min: real
    var max: real
    /** The width of each bucket. */
    var delta: real
    var maxCount: int
    var maxCountIndex: int
    var buckets: array<int>
    var totalMembers: int
    var title: string

    /** maxCount is the largest count (0 when none is positive) and maxCountIndex a bucket
        holding it; totalMembers is the total of the counts. */
    ghost predicate Valid()
      reads this, buckets
    {
      Tracks(buckets[..], maxCount, maxCountIndex) && totalMembers == SumInts(buckets[..])
    }

    /** `new DoubleHistogram(vals, nBuckets, minVal, maxVal)`: nBuckets zeroed buckets of width
        (maxVal - minVal) / nBuckets, maxCountIndex -1, then every value added. */
    constructor (vals: array<real>, nBuckets: int, minVal: real, maxVal: real)
      requires nBuckets > 0
      ensures Valid() && fresh(buckets) && buckets.Length == nBuckets
      ensures min == minVal && max == maxVal && delta == (maxVal - minVal) / nBuckets as real
      ensures title == "doubleHistogram"
      ensures buckets[..] == AddedAll(seq(nBuckets, _ => 0), vals[..], min, delta)
      ensures totalMembers == vals.Length
      ensures maxCountIndex >= 0 <==> vals.Length > 0
    {
      buckets := new int[nBuckets](_ => 0);
      min := minVal;
      max := maxVal;
      maxCount := 0;
      maxCountIndex := -1;
      totalMembers := 0;
      title := "doubleHistogram";
      delta := (maxVal - minVal) / nBuckets as real;
      new;
      assert buckets[..] == seq(nBuckets, _ => 0);
      ZerosSum(nBuckets);
      var o := ClearAndFillBuckets(vals);
      NonEmptyMarked(vals.Length);
    }

    /** `new DoubleHistogram(vals, nBuckets)`: the range is from the least to the greatest
        value, found by the same scans as ArrayUtil.min and max. */
    constructor FromValues(vals: array<real>, nBuckets: int)
      requires nBuckets > 0
      ensures Valid() && fresh(buckets) && buckets.Length == nBuckets
      ensures min == Stats.MinOf(vals[..]) && max == Stats.MaxOf(vals[..])
      ensures delta == (max - min) / nBuckets as real
      ensures buckets[..] == AddedAll(seq(nBuckets, _ => 0), vals[..], min, delta)
      ensures totalMembers == vals.Length
    {
      var minVal := ArrayUtil.Min(vals);
      var maxVal := ArrayUtil.Max(vals);
      buckets := new int[nBuckets](_ => 0);
      min := minVal;
      max := maxVal;
      maxCount := 0;
      maxCountIndex := -1;
      totalMembers := 0;
      title := "doubleHistogram";
      delta := (maxVal - minVal) / nBuckets as real;
      new;
      assert buckets[..] == seq(nBuckets, _ => 0);
      ZerosSum(nBuckets);
      var o := ClearAndFillBuckets(vals);
    }

    /** A positive total means some bucket was counted, so maxCountIndex was set. */
    lemma NonEmptyMarked(n: int)
      requires Valid() && totalMembers == n
      ensures n > 0 ==> maxCount > 0
    {
      if n > 0 && maxCount == 0 {
        SumNonPositive(buckets[..]);
      }
    }

    /** `addValue(val)`: one more count in bucket BucketIndex(val); with no buckets that index
        is outside the array and ArrayIndexOutOfBoundsException is thrown. */
    method AddValue(val: real) returns (o: Outcome)
      requires Valid()
      modifies this, buckets
      ensures Valid() && buckets == old(buckets)
      ensures unchanged(this`min, this`max, this`delta, this`title)
      ensures o.Fail? <==> buckets.Length == 0
      ensures o.Fail? ==> o.error == ArrayIndexOutOfBounds
      ensures o.Fail? ==> unchanged(this) && unchanged(buckets)
      ensures o == Pass ==>
                var k := BucketIndex(val, min, delta, buckets.Length);
                buckets[..] == old(buckets[..])[k := old(buckets[k]) + 1]
                && totalMembers == old(totalMembers) + 1
                && (buckets[k] > old(maxCount) ==> maxCount == buckets[k] && maxCountIndex == k)
                && (buckets[k] <= old(maxCount) ==> maxCount == old(maxCount) && maxCountIndex == old(maxCountIndex))
    {
      var bucketToInc := DivideToInt(val - min, delta);
      if bucketToInc < 0 {
        bucketToInc := 0;
      } else if bucketToInc >= buckets.Length {
        bucketToInc := buckets.Length - 1;
      }
      assert bucketToInc == BucketIndex(val, min, delta, buckets.Length);
      if bucketToInc < 0 || bucketToInc >= buckets.Length {
        return Fail(ArrayIndexOutOfBounds);
      }
      ghost var b := buckets[..];
      SumIncrement(b, bucketToInc);
      TracksIncrement(b, maxCount, maxCountIndex, bucketToInc);
      buckets[bucketToInc] := buckets[bucketToInc] + 1;
      assert buckets[..] == b[bucketToInc := b[bucketToInc] + 1];
      if buckets[bucketToInc] > maxCount {
        maxCount := buckets[bucketToInc];
        maxCountIndex := bucketToInc;
      }
      totalMembers := totalMembers + 1;
      o := Pass;
    }

    /** `addValues(vals...)`: addValue for each value in order. */
    method AddValues(vals: array<real>) returns (o: Outcome)
      requires Valid()
      modifies this, buckets
      ensures Valid() && buckets == old(buckets)
      ensures unchanged(this`min, this`max, this`delta, this`title)
      ensures o.Fail? <==> buckets.Length == 0 && vals.Length > 0
      ensures o.Fail? ==> o.error == ArrayIndexOutOfBounds
      ensures o == Pass && buckets.Length > 0 ==>
                buckets[..] == AddedAll(old(buckets[..]), vals[..], min, delta)
      ensures o == Pass ==> totalMembers == old(totalMembers) + vals.Length
      ensures vals.Length == 0 ==> maxCountIndex == old(maxCountIndex)
    {
      if buckets.Length == 0 && vals.Length > 0 {
        o := AddValue(vals[0]);
        return;
      }
      var i := 0;
      while i < vals.Length
        invariant 0 <= i <= vals.Length
        invariant Valid() && buckets == old(buckets)
        invariant unchanged(this`min, this`max, this`delta, this`title)
        invariant buckets.Length > 0 ==> buckets[..] == AddedAll(old(buckets[..]), vals[..i], min, delta)
        invariant totalMembers == old(totalMembers) + i
        invariant i == 0 ==> maxCountIndex == old(maxCountIndex)
      {
        var r := AddValue(vals[i]);
        assert vals[..i + 1][..i] == vals[..i];
        i := i + 1;
      }
      assert vals[..i] == vals[..];
      o := Pass;
    }

    /** `clearAndFillBuckets(vals)`: zero every bucket, maxCount and totalMembers, then add the
        values; maxCountIndex is not reset. */
    method ClearAndFillBuckets(vals: array<real>) returns (o: Outcome)
      requires Valid()
      modifies this, buckets
      ensures Valid() && buckets == old(buckets)
      ensures unchanged(this`min, this`max, this`delta, this`title)
      ensures o.Fail? <==> buckets.Length == 0 && vals.Length > 0
      ensures o == Pass && buckets.Length > 0 ==>
                buckets[..] == AddedAll(seq(buckets.Length, _ => 0), vals[..], min, delta)
      ensures o == Pass ==> totalMembers == vals.Length
      ensures vals.Length == 0 ==> maxCountIndex == old(maxCountIndex)
    {
      forall i | 0 <= i < buckets.Length {
        buckets[i] := 0;
      }
      assert buckets[..] == seq(buckets.Length, _ => 0);
      ZerosSum(buckets.Length);
      maxCount := 0;
      totalMembers := 0;
      o := AddValues(vals);
    }

    /** `setBuckets(bucketContents, premultiplier)`: new buckets holding each content times the
        premultiplier rounded (Math.round, then the narrowing cast to int); totals and the
        fullest bucket recomputed, maxCountIndex the first index holding the largest positive
        count or -1 when none is positive; the width recomputed for the new count. */
    method SetBuckets(bucketContents: array<real>, premultiplier: real)
      requires Valid()
      modifies this
      ensures Valid() && fresh(buckets) && buckets.Length == bucketContents.Length
      ensures buckets[..] == Rounded(premultiplier, bucketContents[..])
      ensures maxCountIndex == -1 <==> forall i | 0 <= i < buckets.Length :: buckets[i] <= 0
      ensures maxCountIndex >= 0 ==> forall i | 0 <= i < maxCountIndex :: buckets[i] < maxCount
      ensures title == "doubleHistogram" && min == old(min) && max == old(max)
      ensures delta == if buckets.Length == 0 then 0.0 else (max - min) / buckets.Length as real
    {
      var counts, most, mostIndex, total := RoundCounts(bucketContents, premultiplier);
      FirstMaxNone(counts[..], most, mostIndex);
      buckets, maxCount, maxCountIndex, totalMembers := counts, most, mostIndex, total;
      title := "doubleHistogram";
      delta := if buckets.Length == 0 then 0.0 else (max - min) / buckets.Length as real;
    }

    /** `getNumberOfObservations()`: the total of the bucket counts, which is totalMembers. */
    method GetNumberOfObservations() returns (sum: int)
      requires Valid()
      ensures sum == SumInts(buckets[..]) && sum == totalMembers
    {
      sum := 0;
      var i := 0;
      while i < buckets.Length
        invariant 0 <= i <= buckets.Length
        invariant sum == SumInts(buckets[..i])
      {
        assert buckets[..i + 1][..i] == buckets[..i];
        sum := sum + buckets[i];
        i := i + 1;
      }
      assert buckets[..i] == buckets[..];
    }

    /** `bucketsToDoubleList()`: each count widened to a double, in bucket order. */
    method BucketsToDoubleList() returns (doubles: seq<real>)
      ensures |doubles| == buckets.Length
      ensures forall i | 0 <= i < buckets.Length :: doubles[i] == buckets[i] as real
    {
      doubles := [];
      var i := 0;
      while i < buckets.Length
        invariant 0 <= i <= buckets.Length && |doubles| == i
        invariant forall k | 0 <= k < i :: doubles[k] == buckets[k] as real
      {
        doubles := doubles + [buckets[i] as real];
        i := i + 1;
      }
    }

    /** `toExcelTSVRow()`: the counts in decimal, a tab before every one but the first. */
    method ToExcelTSVRow() returns (res: string)
      ensures res == Join(BucketStrings(buckets[..]), "\t")
    {
      res := "";
      var i := 0;
      while i < buckets.Length
        invariant 0 <= i <= buckets.Length
        invariant res == Join(BucketStrings(buckets[..i]), "\t")
      {
        assert BucketStrings(buckets[..i + 1]) == BucketStrings(buckets[..i]) + [IntToString(buckets[i])];
        if i != 0 {
          res := res + "\t";
        }
        res := res + IntToString(buckets[i]);
        i := i + 1;
      }
      assert buckets[..i] == buckets[..];
    }
  }

  lemma {:induction false} ZerosSum(n: nat)
    ensures SumInts(seq(n, _ => 0)) == 0
    decreases n
  {
    if n > 0 {
      assert seq(n, _ => 0)[..n - 1] == seq(n - 1, _ => 0);
      ZerosSum(n - 1);
    }
  }
}
