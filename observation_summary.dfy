/** ObservationSummary: running count, total, product, sum of squares, minimum and maximum
    of a stream of observations that are not themselves kept, and the lookup of the normal
    quantile used for confidence intervals. */
module ObservationSummary {
  import opened JavaLang
  import opened JavaNum
  import opened Stats
  import MathUtil

  class ObservationSummary {
    /** A long in the source. */
    var observationCount: int
    var sum: real
    var product: real
    var sumOfSquares: real
    var min: real
    var max: real
    var zeroMeansIfNoData: bool
    /** The observations added so far, in order; the summary itself does not store them. */
    ghost var Observations: seq<real>

    /** Every running field is its fold over the observations added so far. */
    ghost predicate Valid()
      reads this
    {
      observationCount == |Observations| <= LongMax
      && Summarises(Observations, sum, product, sumOfSquares, min, max)
    }

    /** `new ObservationSummary()`: no observations, min Double.MAX_VALUE, max -Double.MAX_VALUE. */
    constructor ()
      ensures Valid() && Observations == [] && !zeroMeansIfNoData
      ensures observationCount == 0 && sum == 0.0 && product == 1.0 && sumOfSquares == 0.0
      ensures min == DoubleMax && max == -DoubleMax
    {
      sum := 0.0;
      product := 1.0;
      sumOfSquares := 0.0;
      observationCount := 0;
      min := DoubleMax;
      max := -DoubleMax;
      zeroMeansIfNoData := false;
      Observations := [];
    }

    /** `add(num)`: one more observation; min and max move only when strictly passed. */
    method Add(num: real)
      requires Valid() && observationCount < LongMax
      modifies this
      ensures Valid() && Observations == old(Observations) + [num]
      ensures observationCount == old(observationCount) + 1
      ensures min <= num <= max
      ensures zeroMeansIfNoData == old(zeroMeansIfNoData)
    {
      var sum', product', sumOfSquares' := sum + num, product * num, sumOfSquares + num * num;
      var max' := if num > max then num else max;
      var min' := if num < min then num else min;
      SummarisesAppend(Observations, num, sum, product, sumOfSquares, min, max, sum', product', sumOfSquares', min', max');
      Observations := Observations + [num];
      sum, product, sumOfSquares := sum', product', sumOfSquares';
      observationCount := observationCount + 1;
      max, min := max', min';
    }

    /** `add(double... nums)`: each element in order, as by add(num). */
    method AddAll(nums: array<real>)
      requires Valid() && observationCount + nums.Length <= LongMax
      modifies this
      ensures Valid() && Observations == old(Observations) + nums[..]
      ensures zeroMeansIfNoData == old(zeroMeansIfNoData)
    {
      var i := 0;
      while i < nums.Length
        invariant 0 <= i <= nums.Length
        invariant Valid() && Observations == old(Observations) + nums[..i]
        invariant zeroMeansIfNoData == old(zeroMeansIfNoData)
      {
        Add(nums[i]);
        assert nums[..i + 1] == nums[..i] + [nums[i]];
        i := i + 1;
      }
      assert nums[..i] == nums[..];
    }

    /** `add(boolean)`: true is observed as 1.0 and false as 0.0. */
    method AddBoolean(b: bool)
      requires Valid() && observationCount < LongMax
      modifies this
      ensures Valid() && Observations == old(Observations) + [if b then 1.0 else 0.0]
      ensures zeroMeansIfNoData == old(zeroMeansIfNoData)
    {
      Add(if b then 1.0 else 0.0);
    }

    method SetZeroMeansIfNoData(tf: bool)
      modifies this
      ensures zeroMeansIfNoData == tf
      ensures Observations == old(Observations) && observationCount == old(observationCount)
      ensures sum == old(sum) && product == old(product) && sumOfSquares == old(sumOfSquares)
      ensures min == old(min) && max == old(max)
    {
      zeroMeansIfNoData := tf;
    }

    /** `getCount()`: the number of observations. */
    function GetCount(): (n: int)
      reads this
      requires Valid()
      ensures n == |Observations|
    {
      observationCount
    }

    /** `getMin()`: no greater than any observation and, once there is a finite one, one of them. */
    function GetMin(): (m: real)
      reads this
      requires Valid()
      ensures forall k | 0 <= k < |Observations| :: m <= Observations[k]
      ensures |Observations| > 0 && AllFinite(Observations) ==> m in Observations
      ensures |Observations| == 0 ==> m == DoubleMax
    {
      MinOfMember(Observations);
      min
    }

    /** `getMax()`: no less than any observation and, once there is a finite one, one of them. */
    function GetMax(): (m: real)
      reads this
      requires Valid()
      ensures forall k | 0 <= k < |Observations| :: Observations[k] <= m
      ensures |Observations| > 0 && AllFinite(Observations) ==> m in Observations
      ensures |Observations| == 0 ==> m == -DoubleMax
    {
      MaxOfMember(Observations);
      max
    }

    /** `getArithmeticMean()`: with no observations 0.0 or Double.MAX_VALUE as the flag says;
        otherwise the mean of the observations, which lies between their minimum and maximum. */
    function GetArithmeticMean(): (r: real)
      reads this
      requires Valid()
      ensures |Observations| == 0 ==> r == if zeroMeansIfNoData then 0.0 else DoubleMax
      ensures |Observations| > 0 ==>
                r == Sum(Observations) / |Observations| as real
                && MinOf(Observations) <= r <= MaxOf(Observations)
    {
      if zeroMeansIfNoData && observationCount <= 0 then 0.0
      else if observationCount <= 0 then DoubleMax
      else
        MeanBetween(Observations);
        sum / observationCount as real
    }

    /** `getVariance()`: Double.MAX_VALUE for fewer than two observations whatever the flag;
        otherwise the unbiased estimate from the running sums. */
    function GetVariance(): (r: real)
      reads this
      requires Valid()
      ensures |Observations| <= 1 ==> r == DoubleMax
      ensures |Observations| > 1 ==> 0.0 <= r
      ensures |Observations| > 1 ==>
                r == SqDev(Observations, Sum(Observations) / |Observations| as real)
                     / (|Observations| as real - 1.0)
    {
      if observationCount <= 1 then DoubleMax
      else
        FieldsSpread(Observations, sum, sumOfSquares, observationCount);
        SampleVariance(Observations);
        UnbiasedVariance(sumOfSquares, sum, observationCount)
    }
  }

  /** The unbiased variance estimate from the sum of squares q and the total t of n > 1
      observations: q / (n - 1) - t * t / (n * (n - 1)). */
  function UnbiasedVariance(q: real, t: real, n: int): (r: real)
    requires 1 < n
    ensures t * t <= n as real * q ==> 0.0 <= r
  {
    var m := n as real;
    VarianceNonNeg(q, t, m);
    q / (m - 1.0) - t * t / (m * (m - 1.0))
  }

  /** The running-sum formula is the sample variance: the squared deviations from the mean,
      divided by n - 1. */
  lemma SampleVariance(s: seq<real>)
    requires 1 < |s|
    ensures UnbiasedVariance(SumOfSquares(s), Sum(s), |s|)
            == SqDev(s, Sum(s) / |s| as real) / (|s| as real - 1.0)
  {
    SqDevSums(s, Sum(s) / |s| as real);
    AtMean(SumOfSquares(s), Sum(s), |s|, SqDev(s, Sum(s) / |s| as real));
  }

  /** About the mean t / n the expansion d = q - 2 (t / n) t + n (t / n) (t / n), divided
      by n - 1, is the unbiased estimate q / (n - 1) - t t / (n (n - 1)). */
  lemma AtMean(q: real, t: real, n: int, d: real)
    requires 1 < n
    requires d == q - 2.0 * (t / n as real) * t + n as real * (t / n as real) * (t / n as real)
    ensures UnbiasedVariance(q, t, n) == d / (n as real - 1.0)
  {
    var k := n as real;
    var m := t / k;
    assert k * m == t;
    assert k * m * m == t * m;
    assert d == q - t * m;
    MathUtil.ScaledQuotient(t, t, k);
    assert d == q - t * t / k;
    MathUtil.QuotientOfDifference(q, t * t / k, k - 1.0);
    MathUtil.QuotientOfQuotient(t * t, k, k - 1.0);
  }

  lemma FieldsSpread(s: seq<real>, t: real, q: real, n: int)
    requires t == Sum(s) && q == SumOfSquares(s) && n == |s|
    ensures t * t <= n as real * q
  {
    SpreadNonNeg(s);
  }

  /** The unbiased estimate q / (n - 1) - t * t / (n * (n - 1)) is (n * q - t * t) / (n * (n - 1)),
      so it is non-negative once t * t <= n * q. */
  lemma VarianceNonNeg(q: real, t: real, n: real)
    requires 1.0 < n
    ensures t * t <= n * q ==> 0.0 <= q / (n - 1.0) - t * t / (n * (n - 1.0))
  {
    if t * t <= n * q {
      var d := n * (n - 1.0);
      PosProduct(n, n - 1.0);
      assert q / (n - 1.0) == (n * q) / d;
      assert q / (n - 1.0) - t * t / d == (n * q - t * t) / d;
      MathUtil.QuotientNonNeg(n * q - t * t, d);
    }
  }

  /** sum, product, sumOfSquares, min and max are the running folds over s. */
  ghost predicate Summarises(s: seq<real>, sum: real, product: real, sumOfSquares: real,
                             min: real, max: real)
  {
    sum == Sum(s) && product == Product(s) && sumOfSquares == SumOfSquares(s)
    && min == MinOf(s) && max == MaxOf(s)
  }

  /** The updates add(num) makes keep the fields the folds over the longer sequence. */
  lemma SummarisesAppend(s: seq<real>, x: real, sum: real, product: real,
                         sumOfSquares: real, min: real, max: real,
                         sum': real, product': real, sumOfSquares': real, min': real, max': real)
    requires Summarises(s, sum, product, sumOfSquares, min, max)
    requires sum' == sum + x && product' == product * x && sumOfSquares' == sumOfSquares + x * x
    requires min' == (if x < min then x else min) && max' == (if x > max then x else max)
    ensures Summarises(s + [x], sum', product', sumOfSquares', min', max')
    ensures min' <= x <= max'
  {
    ProductAppend(s, x, product);
    SquaresAppend(s, x, sumOfSquares);
    FoldsAppend(s, x);
  }

  lemma ProductAppend(s: seq<real>, x: real, product: real)
    requires product == Product(s)
    ensures product * x == Product(s + [x])
  {
    FoldsAppend(s, x);
  }

  lemma SquaresAppend(s: seq<real>, x: real, sumOfSquares: real)
    requires sumOfSquares == SumOfSquares(s)
    ensures sumOfSquares + x * x == SumOfSquares(s + [x])
  {
    FoldsAppend(s, x);
  }

  /** The `confidenceProbs` array, 36 rows flattened: entry 2 * row is a two-sided
      probability and entry 2 * row + 1 its normal quantile. Entries from 72 on are never read. */
  function ConfidenceProbs(i: nat): real
  {
    if i % 2 == 0 then Probability(i / 2) else Quantile(i / 2)
  }

  /** The probability column, ascending from 0.05 to 0.999. */
  function Probability(row: nat): real
  {
    match row
      case 0 => 0.05  case 1 => 0.1  case 2 => 0.15  case 3 => 0.2
      case 4 => 0.25  case 5 => 0.3  case 6 => 0.35  case 7 => 0.4
      case 8 => 0.45  case 9 => 0.5  case 10 => 0.55  case 11 => 0.6
      case 12 => 0.65  case 13 => 0.7  case 14 => 0.75  case 15 => 0.8
      case 16 => 0.85  case 17 => 0.9  case 18 => 0.91  case 19 => 0.92
      case 20 => 0.93  case 21 => 0.94  case 22 => 0.95  case 23 => 0.96
      case 24 => 0.97  case 25 => 0.98  case 26 => 0.99  case 27 => 0.991
      case 28 => 0.992  case 29 => 0.993  case 30 => 0.994  case 31 => 0.995
      case 32 => 0.996  case 33 => 0.997  case 34 => 0.998  case 35 => 0.999
      case _ => 0.0
  }

  /** The quantile column, the normal quantile of each row's probability. */
  function Quantile(row: nat): real
  {
    match row
      case 0 => 0.062706778  case 1 => 0.125661347  case 2 => 0.189118426  case 3 => 0.253347103
      case 4 => 0.318639364  case 5 => 0.385320466  case 6 => 0.45376219  case 7 => 0.524400513
      case 8 => 0.597760126  case 9 => 0.67448975  case 10 => 0.755415026  case 11 => 0.841621234
      case 12 => 0.934589291  case 13 => 1.036433389  case 14 => 1.15034938  case 15 => 1.281551566
      case 16 => 1.439531471  case 17 => 1.644853627  case 18 => 1.69539771  case 19 => 1.750686071
      case 20 => 1.811910673  case 21 => 1.880793608  case 22 => 1.959963985  case 23 => 2.053748911
      case 24 => 2.170090378  case 25 => 2.326347874  case 26 => 2.575829304  case 27 => 2.612054141
      case 28 => 2.652069808  case 29 => 2.696844261  case 30 => 2.747781385  case 31 => 2.807033768
      case 32 => 2.878161739  case 33 => 2.967737925  case 34 => 3.090232306  case 35 => 3.290526731
      case _ => 0.0
  }

  const ConfidenceLength: nat := 72

  /** A table laid out like confidenceProbs whose two columns both ascend strictly. */
  ghost predicate Ordered(t: nat -> real)
  {
    forall i | 0 <= i < ConfidenceLength - 2 :: t(i) < t(i + 2)
  }

  /** Both columns of the table ascend strictly. */
  lemma TableAscending()
    ensures Ordered(ConfidenceProbs)
  {
    ProbabilityAscending();
    QuantileAscending();
    forall i | 0 <= i < ConfidenceLength - 2
      ensures ConfidenceProbs(i) < ConfidenceProbs(i + 2)
    {
      assert (i + 2) % 2 == i % 2 && (i + 2) / 2 == i / 2 + 1;
    }
  }

  lemma ProbabilityAscending()
    ensures forall row | 0 <= row < 35 :: Probability(row) < Probability(row + 1)
  {
  }

  lemma QuantileAscending()
    ensures forall row | 0 <= row < 35 :: Quantile(row) < Quantile(row + 1)
  {
  }

  /** Entries of the same column keep their order however far apart. */
  lemma {:induction false} TableMonotone(t: nat -> real, a: nat, b: nat)
    requires Ordered(t)
    requires a <= b < ConfidenceLength && (b - a) % 2 == 0
    ensures t(a) <= t(b)
    decreases b - a
  {
    if a < b {
      TableMonotone(t, a + 2, b);
    }
  }

  /** The loop of confidenceLookup over table t from flat index i on: the first row i whose
      successor's probability exceeds p interpolates between the two rows; when none does,
      the loop falls through and, with Java assertions disabled, 0 is returned. */
  function ScanFrom(t: nat -> real, p: real, i: nat): (r: real)
    requires i % 2 == 0 && i < ConfidenceLength && t(i) <= p
    decreases ConfidenceLength - i
  {
    if i >= ConfidenceLength - 3 then 0.0
    else if t(i + 2) > p then MathUtil.Map(p, t(i), t(i + 2), t(i + 1), t(i + 3))
    else ScanFrom(t, p, i + 2)
  }

  /** `confidenceLookup(probability)` as written: a RuntimeException outside [0.05, 0.999],
      three hard-coded quantiles, otherwise the table scan. */
  function Confidence(p: real): (r: Result<real>)
  {
    if p < 0.05 || p > 0.999 then Err(Runtime(None))
    else if p == 0.95 then Ok(1.959963985)
    else if p == 0.99 then Ok(2.575829304)
    else if p == 0.9 then Ok(1.644853627)
    else Ok(ScanFrom(ConfidenceProbs, p, 0))
  }

  /** `confidenceLookup(probability)`: the loop over the table in steps of two. */
  method ConfidenceLookup(probability: real) returns (r: Result<real>)
    ensures r == Confidence(probability)
  {
    if probability < 0.05 || probability > 0.999 {
      return Err(Runtime(None));
    }
    if probability == 0.95 {
      return Ok(1.959963985);
    } else if probability == 0.99 {
      return Ok(2.575829304);
    } else if probability == 0.9 {
      return Ok(1.644853627);
    }
    var i := 0;
    while i < ConfidenceLength - 3
      invariant i % 2 == 0 && i <= ConfidenceLength - 2
      invariant ConfidenceProbs(i) <= probability
      invariant ScanFrom(ConfidenceProbs, probability, 0) == ScanFrom(ConfidenceProbs, probability, i)
    {
      var next := ConfidenceProbs(i + 2);
      if next > probability {
        return Ok(MathUtil.Map(probability, ConfidenceProbs(i), next,
                               ConfidenceProbs(i + 1), ConfidenceProbs(i + 3)));
      }
      i := i + 2;
    }
    return Ok(0.0);
  }

  /** Rejected probabilities are exactly those outside [0.05, 0.999]. */
  lemma ConfidenceRange(p: real)
    ensures Confidence(p).Err? <==> p < 0.05 || p > 0.999
  {
  }

  /** At a probability of the table other than its last, the lookup returns that row's
      quantile; the three hard-coded answers agree with the table. */
  lemma ConfidenceAtRow(j: nat)
    requires j < 35
    ensures Confidence(ConfidenceProbs(2 * j)) == Ok(ConfidenceProbs(2 * j + 1))
  {
    var t := ConfidenceProbs;
    SpecialRows(j);
    if j == 22 {
      assert t(44) == 0.95;
    } else if j == 26 {
      assert t(52) == 0.99;
    } else if j == 17 {
      assert t(34) == 0.9;
    } else {
      TableAscending();
      TableMonotone(t, 2 * j, ConfidenceLength - 2);
      ScanHitsRow(t, j);
      TableEnds();
      ScannedConfidence(t(2 * j), t(2 * j + 1));
    }
  }

  /** The first and last probabilities of the table. */
  lemma TableEnds()
    ensures ConfidenceProbs(0) == 0.05 && ConfidenceProbs(ConfidenceLength - 2) == 0.999
  {
    assert ConfidenceProbs(70) == 0.999;
  }

  /** The lookup of an accepted probability other than the three hard-coded ones is its scan. */
  lemma ScannedConfidence(p: real, q: real)
    requires 0.05 <= p <= 0.999 && p != 0.95 && p != 0.99 && p != 0.9
    requires ScanFrom(ConfidenceProbs, p, 0) == q
    ensures Confidence(p) == Ok(q)
  {
  }

  /** In an ordered table the scan from the first row stops at row j when given row j's
      probability. */
  lemma ScanHitsRow(t: nat -> real, j: nat)
    requires Ordered(t) && j < 35
    ensures t(0) <= t(2 * j) && ScanFrom(t, t(2 * j), 0) == t(2 * j + 1)
  {
    TableMonotone(t, 0, 2 * j);
    ScanHit(t, j, 0);
  }

  /** The probabilities with a hard-coded answer are rows 17, 22 and 26 and no other, and
      the hard-coded answers are those rows' quantiles. */
  lemma SpecialRows(j: nat)
    requires j < 36
    ensures ConfidenceProbs(2 * j) == 0.95 <==> j == 22
    ensures ConfidenceProbs(2 * j) == 0.99 <==> j == 26
    ensures ConfidenceProbs(2 * j) == 0.9 <==> j == 17
    ensures ConfidenceProbs(45) == 1.959963985 && ConfidenceProbs(53) == 2.575829304 && ConfidenceProbs(35) == 1.644853627
  {
    var t := ConfidenceProbs;
    TableAscending();
    assert t(44) == 0.95 && t(52) == 0.99 && t(34) == 0.9;
    if t(2 * j) == 0.95 {
      SameRow(t, j, 22);
    }
    if t(2 * j) == 0.99 {
      SameRow(t, j, 26);
    }
    if t(2 * j) == 0.9 {
      SameRow(t, j, 17);
    }
  }

  /** Two rows of a strictly ordered table with the same probability are the same row. */
  lemma SameRow(t: nat -> real, j: nat, k: nat)
    requires Ordered(t)
    requires j < 36 && k < 36 && t(2 * j) == t(2 * k)
    ensures j == k
  {
    if j < k {
      TableStrict(t, 2 * j, 2 * k);
    } else if k < j {
      TableStrict(t, 2 * k, 2 * j);
    }
  }

  lemma TableStrict(t: nat -> real, a: nat, b: nat)
    requires Ordered(t)
    requires a < b < ConfidenceLength && (b - a) % 2 == 0
    ensures t(a) < t(b)
  {
    TableMonotone(t, a + 2, b);
  }

  lemma {:induction false} ScanHit(t: nat -> real, j: nat, i: nat)
    requires Ordered(t)
    requires j < 35 && i % 2 == 0 && i <= 2 * j
    requires t(i) <= t(2 * j)
    ensures ScanFrom(t, t(2 * j), i) == t(2 * j + 1)
    decreases 2 * j - i
  {
    if i < 2 * j {
      TableMonotone(t, i + 2, 2 * j);
      ScanHit(t, j, i + 2);
    }
  }

  /** Below the last probability the scan never falls through, and what it returns lies
      between the quantiles of the first and the last row. */
  lemma {:induction false} ScanWithinTable(t: nat -> real, p: real, i: nat)
    requires Ordered(t)
    requires i % 2 == 0 && i < ConfidenceLength && t(i) <= p < t(ConfidenceLength - 2)
    ensures t(1) <= ScanFrom(t, p, i) <= t(ConfidenceLength - 1)
    decreases ConfidenceLength - i
  {
    if i >= ConfidenceLength - 3 {
      assert false;
    } else if t(i + 2) > p {
      ScanStopsWithin(t, p, i);
    } else {
      ScanWithinTable(t, p, i + 2);
    }
  }

  /** Where the scan stops, the interpolated quantile lies between the first and last
      quantiles. */
  lemma ScanStopsWithin(t: nat -> real, p: real, i: nat)
    requires Ordered(t)
    requires i % 2 == 0 && i < ConfidenceLength - 3 && t(i) <= p < t(i + 2)
    ensures t(1) <= MathUtil.Map(p, t(i), t(i + 2), t(i + 1), t(i + 3)) <= t(ConfidenceLength - 1)
  {
    MathUtil.MapBetween(p, t(i), t(i + 2), t(i + 1), t(i + 3));
    TableMonotone(t, 1, i + 1);
    TableMonotone(t, i + 3, ConfidenceLength - 1);
  }

  /** Every accepted probability below 0.999 gets a quantile within the table's range. */
  lemma ConfidenceWithinTable(p: real)
    requires 0.05 <= p < 0.999
    ensures Confidence(p).Ok?
    ensures ConfidenceProbs(1) <= Confidence(p).value <= ConfidenceProbs(71)
  {
    if p != 0.95 && p != 0.99 && p != 0.9 {
      TableAscending();
      ScanWithinTable(ConfidenceProbs, p, 0);
    }
  }

  /** As written, 0.999 passes the range check, but no row's successor exceeds it, so the
      scan falls through and the lookup answers 0 instead of the last row's 3.290526731. */
  lemma ConfidenceAtLastRow()
    ensures Confidence(0.999) == Ok(0.0)
  {
    TableAscending();
    ScanMisses(ConfidenceProbs, 0);
  }

  lemma {:induction false} ScanMisses(t: nat -> real, i: nat)
    requires Ordered(t)
    requires i % 2 == 0 && i < ConfidenceLength && t(i) <= t(ConfidenceLength - 2)
    ensures ScanFrom(t, t(ConfidenceLength - 2), i) == 0.0
    decreases ConfidenceLength - i
  {
    if i < ConfidenceLength - 3 {
      TableMonotone(t, i + 2, ConfidenceLength - 2);
      ScanMisses(t, i + 2);
    }
  }

  /** The scan as evidently intended: stop at the first row whose successor's probability
      is at least p, so that p = 0.999 interpolates onto the last row. */
  function ScanFromCorrected(t: nat -> real, p: real, i: nat): (r: real)
    requires Ordered(t)
    requires i % 2 == 0 && i < ConfidenceLength && t(i) <= p
    decreases ConfidenceLength - i
  {
    if i >= ConfidenceLength - 3 then 0.0
    else if t(i + 2) >= p then MathUtil.Map(p, t(i), t(i + 2), t(i + 1), t(i + 3))
    else ScanFromCorrected(t, p, i + 2)
  }

  /** confidenceLookup with the corrected scan. */
  function ConfidenceCorrected(p: real): (r: Result<real>)
  {
    TableAscending();
    if p < 0.05 || p > 0.999 then Err(Runtime(None))
    else if p == 0.95 then Ok(1.959963985)
    else if p == 0.99 then Ok(2.575829304)
    else if p == 0.9 then Ok(1.644853627)
    else Ok(ScanFromCorrected(ConfidenceProbs, p, 0))
  }

  /** The corrected lookup returns every row's quantile at that row's probability, the last
      row included. */
  lemma CorrectedAtRow(j: nat)
    requires j < 36
    ensures ConfidenceCorrected(ConfidenceProbs(2 * j)) == Ok(ConfidenceProbs(2 * j + 1))
  {
    TableAscending();
    SpecialRows(j);
    if j != 22 && j != 26 && j != 17 && j > 0 {
      TableMonotone(ConfidenceProbs, 0, 2 * j);
      CorrectedHit(ConfidenceProbs, j, 0);
    }
  }

  lemma {:induction false} CorrectedHit(t: nat -> real, j: nat, i: nat)
    requires Ordered(t)
    requires 0 < j < 36 && i % 2 == 0 && i <= 2 * j - 2
    requires t(i) <= t(2 * j)
    ensures ScanFromCorrected(t, t(2 * j), i) == t(2 * j + 1)
    decreases 2 * j - i
  {
    if i < 2 * j - 2 {
      TableMonotone(t, i + 2, 2 * j - 2);
      CorrectedHit(t, j, i + 2);
    }
  }
}
