/** The running folds the library keeps over a sequence of doubles: the total, product and
    sum of squares, and the minimum and maximum seeded with Double.MAX_VALUE and
    -Double.MAX_VALUE and replaced only by a strictly smaller (larger) element. Each is
    written as a fold over the last element, the order in which the loops accumulate. */
module Stats {
  import opened JavaNum

  function Sum(s: seq<real>): real
  {
    if |s| == 0 then 0.0 else Sum(s[..|s| - 1]) + s[|s| - 1]
  }

  function Product(s: seq<real>): real
  {
    if |s| == 0 then 1.0 else Product(s[..|s| - 1]) * s[|s| - 1]
  }

  function SumOfSquares(s: seq<real>): real
  {
    if |s| == 0 then 0.0 else SumOfSquares(s[..|s| - 1]) + s[|s| - 1] * s[|s| - 1]
  }

  /** The running minimum: no greater than Double.MAX_VALUE and than any element. */
  function MinOf(s: seq<real>): (m: real)
    ensures m <= DoubleMax
    ensures forall k | 0 <= k < |s| :: m <= s[k]
    ensures |s| == 0 ==> m == DoubleMax
  {
    if |s| == 0 then DoubleMax
    else
      var m := MinOf(s[..|s| - 1]);
      if s[|s| - 1] < m then s[|s| - 1] else m
  }

  /** The running maximum: no less than -Double.MAX_VALUE and than any element. */
  function MaxOf(s: seq<real>): (m: real)
    ensures -DoubleMax <= m
    ensures forall k | 0 <= k < |s| :: s[k] <= m
    ensures |s| == 0 ==> m == -DoubleMax
  {
    if |s| == 0 then -DoubleMax
    else
      var m := MaxOf(s[..|s| - 1]);
      if s[|s| - 1] > m then s[|s| - 1] else m
  }

  /** Each fold advanced by one more element, as the running fields are updated. */
  lemma FoldsAppend(s: seq<real>, x: real)
    ensures Sum(s + [x]) == Sum(s) + x
    ensures Product(s + [x]) == Product(s) * x
    ensures SumOfSquares(s + [x]) == SumOfSquares(s) + x * x
    ensures MinOf(s + [x]) == if x < MinOf(s) then x else MinOf(s)
    ensures MaxOf(s + [x]) == if x > MaxOf(s) then x else MaxOf(s)
  {
    assert (s + [x])[..|s|] == s;
  }

  /** The total advanced by one more element. */
  lemma SumAppend(s: seq<real>, x: real)
    ensures Sum(s + [x]) == Sum(s) + x
  {
    assert (s + [x])[..|s|] == s;
  }

  /** Every element is a finite double. */
  predicate AllFinite(s: seq<real>)
  {
    forall k | 0 <= k < |s| :: IsFinite(s[k])
  }

  /** The minimum of a non-empty sequence of finite doubles is one of its elements. */
  lemma {:induction false} MinOfMember(s: seq<real>)
    ensures |s| > 0 && AllFinite(s) ==> MinOf(s) in s
    decreases |s|
  {
    if |s| > 1 && AllFinite(s) {
      var init := s[..|s| - 1];
      assert AllFinite(init);
      MinOfMember(init);
      assert MinOf(init) in init;
    }
  }

  /** The maximum of a non-empty sequence of finite doubles is one of its elements. */
  lemma {:induction false} MaxOfMember(s: seq<real>)
    ensures |s| > 0 && AllFinite(s) ==> MaxOf(s) in s
    decreases |s|
  {
    if |s| > 1 && AllFinite(s) {
      var init := s[..|s| - 1];
      assert AllFinite(init);
      MaxOfMember(init);
      assert MaxOf(init) in init;
    }
  }

  /** n elements each at least c total at least n * c. */
  lemma {:induction false} SumAtLeast(s: seq<real>, c: real)
    requires forall k | 0 <= k < |s| :: c <= s[k]
    ensures |s| as real * c <= Sum(s)
    decreases |s|
  {
    if |s| > 0 {
      var init := s[..|s| - 1];
      SumAtLeast(init, c);
      Step(|init| as real, |s| as real, c);
    }
  }

  /** n elements each at most c total at most n * c. */
  lemma {:induction false} SumAtMost(s: seq<real>, c: real)
    requires forall k | 0 <= k < |s| :: s[k] <= c
    ensures Sum(s) <= |s| as real * c
    decreases |s|
  {
    if |s| > 0 {
      var init := s[..|s| - 1];
      SumAtMost(init, c);
      Step(|init| as real, |s| as real, c);
    }
  }

  lemma Step(n: real, n1: real, c: real)
    requires n1 == n + 1.0
    ensures n1 * c == n * c + c
  {
  }

  /** The arithmetic mean of a non-empty sequence lies between its minimum and maximum. */
  lemma MeanBetween(s: seq<real>)
    requires |s| > 0
    ensures MinOf(s) <= Sum(s) / |s| as real <= MaxOf(s)
  {
    MeanAtLeast(s, MinOf(s));
    MeanAtMost(s, MaxOf(s));
  }

  lemma MeanAtLeast(s: seq<real>, c: real)
    requires |s| > 0 && forall k | 0 <= k < |s| :: c <= s[k]
    ensures c <= Sum(s) / |s| as real
  {
    SumAtLeast(s, c);
    QuotientAtLeast(Sum(s), |s| as real, c);
  }

  lemma MeanAtMost(s: seq<real>, c: real)
    requires |s| > 0 && forall k | 0 <= k < |s| :: s[k] <= c
    ensures Sum(s) / |s| as real <= c
  {
    SumAtMost(s, c);
    QuotientAtMost(Sum(s), |s| as real, c);
  }

  lemma QuotientAtLeast(total: real, n: real, lo: real)
    requires 0.0 < n && n * lo <= total
    ensures lo <= total / n
  {
    var q := total / n;
    assert q * n == total;
    if q < lo {
      PosProduct(n, lo - q);
    }
  }

  lemma QuotientAtMost(total: real, n: real, hi: real)
    requires 0.0 < n && total <= n * hi
    ensures total / n <= hi
  {
    var q := total / n;
    assert q * n == total;
    if q > hi {
      PosProduct(n, q - hi);
    }
  }

  /** The squared deviations of s from any x add up to a non-negative amount. */
  lemma {:induction false} DeviationsNonNeg(s: seq<real>, x: real)
    ensures 0.0 <= SumOfSquares(s) - 2.0 * x * Sum(s) + |s| as real * x * x
    decreases |s|
  {
    if |s| > 0 {
      var init := s[..|s| - 1];
      var y := s[|s| - 1];
      DeviationsNonNeg(init, x);
      DeviationStep(SumOfSquares(init), Sum(init), |init| as real, y, x);
      SquareNonNeg(y - x);
    }
  }

  lemma SquareNonNeg(d: real)
    ensures 0.0 <= d * d
  {
    if d < 0.0 {
      NonNegProduct(-d, -d);
    } else {
      NonNegProduct(d, d);
    }
  }

  lemma DeviationStep(q: real, t: real, n: real, y: real, x: real)
    ensures (q + y * y) - 2.0 * x * (t + y) + (n + 1.0) * x * x
            == (q - 2.0 * x * t + n * x * x) + (y - x) * (y - x)
  {
  }

  /** The sum of the squared deviations (y - m) * (y - m) of the elements y of s from m. */
  function SqDev(s: seq<real>, m: real): real
  {
    if |s| == 0 then 0.0 else SqDev(s[..|s| - 1], m) + (s[|s| - 1] - m) * (s[|s| - 1] - m)
  }

  /** The squared deviations expand into the running folds: the sum of squares, the total
      and the count are all a summary needs to know them about any centre m. */
  lemma {:induction false} SqDevSums(s: seq<real>, m: real)
    ensures SqDev(s, m) == SumOfSquares(s) - 2.0 * m * Sum(s) + |s| as real * m * m
    decreases |s|
  {
    if |s| > 0 {
      var init := s[..|s| - 1];
      var y := s[|s| - 1];
      SqDevSums(init, m);
      DeviationStep(SumOfSquares(init), Sum(init), |init| as real, y, m);
    }
  }

  /** The square of the total never exceeds the count times the sum of squares, which makes
      the unbiased variance estimate non-negative. */
  lemma {:induction false} SpreadNonNeg(s: seq<real>)
    ensures Sum(s) * Sum(s) <= |s| as real * SumOfSquares(s)
    decreases |s|
  {
    if |s| > 0 {
      var init := s[..|s| - 1];
      var y := s[|s| - 1];
      SpreadNonNeg(init);
      DeviationsNonNeg(init, y);
      SpreadStep(|init| as real, Sum(init), SumOfSquares(init), y);
    }
  }

  lemma SpreadStep(n: real, t: real, q: real, y: real)
    ensures (n + 1.0) * (q + y * y) - (t + y) * (t + y)
            == (n * q - t * t) + (q - 2.0 * y * t + n * y * y)
  {
  }
}
