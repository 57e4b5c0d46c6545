/** Spinner: picks an index at random with the given weights, through the running totals of the
    weights and one uniform draw. The draw `Math.random()` is a parameter, in [0, 1). The float
    overloads are the double ones here (float rounding is not represented), except
    normalizedSpinner, whose two overloads treat a zero total differently. */
module Spinner {
  import opened JavaLang
  import opened Stats

  /** The totals spinner writes into its auxiliary array: entry i is the total of the weights
      before index i. */
  function PrefixSums(p: seq<real>): (r: seq<real>)
    ensures |r| == |p|
  {
    seq(|p|, i requires 0 <= i < |p| => Sum(p[..i]))
  }

  /** The count-down loop of spinner: the largest index i in [1, n) whose total r has reached,
      else 0. */
  function Select(mins: seq<real>, n: nat, r: real): (i: nat)
    requires n <= |mins|
    ensures i == 0 || i < n
    ensures 0 < i ==> mins[i] <= r
  {
    if n <= 1 then 0 else if r >= mins[n - 1] then n - 1 else Select(mins, n - 1, r)
  }

  /** Index of the first negative weight, or |p| when there is none. */
  function FirstNegative(p: seq<real>): (k: nat)
    ensures k <= |p|
    ensures forall i | 0 <= i < k :: 0.0 <= p[i]
    ensures k < |p| ==> p[k] < 0.0
  {
    if |p| == 0 then 0 else if p[0] < 0.0 then 0 else FirstNegative(p[1..]) + 1
  }

  /** What `spinner(aux, probs)` returns for weights p and draw r, when aux is long enough and
      is not the weights array itself. */
  function Spun(p: seq<real>, r: real): (res: Result<int>)
  {
    if FirstNegative(p) < |p| then Err(IllegalArgument) else Ok(Select(PrefixSums(p), |p|, r))
  }

  /** `spinner(auxiliaryArray, probabilities)`. The running totals go into aux (also when a
      negative weight then aborts: the entries before it are already written); entries at or past
      probs.Length are untouched. When aux is the weights array itself, each weight is
      overwritten by the total before it is added, so every total stays 0. */
  method Spin(aux: array<real>, probs: array<real>, randomNumber: real) returns (res: Result<int>)
    modifies aux
    ensures aux.Length < probs.Length ==> res == Err(IllegalArgument) && aux[..] == old(aux[..])
    ensures aux.Length >= probs.Length && aux != probs ==>
              var p := old(probs[..]);
              var k := FirstNegative(p);
              res == Spun(p, randomNumber)
              && aux[..k] == PrefixSums(p)[..k]
              && aux[probs.Length..] == old(aux[probs.Length..])
              && (k == |p| ==> aux[..probs.Length] == PrefixSums(p))
              && (k < |p| ==> aux[k..] == old(aux[k..]))
    ensures aux == probs ==>
              var p := old(probs[..]);
              var k := FirstNegative(p);
              (k < |p| ==> res == Err(IllegalArgument)
                           && aux[..k] == seq(k, _ => 0.0) && aux[k..] == old(aux[k..]))
              && (k == |p| ==> aux[..] == seq(|p|, _ => 0.0)
                               && res == Ok(if |p| >= 2 && randomNumber >= 0.0 then |p| - 1 else 0))
  {
    if aux.Length < probs.Length {
      return Err(IllegalArgument);
    }
    var k := FillTotals(aux, probs);
    if k < probs.Length {
      if aux == probs {
        assert aux[..k] == seq(k, _ => 0.0);
      }
      return Err(IllegalArgument);
    }
    var selected := Choose(aux, probs.Length, randomNumber);
    if aux != probs {
      assert aux[..probs.Length] == PrefixSums(old(probs[..]));
    }
    if aux == probs {
      assert aux[..] == seq(probs.Length, _ => 0.0);
      if probs.Length >= 2 {
        ZeroTotals(aux[..], probs.Length, randomNumber);
      }
    }
    res := Ok(selected);
  }

  /** The totals loop of spinner: writes the running totals into mins until the first negative
      weight, whose index it returns (probs.Length when there is none). When mins and probs are
      one array every read of a weight after its slot is written sees the total written there;
      the two cases are proved separately. */
  method FillTotals(mins: array<real>, probs: array<real>) returns (k: nat)
    requires probs.Length <= mins.Length
    modifies mins
    ensures k == FirstNegative(old(probs[..]))
    ensures mins[k..] == old(mins[k..])
    ensures mins != probs ==> mins[..k] == PrefixSums(old(probs[..]))[..k]
    ensures mins == probs ==> forall j | 0 <= j < k :: mins[j] == 0.0
  {
    if mins == probs {
      k := FillTotalsInPlace(mins);
    } else {
      k := FillTotalsApart(mins, probs);
    }
  }

  /** The totals loop when mins and probs are distinct arrays. */
  method FillTotalsApart(mins: array<real>, probs: array<real>) returns (k: nat)
    requires probs.Length <= mins.Length && mins != probs
    modifies mins
    ensures k == FirstNegative(probs[..])
    ensures mins[k..] == old(mins[k..])
    ensures mins[..k] == PrefixSums(probs[..])[..k]
  {
    ghost var p := probs[..];
    ghost var a := mins[..];
    var sum := 0.0;
    var i := 0;
    while i < probs.Length
      invariant 0 <= i <= probs.Length
      invariant probs[..] == p
      invariant forall j | 0 <= j < i :: 0.0 <= p[j]
      invariant forall j | i <= j < mins.Length :: mins[j] == a[j]
      invariant sum == Sum(p[..i])
      invariant forall j | 0 <= j < i :: mins[j] == Sum(p[..j])
    {
      if probs[i] < 0.0 {
        NoNegativeBefore(p, i);
        assert mins[i..] == a[i..];
        return i;
      }
      SumSlice(p, i + 1);
      mins[i] := sum;
      sum := sum + probs[i];
      i := i + 1;
    }
    NoNegativeBefore(p, i);
    k := i;
    assert mins[k..] == a[k..];
    TotalsPrefix(mins[..], p, k);
  }

  /** Values that are, index by index, the totals of the weights before them form a prefix of
      the running totals. */
  lemma TotalsPrefix(m: seq<real>, p: seq<real>, k: nat)
    requires k <= |m| && k <= |p|
    requires forall j | 0 <= j < k :: m[j] == Sum(p[..j])
    ensures m[..k] == PrefixSums(p)[..k]
  {
  }

  /** The totals loop when mins and probs are one array: each slot is tested, then overwritten
      with the running total, which stays 0 because every weight read back is a total. */
  method FillTotalsInPlace(probs: array<real>) returns (k: nat)
    modifies probs
    ensures k == FirstNegative(old(probs[..]))
    ensures probs[k..] == old(probs[k..])
    ensures forall j | 0 <= j < k :: probs[j] == 0.0
  {
    ghost var p := probs[..];
    var sum := 0.0;
    var i := 0;
    while i < probs.Length
      invariant 0 <= i <= probs.Length
      invariant forall j | 0 <= j < i :: 0.0 <= p[j]
      invariant forall j | i <= j < probs.Length :: probs[j] == p[j]
      invariant sum == 0.0
      invariant forall j | 0 <= j < i :: probs[j] == 0.0
    {
      if probs[i] < 0.0 {
        NoNegativeBefore(p, i);
        assert probs[i..] == p[i..];
        return i;
      }
      probs[i] := sum;
      sum := sum + probs[i];
      i := i + 1;
    }
    NoNegativeBefore(p, i);
    k := i;
    assert probs[k..] == p[k..];
  }

  /** When index i is the first negative weight met, it is the first negative weight. */
  lemma NoNegativeBefore(p: seq<real>, i: nat)
    requires i <= |p| && forall j | 0 <= j < i :: 0.0 <= p[j]
    ensures i < |p| && p[i] < 0.0 ==> FirstNegative(p) == i
    ensures i == |p| ==> FirstNegative(p) == |p|
  {
  }

  /** With every total 0 and a draw of at least 0, the count-down stops at the last index. */
  lemma ZeroTotals(mins: seq<real>, n: nat, r: real)
    requires 2 <= n <= |mins| && forall j | 0 <= j < n :: mins[j] == 0.0
    ensures Select(mins, n, r) == if r >= 0.0 then n - 1 else 0
  {
    if r < 0.0 {
      ZeroTotalsBelow(mins, n, r);
    }
  }

  lemma {:induction false} ZeroTotalsBelow(mins: seq<real>, n: nat, r: real)
    requires n <= |mins| && forall j | 0 <= j < n :: mins[j] == 0.0
    requires r < 0.0
    ensures Select(mins, n, r) == 0
    decreases n
  {
    if n > 1 {
      ZeroTotalsBelow(mins, n - 1, r);
    }
  }

  /** The count-down loop over the first n totals. */
  method Choose(mins: array<real>, n: nat, randomNumber: real) returns (k: nat)
    requires n <= mins.Length
    ensures k == Select(mins[..n], n, randomNumber)
  {
    if n == 0 {
      return 0;
    }
    ghost var m := mins[..n];
    var i := n - 1;
    while i > 0
      invariant 0 <= i < n
      invariant Select(m, n, randomNumber) == Select(m, i + 1, randomNumber)
    {
      if randomNumber >= mins[i] {
        return i;
      }
      i := i - 1;
    }
    k := 0;
  }

  /** `spinner(probabilities)`: spinner with an auxiliary array of its own. */
  method SpinFresh(probs: array<real>, randomNumber: real) returns (res: Result<int>)
    ensures res == Spun(probs[..], randomNumber)
  {
    var mins := new real[probs.Length](_ => 0.0);
    res := Spin(mins, probs, randomNumber);
  }

  /** `spinner(List<Double>)`: the list copied into an array, then spinner. */
  method SpinList(probs: seq<real>, randomNumber: real) returns (res: Result<int>)
    ensures res == Spun(probs, randomNumber)
  {
    var mins := new real[|probs|](_ => 0.0);
    var i := 0;
    while i < |probs|
      modifies mins
      invariant 0 <= i <= |probs|
      invariant mins[..i] == probs[..i]
    {
      mins[i] := probs[i];
      assert mins[..i + 1] == mins[..i] + [mins[i]];
      assert probs[..i + 1] == probs[..i] + [probs[i]];
      i := i + 1;
    }
    assert mins[..] == mins[..i] && probs[..i] == probs;
    res := SpinFresh(mins, randomNumber);
  }

  /** Every weight divided by the total. */
  function Normalized(p: seq<real>, sum: real): (q: seq<real>)
    requires sum != 0.0
    ensures |q| == |p| && forall i | 0 <= i < |q| :: q[i] * sum == p[i]
  {
    seq(|p|, i requires 0 <= i < |p| => p[i] / sum)
  }

  /** The weights that a zero total of n weights is replaced with, each 1 over n after
      normalising. */
  function Uniform(n: nat): (q: seq<real>)
    requires n > 0
    ensures |q| == n
  {
    seq(n, _ => 1.0 / n as real)
  }

  /** `normalizedSpinner(double...)`: the weights divided by their total, then spinner. A total of
      exactly 0, whatever the signs of the weights, is replaced by equal weights; with no weights
      at all that replacement calls itself again forever, a StackOverflowError. A negative total
      is an IllegalArgumentException. The weights array is not changed. */
  method NormalizedSpin(probs: array<real>, randomNumber: real) returns (res: Result<int>)
    ensures Sum(probs[..]) == 0.0 && probs.Length == 0 ==> res == Err(StackOverflow)
    ensures Sum(probs[..]) == 0.0 && probs.Length > 0 ==> res == Spun(Uniform(probs.Length), randomNumber)
    ensures Sum(probs[..]) < 0.0 ==> res == Err(IllegalArgument)
    ensures Sum(probs[..]) > 0.0 ==> res == Spun(Normalized(probs[..], Sum(probs[..])), randomNumber)
    decreases if Sum(probs[..]) == 0.0 then 1 else 0
  {
    var sum := Total(probs);
    if sum == 0.0 {
      if probs.Length == 0 {
        return Err(StackOverflow);
      }
      var arr := new real[probs.Length](_ => 1.0);
      OnesSum(arr[..]);
      assert Sum(arr[..]) != 0.0;
      res := NormalizedSpin(arr, randomNumber);
      assert Normalized(arr[..], Sum(arr[..])) == Uniform(probs.Length);
      return;
    } else if sum < 0.0 {
      return Err(IllegalArgument);
    }
    var normProbs := NormalizeInto(probs, sum);
    res := SpinFresh(normProbs, randomNumber);
  }

  /** `normalizedSpinner(float...)`: as the double version, except that a zero total is an
      IllegalArgumentException. */
  method NormalizedSpinFloat(probs: array<real>, randomNumber: real) returns (res: Result<int>)
    ensures Sum(probs[..]) <= 0.0 ==> res == Err(IllegalArgument)
    ensures Sum(probs[..]) > 0.0 ==> res == Spun(Normalized(probs[..], Sum(probs[..])), randomNumber)
  {
    var sum := Total(probs);
    if sum == 0.0 {
      return Err(IllegalArgument);
    } else if sum < 0.0 {
      return Err(IllegalArgument);
    }
    var normProbs := NormalizeInto(probs, sum);
    res := SpinFresh(normProbs, randomNumber);
  }

  /** `normalizedSpinner(List<Double>)`: the list copied into an array, then the double version. */
  method NormalizedSpinList(probs: seq<real>, randomNumber: real) returns (res: Result<int>)
    ensures Sum(probs) == 0.0 && |probs| == 0 ==> res == Err(StackOverflow)
    ensures Sum(probs) == 0.0 && |probs| > 0 ==> res == Spun(Uniform(|probs|), randomNumber)
    ensures Sum(probs) < 0.0 ==> res == Err(IllegalArgument)
    ensures Sum(probs) > 0.0 ==> res == Spun(Normalized(probs, Sum(probs)), randomNumber)
  {
    var mins := new real[|probs|](_ => 0.0);
    var i := 0;
    while i < |probs|
      modifies mins
      invariant 0 <= i <= |probs|
      invariant mins[..i] == probs[..i]
    {
      mins[i] := probs[i];
      assert mins[..i + 1] == mins[..i] + [mins[i]];
      assert probs[..i + 1] == probs[..i] + [probs[i]];
      i := i + 1;
    }
    assert mins[..] == mins[..i] && probs[..i] == probs;
    res := NormalizedSpin(mins, randomNumber);
  }

  /** The summing loop shared by both normalizedSpinner overloads. */
  method Total(probs: array<real>) returns (sum: real)
    ensures sum == Sum(probs[..])
  {
    sum := 0.0;
    var i := 0;
    while i < probs.Length
      invariant 0 <= i <= probs.Length
      invariant sum == Sum(probs[..i])
    {
      assert probs[..i + 1][..i] == probs[..i];
      sum := sum + probs[i];
      i := i + 1;
    }
    assert probs[..i] == probs[..];
  }

  /** The normalising loop: a new array of each weight over the total. */
  method NormalizeInto(probs: array<real>, sum: real) returns (normProbs: array<real>)
    requires sum != 0.0
    ensures fresh(normProbs) && normProbs[..] == Normalized(probs[..], sum)
  {
    normProbs := new real[probs.Length](_ => 0.0);
    var i := 0;
    while i < probs.Length
      modifies normProbs
      invariant 0 <= i <= probs.Length
      invariant forall j | 0 <= j < i :: normProbs[j] == probs[j] / sum
    {
      normProbs[i] := probs[i] / sum;
      i := i + 1;
    }
  }

  lemma {:induction false} OnesSum(s: seq<real>)
    requires forall i | 0 <= i < |s| :: s[i] == 1.0
    ensures Sum(s) == |s| as real
    decreases |s|
  {
    if |s| > 0 {
      OnesSum(s[..|s| - 1]);
    }
  }

  /** Running totals of non-negative weights never decrease. */
  lemma {:induction false} PrefixSumsAscending(p: seq<real>, i: nat, j: nat)
    requires forall k | 0 <= k < |p| :: 0.0 <= p[k]
    requires i <= j < |p|
    ensures PrefixSums(p)[i] <= PrefixSums(p)[j]
    decreases j - i
  {
    if i < j {
      PrefixSumsAscending(p, i, j - 1);
      assert p[..j] == p[..j - 1] + [p[j - 1]];
      SumAppend(p[..j - 1], p[j - 1]);
    }
  }

  /** The interval rule: for non-negative weights and a draw r of at least 0, index k is picked
      exactly when r has reached the total before k and not the total before k + 1; the last
      index takes every draw from its total upward, so a total below 1 leaves the remainder to
      it. */
  lemma SpunInterval(p: seq<real>, r: real, k: nat)
    requires FirstNegative(p) == |p| && 0.0 <= r && k < |p|
    ensures Spun(p, r) == Ok(k) <==>
              PrefixSums(p)[k] <= r && (k == |p| - 1 || r < PrefixSums(p)[k + 1])
  {
    var m := PrefixSums(p);
    assert m[0] == 0.0 by { assert p[..0] == []; }
    SelectInterval(p, |p|, r, k);
  }

  lemma {:induction false} SelectInterval(p: seq<real>, n: nat, r: real, k: nat)
    requires FirstNegative(p) == |p| && 0.0 <= r && k < n <= |p|
    requires PrefixSums(p)[0] == 0.0
    ensures Select(PrefixSums(p), n, r) == k <==>
              PrefixSums(p)[k] <= r && (k == n - 1 || r < PrefixSums(p)[k + 1])
    decreases n
  {
    var m := PrefixSums(p);
    if n > 1 {
      if r >= m[n - 1] {
        if k < n - 1 {
          PrefixSumsAscending(p, k + 1, n - 1);
        }
      } else if k < n - 1 {
        SelectInterval(p, n - 1, r, k);
      }
    }
  }

  /** Weights past a total of 1 are discarded: with a draw below 1, no index whose preceding
      total is 1 or more is ever picked. */
  lemma ExcessDiscarded(p: seq<real>, r: real, k: nat)
    requires FirstNegative(p) == |p| && 0.0 <= r < 1.0 && k < |p|
    requires 1.0 <= PrefixSums(p)[k]
    ensures Spun(p, r) != Ok(k)
  {
    SpunInterval(p, r, k);
  }

  /** Any draw in [0, 1) over non-negative weights picks an index of the array; an empty array
      gives 0. */
  lemma SpunInRange(p: seq<real>, r: real)
    requires FirstNegative(p) == |p|
    ensures Spun(p, r).Ok?
    ensures |p| == 0 ==> Spun(p, r) == Ok(0)
    ensures |p| > 0 ==> 0 <= Spun(p, r).value < |p|
  {
  }

  /** The running totals of the normalised weights are the totals of the weights over their
      total, so normalizedSpinner picks k exactly when r times the total falls in k's share. */
  lemma {:induction false} NormalizedTotals(p: seq<real>, sum: real, i: nat)
    requires sum != 0.0 && i <= |p|
    ensures Sum(Normalized(p, sum)[..i]) * sum == Sum(p[..i])
    decreases i
  {
    var q := Normalized(p, sum);
    if i == 0 {
      assert q[..0] == [] && p[..0] == [];
    } else {
      NormalizedTotals(p, sum, i - 1);
      SumSlice(q, i);
      SumSlice(p, i);
      Scaled(Sum(q[..i]), Sum(q[..i - 1]), q[i - 1], Sum(p[..i]), Sum(p[..i - 1]), p[i - 1], sum);
    }
  }

  /** The total of the first i weights is that of the first i - 1 plus weight i - 1. */
  lemma SumSlice(s: seq<real>, i: nat)
    requires 0 < i <= |s|
    ensures Sum(s[..i]) == Sum(s[..i - 1]) + s[i - 1]
  {
    assert s[..i][..i - 1] == s[..i - 1];
  }

  /** Scaling distributes over one more addend: from a * c == b and x * c == y, the totals
      u == a + x and v == b + y keep u * c == v. */
  lemma Scaled(u: real, a: real, x: real, v: real, b: real, y: real, c: real)
    requires u == a + x && v == b + y && a * c == b && x * c == y
    ensures u * c == v
  {
  }
}
