/** PolynomialFunction: a test objective holding a coefficient vector, highest degree first,
    and a variable x that evaluation reads. */
module PolynomialFunction {
  import opened JavaLang

  function Power(x: real, n: nat): real
  {
    if n == 0 then 1.0 else x * Power(x, n - 1)
  }

  /** Sum of c[i] * x^(|c| - 1 - i): c[0] has the highest degree and the last coefficient is
      the constant term. No coefficients is the zero polynomial. */
  function Poly(c: seq<real>, x: real): real
    decreases |c|
  {
    if |c| == 0 then 0.0 else c[0] * Power(x, |c| - 1) + Poly(c[1..], x)
  }

  /** Horner's rule, an independent reading of the same coefficient order. */
  function Horner(c: seq<real>, x: real): real
    decreases |c|
  {
    if |c| == 0 then 0.0 else Horner(c[..|c| - 1], x) * x + c[|c| - 1]
  }

  /** Splitting off the constant term: multiplying the higher terms by x lowers nothing. */
  lemma {:induction false} PolySnoc(c: seq<real>, x: real)
    requires |c| > 0
    ensures Poly(c, x) == Poly(c[..|c| - 1], x) * x + c[|c| - 1]
    decreases |c|
  {
    var n := |c|;
    if n == 1 {
      assert c[1..] == [];
      assert c[..0] == [];
    } else {
      var tail := c[1..];
      var init := c[..n - 1];
      PolySnoc(tail, x);
      assert tail[..|tail| - 1] == init[1..];
      assert init[0] == c[0] && init[1..] == c[1..n - 1];
      assert Poly(tail, x) == Poly(init[1..], x) * x + c[n - 1];
      assert Poly(init, x) == c[0] * Power(x, n - 2) + Poly(init[1..], x);
      Factor(c[0], Power(x, n - 2), Poly(init[1..], x), x);
    }
  }

  lemma Factor(a: real, p: real, t: real, x: real)
    ensures a * (x * p) + t * x == (a * p + t) * x
  {
  }

  /** The term-by-term sum and Horner's rule agree on every coefficient vector. */
  lemma {:induction false} PolyIsHorner(c: seq<real>, x: real)
    ensures Poly(c, x) == Horner(c, x)
    decreases |c|
  {
    if |c| > 0 {
      PolySnoc(c, x);
      PolyIsHorner(c[..|c| - 1], x);
    }
  }

  /** At x = 0 only the last coefficient survives: it is the constant term. */
  lemma {:induction false} PolyAtZero(c: seq<real>)
    ensures Poly(c, 0.0) == if |c| == 0 then 0.0 else c[|c| - 1]
    decreases |c|
  {
    if |c| > 0 {
      PolySnoc(c, 0.0);
    }
  }

  /** A polynomial with n coefficients, all zero but the first, is that coefficient times
      x^(n-1). */
  lemma {:induction false} PolyLeading(c: seq<real>, x: real)
    requires |c| > 0 && forall i | 1 <= i < |c| :: c[i] == 0.0
    ensures Poly(c, x) == c[0] * Power(x, |c| - 1)
  {
    ZeroPoly(c[1..], x);
  }

  lemma {:induction false} ZeroPoly(c: seq<real>, x: real)
    requires forall i | 0 <= i < |c| :: c[i] == 0.0
    ensures Poly(c, x) == 0.0
    decreases |c|
  {
    if |c| > 0 {
      ZeroPoly(c[1..], x);
    }
  }

  class PolynomialFunction {
    const coefficients: array<real>
    var x: real

    /** `PolynomialFunction(double... coefs)`: stores a copy of the coefficients. */
    constructor (coefs: array<real>)
      ensures fresh(coefficients) && coefficients[..] == coefs[..]
      ensures x == 0.0
    {
      x := 0.0;
      coefficients := new real[coefs.Length](i requires 0 <= i < coefs.Length reads coefs => coefs[i]);
    }

    /** `getValue()`: accumulates the terms from the constant upwards, raising the power of
        x one step at a time. */
    method GetValue() returns (value: real)
      ensures value == Poly(coefficients[..], x)
    {
      var c := coefficients[..];
      value := 0.0;
      var pow := 1.0;
      var i := coefficients.Length - 1;
      while i >= 0
        invariant -1 <= i < coefficients.Length
        invariant value == Poly(c[i + 1..], x)
        invariant pow == Power(x, coefficients.Length - 1 - i)
      {
        assert c[i..][1..] == c[i + 1..];
        value := value + coefficients[i] * pow;
        pow := pow * x;
        i := i - 1;
      }
      assert c[0..] == c;
    }

    /** `getValue(float input)`: evaluates at input with x temporarily set to it, then puts the
        previous x back. */
    method GetValueAt(input: real) returns (res: real)
      modifies this
      ensures res == Poly(coefficients[..], input)
      ensures x == old(x)
    {
      var oldX := x;
      x := input;
      res := GetValue();
      x := oldX;
    }

    /** `value(double[] point)`: evaluates at point[0]; an empty point throws
        ArrayIndexOutOfBoundsException. The rest of the point is ignored and x is unchanged. */
    method Value(point: array<real>) returns (res: Result<real>)
      modifies this
      ensures point.Length == 0 ==> res == Err(ArrayIndexOutOfBounds)
      ensures point.Length > 0 ==> res == Ok(Poly(coefficients[..], point[0]))
      ensures x == old(x)
    {
      if point.Length == 0 {
        return Err(ArrayIndexOutOfBounds);
      }
      var v := GetValueAt(point[0]);
      return Ok(v);
    }
  }
}
