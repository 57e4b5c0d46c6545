/** MathUtil: linear range mapping, and the fractile of an array it sorts in place. */
module MathUtil {
  import opened JavaLang
  import opened JavaNum
  import Sorting

  /** x lies between a and b, whichever of the two is larger. */
  predicate Between(x: real, a: real, b: real)
  {
    (a <= x <= b) || (b <= x <= a)
  }

  /** `map(val, fromMin, fromMax, toMin, toMax)`: the affine map sending fromMin to toMin and
      fromMax to toMax. With fromMax == fromMin Java divides by zero and yields NaN or an
      infinity, which reals do not have, so that case is excluded. */
  function Map(val: real, fromMin: real, fromMax: real, toMin: real, toMax: real): (r: real)
    requires fromMax != fromMin
    ensures val == fromMin ==> r == toMin
    ensures val == fromMax ==> r == toMax
  {
    SelfQuotient(fromMax - fromMin);
    var mult := (val - fromMin) / (fromMax - fromMin);
    toMin + mult * (toMax - toMin)
  }

  lemma SelfQuotient(d: real)
    requires d != 0.0
    ensures d / d == 1.0
  {
  }

  /** Mapping a point of [0, 1] onto [a, b] gives a point between a and b. */
  lemma MapUnitBetween(t: real, a: real, b: real)
    requires 0.0 <= t <= 1.0
    ensures Between(Map(t, 0.0, 1.0, a, b), a, b)
  {
    var r := Map(t, 0.0, 1.0, a, b);
    assert r == a + t * (b - a);
    if a <= b {
      assert 0.0 <= t * (b - a) by { NonNegProduct(t, b - a); }
      assert t * (b - a) <= b - a by { NonNegProduct(1.0 - t, b - a); }
    } else {
      assert 0.0 <= t * (a - b) by { NonNegProduct(t, a - b); }
      assert t * (a - b) <= a - b by { NonNegProduct(1.0 - t, a - b); }
    }
  }

  /** Mapping a point of [fromMin, fromMax] gives a point between toMin and toMax. */
  lemma MapBetween(val: real, fromMin: real, fromMax: real, toMin: real, toMax: real)
    requires fromMin < fromMax && fromMin <= val <= fromMax
    ensures Between(Map(val, fromMin, fromMax, toMin, toMax), toMin, toMax)
  {
    var w := fromMax - fromMin;
    var t := (val - fromMin) / w;
    assert 0.0 <= t by { QuotientNonNeg(val - fromMin, w); }
    assert t <= 1.0 by {
      assert t * w == val - fromMin;
      if t > 1.0 {
        PosProduct(t - 1.0, w);
      }
    }
    assert Map(val, fromMin, fromMax, toMin, toMax) == Map(t, 0.0, 1.0, toMin, toMax);
    MapUnitBetween(t, toMin, toMax);
  }

  lemma QuotientNonNeg(x: real, y: real)
    requires 0.0 <= x && 0.0 < y
    ensures 0.0 <= x / y
  {
  }

  lemma QuotientOfDifference(x: real, y: real, z: real)
    requires z != 0.0
    ensures (x - y) / z == x / z - y / z
  {
  }

  lemma ScaledQuotient(x: real, y: real, z: real)
    requires z != 0.0
    ensures x * (y / z) == (x * y) / z
  {
    var u := y / z;
    assert u * z == y;
    assert (x * u) * z == x * y;
  }

  lemma QuotientOfQuotient(x: real, y: real, z: real)
    requires y != 0.0 && z != 0.0
    ensures (x / y) / z == x / (y * z)
  {
    var u := x / y;
    var w := u / z;
    assert u * y == x;
    assert w * z == u;
    assert w * (y * z) == x;
  }

  /** The value findFractile computes from the already sorted array s: the position
      fract * (n - 1), then the reading at that position. */
  function Fractile(fract: real, s: seq<real>): (r: Result<real>)
  {
    ReadAt(Position(fract, |s|), s)
  }

  /** The reading of s at real position dindex: its integer part indexLo (an int cast) and
      indexHi = indexLo + 1 (int arithmetic), indexLo raised to 0 and indexHi lowered to
      n - 1, then linear interpolation between s[indexLo] and s[indexHi] by the residue.
      An index still outside the array is Java's ArrayIndexOutOfBoundsException. */
  function ReadAt(dindex: real, s: seq<real>): (r: Result<real>)
  {
    var n := |s|;
    var lo0 := DoubleToInt(dindex);
    var hi0 := WrapInt(lo0 + 1);
    var lo := if lo0 < 0 then 0 else lo0;
    var hi := if hi0 > n - 1 then n - 1 else hi0;
    var resid := dindex - lo as real;
    if 0 <= lo < n && 0 <= hi < n then Ok(Map(resid, 0.0, 1.0, s[lo], s[hi]))
    else Err(ArrayIndexOutOfBounds)
  }

  /** `findFractile(fract, vals)`: sorts vals in place (Arrays.sort), then reads the fractile
      of the sorted contents. */
  method FindFractile(fract: real, vals: array<real>) returns (r: Result<real>)
    modifies vals
    ensures vals[..] == Sorting.SortedCopy(old(vals[..]))
    ensures r == Fractile(fract, vals[..])
  {
    var sorted := Sorting.SortedCopy(vals[..]);
    forall i | 0 <= i < vals.Length {
      vals[i] := sorted[i];
    }
    assert vals[..] == sorted;
    r := Fractile(fract, vals[..]);
  }

  /** The 0-fractile of a non-empty sorted array is its first (least) element. */
  lemma FractileZero(s: seq<real>)
    requires |s| > 0
    ensures Fractile(0.0, s) == Ok(s[0])
  {
    assert Position(0.0, |s|) == 0.0;
  }

  /** The 1-fractile of a non-empty sorted array is its last (greatest) element: indexHi is
      clamped back to the last index. */
  lemma FractileOne(s: seq<real>)
    requires 0 < |s| <= IntMax
    ensures Fractile(1.0, s) == Ok(s[|s| - 1])
  {
    var d := Position(1.0, |s|);
    assert d == (|s| - 1) as real;
    assert DoubleToInt(d) == |s| - 1;
    assert ReadAt(d, s) == Ok(Map(0.0, 0.0, 1.0, s[|s| - 1], s[|s| - 1]));
  }

  /** At a position d in [0, n - 1] the reading exists and lies between the two
      neighbouring elements s[indexLo] and s[indexHi], with indexHi = min(indexLo + 1, n - 1). */
  lemma ReadAtBetween(d: real, s: seq<real>)
    requires 0.0 <= d <= (|s| - 1) as real
    requires |s| <= IntMax
    ensures ReadAt(d, s).Ok?
    ensures
      var lo := Truncate(d);
      var hi := if lo + 1 > |s| - 1 then |s| - 1 else lo + 1;
      0 <= lo <= hi < |s| && Between(ReadAt(d, s).value, s[lo], s[hi])
  {
    var n := |s|;
    var lo := Truncate(d);
    assert DoubleToInt(d) == lo;
    assert WrapInt(lo + 1) == lo + 1;
    var hi := if lo + 1 > n - 1 then n - 1 else lo + 1;
    var resid := d - lo as real;
    MapUnitBetween(resid, s[lo], s[hi]);
  }

  /** The position fract * (n - 1) at which findFractile reads an array of n elements. */
  function Position(fract: real, n: nat): (d: real)
    ensures n > 0 && 0.0 <= fract <= 1.0 ==> 0.0 <= d <= (n - 1) as real
  {
    var m := (n - 1) as real;
    var d := Map(fract, 0.0, 1.0, 0.0, m);
    if n > 0 then UnitScale(fract, m); d else d
  }

  /** For fract in [0, 1] the fractile of a non-empty array exists and lies between the two
      neighbouring elements around position fract * (n - 1). */
  lemma FractileBetween(fract: real, s: seq<real>)
    requires 0.0 <= fract <= 1.0
    requires 0 < |s| <= IntMax
    ensures Fractile(fract, s).Ok?
    ensures
      var lo := Truncate(Position(fract, |s|));
      var hi := if lo + 1 > |s| - 1 then |s| - 1 else lo + 1;
      0 <= lo <= hi < |s| && Between(Fractile(fract, s).value, s[lo], s[hi])
  {
    ReadAtBetween(Position(fract, |s|), s);
  }

  lemma UnitScale(t: real, m: real)
    requires 0.0 <= m
    ensures Map(t, 0.0, 1.0, 0.0, m) == t * m
    ensures 0.0 <= t <= 1.0 ==> 0.0 <= t * m <= m
  {
    if 0.0 <= t <= 1.0 {
      NonNegProduct(t, m);
      NonNegProduct(1.0 - t, m);
    }
  }

  /** What findFractile returns for fract in [0, 1] on a non-empty array lies between the
      least and the greatest element of the array, which after the sort are its first and
      last elements. */
  lemma FractileInRange(fract: real, s: seq<real>)
    requires 0.0 <= fract <= 1.0
    requires 0 < |s| <= IntMax
    requires Sorting.Ascending(s)
    ensures Fractile(fract, s).Ok?
    ensures s[0] <= Fractile(fract, s).value <= s[|s| - 1]
  {
    FractileBetween(fract, s);
    var lo := Truncate(Position(fract, |s|));
    var hi := if lo + 1 > |s| - 1 then |s| - 1 else lo + 1;
    assert s[0] <= s[lo] <= s[hi] <= s[|s| - 1];
  }
}
