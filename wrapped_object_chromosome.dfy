/** WrappedObjectChromosome: a genetic-algorithm chromosome whose genes are the value slots of
    a WrappedObject. Crossover and mutation build new wrapped objects and never write into a
    parent's values. The random draws (`nextInt`, `nextGaussian`) are parameters. */
module WrappedObjectChromosome {
  import opened JavaLang
  import opened PrimitiveReference
  import opened WrappedObject

  /** `constrainedRandomValue`: a Gaussian step of stdDev from current, then the bounds: a
      value below min becomes min, otherwise one above max becomes max. gaussian is the
      `nextGaussian()` draw. */
  function ConstrainedRandomValue(current: real, min: real, max: real, stdDev: real, gaussian: real): (v: real)
    ensures min <= max ==> min <= v <= max
    ensures min <= current + gaussian * stdDev <= max ==> v == current + gaussian * stdDev
    ensures max < min ==> v == min || v == max
  {
    var newVal := current + gaussian * stdDev;
    if newVal < min then min else if newVal > max then max else newVal
  }

  /** The genes of `cross(first, second, k)`: the first k from the first parent, the rest up to
      the first parent's length from the second. System.arraycopy throws
      ArrayIndexOutOfBoundsException unless 0 <= k <= |a| <= |b|. */
  function CrossValues(a: seq<real>, b: seq<real>, k: int): (r: Result<seq<real>>)
    ensures r.Ok? <==> 0 <= k <= |a| <= |b|
    ensures r.Ok? ==> |r.value| == |a| && forall i | 0 <= i < |a| :: r.value[i] == if i < k then a[i] else b[i]
    ensures r.Err? ==> r.error == ArrayIndexOutOfBounds
  {
    if 0 <= k <= |a| <= |b| then Ok(a[..k] + b[k..|a|]) else Err(ArrayIndexOutOfBounds)
  }

  /** Crossing at 0 copies the second parent; crossing at the first parent's length copies the
      first. */
  lemma CrossEnds(a: seq<real>, b: seq<real>)
    requires |a| <= |b|
    ensures CrossValues(a, b, 0) == Ok(b[..|a|])
    ensures CrossValues(a, b, |a|) == Ok(a)
  {
    assert a[..0] + b[0..|a|] == b[..|a|];
    assert a[..|a|] + b[|a|..|a|] == a;
  }

  /** Two parents of one length crossed both ways at the same point hand every gene to exactly
      one child: the two children together hold the parents' genes. */
  lemma CrossBothWays(a: seq<real>, b: seq<real>, k: int)
    requires |a| == |b| && 0 <= k <= |a|
    ensures CrossValues(a, b, k).Ok? && CrossValues(b, a, k).Ok?
    ensures forall i | 0 <= i < |a| ::
      multiset{CrossValues(a, b, k).value[i], CrossValues(b, a, k).value[i]} == multiset{a[i], b[i]}
    ensures multiset(CrossValues(a, b, k).value) + multiset(CrossValues(b, a, k).value) == multiset(a) + multiset(b)
  {
    var c := CrossValues(a, b, k).value;
    var d := CrossValues(b, a, k).value;
    assert c == a[..k] + b[k..];
    assert d == b[..k] + a[k..];
    assert a == a[..k] + a[k..];
    assert b == b[..k] + b[k..];
  }

  /** The corrected crossover: the second parent supplies genes only up to the shorter
      parent's length, so any point in [0, min(|a|, |b|)] succeeds. */
  function CrossValuesWithin(a: seq<real>, b: seq<real>, k: int): (r: Result<seq<real>>)
    ensures r.Ok? <==> 0 <= k <= |a| && k <= |b|
    ensures r.Ok? ==> |r.value| == |a|
    ensures r.Ok? ==> forall i | 0 <= i < |a| :: r.value[i] == if k <= i < |b| then b[i] else a[i]
    ensures r.Err? ==> r.error == ArrayIndexOutOfBounds
  {
    if 0 <= k <= |a| && k <= |b| then
      var m := if |a| <= |b| then |a| else |b|;
      Ok(a[..k] + b[k..m] + a[m..])
    else Err(ArrayIndexOutOfBounds)
  }

  /** Where the source's crossover succeeds, the corrected one gives the same child. */
  lemma CrossWithinAgrees(a: seq<real>, b: seq<real>, k: int)
    requires CrossValues(a, b, k).Ok?
    ensures CrossValuesWithin(a, b, k) == CrossValues(a, b, k)
  {
    var r := CrossValuesWithin(a, b, k).value;
    var s := CrossValues(a, b, k).value;
    assert forall i | 0 <= i < |a| :: r[i] == s[i];
    assert r == s;
  }

  /** `System.arraycopy(src, srcPos, dst, dstPos, length)` between two distinct arrays:
      ArrayIndexOutOfBoundsException, with dst untouched, unless both ranges lie inside their
      arrays. */
  method ArrayCopy(src: array<real>, srcPos: int, dst: array<real>, dstPos: int, length: int) returns (res: Outcome)
    requires src != dst
    modifies dst
    ensures var inside := 0 <= srcPos && 0 <= dstPos && 0 <= length && srcPos + length <= src.Length && dstPos + length <= dst.Length;
      && (inside ==> res == Pass && dst[..] == old(dst[..dstPos]) + src[srcPos..srcPos + length] + old(dst[dstPos + length..]))
      && (!inside ==> res == Fail(ArrayIndexOutOfBounds) && dst[..] == old(dst[..]))
  {
    if !(0 <= srcPos && 0 <= dstPos && 0 <= length && srcPos + length <= src.Length && dstPos + length <= dst.Length) {
      return Fail(ArrayIndexOutOfBounds);
    }
    forall j | dstPos <= j < dstPos + length {
      dst[j] := src[srcPos + j - dstPos];
    }
    assert dst[..] == old(dst[..dstPos]) + src[srcPos..srcPos + length] + old(dst[dstPos + length..]);
    return Pass;
  }

  class WrappedObjectChromosome {
    var wrappedObject: WrappedObject

    ghost predicate Valid()
      reads this, wrappedObject, wrappedObject.target
    {
      wrappedObject.Valid()
    }

    constructor (obj: WrappedObject)
      ensures wrappedObject == obj
    {
      wrappedObject := obj;
    }

    /** `size()`: the wrapped object's member count, one per reference. */
    function Size(): (n: nat)
      reads this, wrappedObject, wrappedObject.target
      ensures Valid() ==> n == |wrappedObject.references|
    {
      wrappedObject.GetNumberOfMembers()
    }

    /** The base chromosome's `fitness()` is the constant 0. */
    function Fitness(): (f: real)
      ensures f == 0.0
    {
      0.0
    }

    /** `cross(first, second, k)`: a copy of the first parent's wrapped object whose slots from
        k on come from the second parent. Neither parent is written. */
    static method Cross(first: WrappedObjectChromosome, second: WrappedObjectChromosome, k: int)
      returns (res: Result<WrappedObjectChromosome>)
      requires first.Valid() && second.Valid()
      ensures var crossed := CrossValues(first.wrappedObject.values[..], second.wrappedObject.values[..], k);
        && (crossed.Err? ==> res == Err(crossed.error))
        && (crossed.Ok? ==>
              && res.Ok? && fresh(res.value) && fresh(res.value.wrappedObject) && fresh(res.value.wrappedObject.values)
              && res.value.Valid() && res.value.wrappedObject.values[..] == crossed.value
              && res.value.wrappedObject.references == first.wrappedObject.references
              && res.value.wrappedObject.target == first.wrappedObject.target)
    {
      var o1 := first.wrappedObject;
      var o2 := second.wrappedObject;
      var result := new WrappedObject.Copy(o1);
      var copied := ArrayCopy(o2.values, k, result.values, k, result.values.Length - k);
      if copied.Fail? {
        return Err(copied.error);
      }
      assert result.values[..] == o1.values[..k] + o2.values[k..o1.values.Length];
      var c := new WrappedObjectChromosome(result);
      return Ok(c);
    }

    /** The corrected `cross`: copies from the second parent only up to the shorter length. */
    static method CrossWithin(first: WrappedObjectChromosome, second: WrappedObjectChromosome, k: int)
      returns (res: Result<WrappedObjectChromosome>)
      requires first.Valid() && second.Valid()
      ensures var crossed := CrossValuesWithin(first.wrappedObject.values[..], second.wrappedObject.values[..], k);
        && (crossed.Err? ==> res == Err(crossed.error))
        && (crossed.Ok? ==>
              && res.Ok? && fresh(res.value) && fresh(res.value.wrappedObject) && fresh(res.value.wrappedObject.values)
              && res.value.Valid() && res.value.wrappedObject.values[..] == crossed.value
              && res.value.wrappedObject.references == first.wrappedObject.references
              && res.value.wrappedObject.target == first.wrappedObject.target)
    {
      var o1 := first.wrappedObject;
      var o2 := second.wrappedObject;
      var result := new WrappedObject.Copy(o1);
      var m := if o1.values.Length <= o2.values.Length then o1.values.Length else o2.values.Length;
      var copied := ArrayCopy(o2.values, k, result.values, k, m - k);
      if copied.Fail? {
        return Err(copied.error);
      }
      assert result.values[..] == o1.values[..k] + o2.values[k..m] + o1.values[m..];
      var c := new WrappedObjectChromosome(result);
      return Ok(c);
    }

    /** `mutate(original)`: slot `draw` (the `nextInt(n)` draw, which throws
        IllegalArgumentException when there are no slots) takes a constrained Gaussian step
        within its reference's bounds; the result is a new wrapped object differing from the
        original in that slot only. */
    static method Mutate(original: WrappedObjectChromosome, draw: int, gaussian: real)
      returns (res: Result<WrappedObjectChromosome>)
      requires original.Valid()
      requires original.Size() > 0 ==> 0 <= draw < original.Size()
      ensures original.Size() == 0 ==> res == Err(IllegalArgument)
      ensures original.Size() > 0 ==>
        var w := original.wrappedObject;
        && res.Ok? && fresh(res.value) && fresh(res.value.wrappedObject) && fresh(res.value.wrappedObject.values)
        && res.value.Valid() && res.value.wrappedObject.references == w.references
        && res.value.wrappedObject.target == w.target
        && res.value.wrappedObject.values[..] == Mutated(w.values[..], w.references, draw, gaussian)
    {
      var obj := original.wrappedObject;
      var n := obj.GetNumberOfMembers();
      if n == 0 {
        return Err(IllegalArgument);
      }
      var r := obj.references[draw];
      var v := ConstrainedRandomValue(obj.values[draw], r.minValue, r.maxValue, r.standardDeviationScale, gaussian);
      var newObj := new WrappedObject.Copy(obj);
      var written := newObj.SetValue(draw, v);
      var mutated := new WrappedObjectChromosome(newObj);
      return Ok(mutated);
    }
  }

  /** The genes after mutating slot k with Gaussian draw g. */
  function Mutated(vals: seq<real>, refs: seq<PrimitiveReference>, k: nat, g: real): seq<real>
    requires k < |vals| == |refs|
  {
    vals[k := ConstrainedRandomValue(vals[k], refs[k].minValue, refs[k].maxValue, refs[k].standardDeviationScale, g)]
  }

  /** A mutation changes only the chosen slot and keeps it inside its reference's bounds
      whenever they are ordered (the default bounds, [-Double.MAX_VALUE, Double.MAX_VALUE],
      always are). */
  lemma MutationChangesOneSlot(vals: seq<real>, refs: seq<PrimitiveReference>, k: nat, g: real)
    requires k < |vals| == |refs|
    ensures |Mutated(vals, refs, k, g)| == |vals|
    ensures forall i | 0 <= i < |vals| && i != k :: Mutated(vals, refs, k, g)[i] == vals[i]
    ensures refs[k].minValue <= refs[k].maxValue ==>
      refs[k].minValue <= Mutated(vals, refs, k, g)[k] <= refs[k].maxValue
  {
  }
}
