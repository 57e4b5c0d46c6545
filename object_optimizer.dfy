/** ObjectOptimizer: the genetic-algorithm policies over wrapped-object chromosomes and the
    differentiable objective handed to the gradient optimizers. The optimization engines
    themselves are not part of this model; every random draw is a parameter. */
module ObjectOptimizer {
  import opened JavaLang
  import opened PrimitiveReference
  import opened WrappedObject
  import opened WrappedObjectChromosome

  /** `derivativeDelta`, the half-width of the central difference. */
  const DerivativeDelta: real := 0.001

  /** A chromosome handed to a policy: one of ours, or any other subclass. */
  datatype Chromosome = Wrapped(c: WrappedObjectChromosome) | Other

  /** The crossover point is drawn below the smaller of the two sizes. */
  function CrossBound(a: seq<real>, b: seq<real>): (n: nat)
    ensures n <= |a| && n <= |b| && (n == |a| || n == |b|)
  {
    if |b| < |a| then |b| else |a|
  }

  /** The default crossover policy as written: IllegalArgumentException for anything but two
      WrappedObjectChromosomes and, through `nextInt(0)`, for an empty one; otherwise both
      children cross at the same drawn point. */
  method Crossover(first: Chromosome, second: Chromosome, draw: int)
    returns (res: Result<(WrappedObjectChromosome, WrappedObjectChromosome)>)
    requires first.Wrapped? && second.Wrapped? ==> first.c.Valid() && second.c.Valid()
    requires first.Wrapped? && second.Wrapped? && CrossBound(first.c.wrappedObject.values[..], second.c.wrappedObject.values[..]) > 0 ==>
      0 <= draw < CrossBound(first.c.wrappedObject.values[..], second.c.wrappedObject.values[..])
    ensures !(first.Wrapped? && second.Wrapped?) ==> res == Err(IllegalArgument)
    ensures first.Wrapped? && second.Wrapped? ==>
      var a := first.c.wrappedObject.values[..];
      var b := second.c.wrappedObject.values[..];
      && (CrossBound(a, b) == 0 ==> res == Err(IllegalArgument))
      && (CrossBound(a, b) > 0 && (CrossValues(a, b, draw).Err? || CrossValues(b, a, draw).Err?) ==>
            res == Err(ArrayIndexOutOfBounds))
      && (CrossBound(a, b) > 0 && CrossValues(a, b, draw).Ok? && CrossValues(b, a, draw).Ok? ==>
            && res.Ok? && res.value.0.Valid() && res.value.1.Valid()
            && res.value.0.wrappedObject.values[..] == CrossValues(a, b, draw).value
            && res.value.1.wrappedObject.values[..] == CrossValues(b, a, draw).value)
  {
    if !(first.Wrapped? && second.Wrapped?) {
      return Err(IllegalArgument);
    }
    var n := first.c.Size();
    if second.c.Size() < n {
      n := second.c.Size();
    }
    if n == 0 {
      return Err(IllegalArgument);
    }
    var crossedFirst :- WrappedObjectChromosome.Cross(first.c, second.c, draw);
    var crossedSecond :- WrappedObjectChromosome.Cross(second.c, first.c, draw);
    return Ok((crossedFirst, crossedSecond));
  }

  /** The corrected crossover policy: the same draw, children built by `CrossWithin`. */
  method CrossoverWithin(first: Chromosome, second: Chromosome, draw: int)
    returns (res: Result<(WrappedObjectChromosome, WrappedObjectChromosome)>)
    requires first.Wrapped? && second.Wrapped? ==> first.c.Valid() && second.c.Valid()
    requires first.Wrapped? && second.Wrapped? && CrossBound(first.c.wrappedObject.values[..], second.c.wrappedObject.values[..]) > 0 ==>
      0 <= draw < CrossBound(first.c.wrappedObject.values[..], second.c.wrappedObject.values[..])
    ensures !(first.Wrapped? && second.Wrapped?) ==> res == Err(IllegalArgument)
    ensures first.Wrapped? && second.Wrapped? ==>
      var a := first.c.wrappedObject.values[..];
      var b := second.c.wrappedObject.values[..];
      && (CrossBound(a, b) == 0 ==> res == Err(IllegalArgument))
      && (CrossBound(a, b) > 0 ==>
            && res.Ok? && res.value.0.Valid() && res.value.1.Valid()
            && res.value.0.wrappedObject.values[..] == CrossValuesWithin(a, b, draw).value
            && res.value.1.wrappedObject.values[..] == CrossValuesWithin(b, a, draw).value)
  {
    if !(first.Wrapped? && second.Wrapped?) {
      return Err(IllegalArgument);
    }
    var n := first.c.Size();
    if second.c.Size() < n {
      n := second.c.Size();
    }
    if n == 0 {
      return Err(IllegalArgument);
    }
    var crossedFirst := WrappedObjectChromosome.CrossWithin(first.c, second.c, draw);
    var crossedSecond := WrappedObjectChromosome.CrossWithin(second.c, first.c, draw);
    return Ok((crossedFirst.value, crossedSecond.value));
  }

  /** The policy as written fails for every legal draw on chromosomes of different sizes:
      whichever parent is longer cannot take its tail from the shorter one. */
  lemma {:induction false} CrossoverFailsOnUnequalSizes(a: seq<real>, b: seq<real>, k: int)
    requires |a| != |b| && 0 <= k < CrossBound(a, b)
    ensures CrossValues(a, b, k).Err? || CrossValues(b, a, k).Err?
  {
    if |a| < |b| {
      assert !(|b| <= |a|);
    } else {
      assert !(|a| <= |b|);
    }
  }

  /** A concrete pair: sizes 3 and 2 with the draw 0. */
  lemma CrossoverCounterexample()
    ensures CrossBound([1.0, 2.0, 3.0], [4.0, 5.0]) == 2
    ensures CrossValues([1.0, 2.0, 3.0], [4.0, 5.0], 0) == Err(ArrayIndexOutOfBounds)
    ensures CrossValuesWithin([1.0, 2.0, 3.0], [4.0, 5.0], 0) == Ok([4.0, 5.0, 3.0])
  {
    var r := CrossValuesWithin([1.0, 2.0, 3.0], [4.0, 5.0], 0).value;
    assert r[0] == 4.0 && r[1] == 5.0 && r[2] == 3.0;
    assert r == [4.0, 5.0, 3.0];
  }

  /** The corrected policy succeeds for every legal draw, and each child keeps its own
      parent's length. */
  lemma {:induction false} CrossoverWithinSucceeds(a: seq<real>, b: seq<real>, k: int)
    requires 0 <= k < CrossBound(a, b)
    ensures CrossValuesWithin(a, b, k).Ok? && CrossValuesWithin(b, a, k).Ok?
    ensures |CrossValuesWithin(a, b, k).value| == |a| && |CrossValuesWithin(b, a, k).value| == |b|
  {
    assert k <= |a| && k <= |b|;
  }

  /** The default mutation policy: IllegalArgumentException for a foreign chromosome,
      otherwise `WrappedObjectChromosome.mutate` with the given draws. */
  method Mutation(original: Chromosome, draw: int, gaussian: real) returns (res: Result<WrappedObjectChromosome>)
    requires original.Wrapped? ==> original.c.Valid()
    requires original.Wrapped? && original.c.Size() > 0 ==> 0 <= draw < original.c.Size()
    ensures original.Other? ==> res == Err(IllegalArgument)
    ensures original.Wrapped? && original.c.Size() == 0 ==> res == Err(IllegalArgument)
    ensures original.Wrapped? && original.c.Size() > 0 ==>
      var w := original.c.wrappedObject;
      && res.Ok? && res.value.Valid()
      && res.value.wrappedObject.values[..] == Mutated(w.values[..], w.references, draw, gaussian)
  {
    if original.Other? {
      return Err(IllegalArgument);
    }
    res := WrappedObjectChromosome.Mutate(original.c, draw, gaussian);
  }

  /** The stopping condition of `geneticallyOptimize`: satisfied once strictly more than the
      requested number of generations have evolved. */
  function IsSatisfied(generationsEvolved: int, generations: int): (b: bool)
  {
    generationsEvolved > generations
  }

  /** The algorithm runs through generation number `generations` and stops at the next one;
      once satisfied, the condition stays satisfied. */
  lemma StoppingRule(generations: int, evolved: int, later: int)
    requires evolved <= later
    ensures !IsSatisfied(generations, generations) && IsSatisfied(generations + 1, generations)
    ensures IsSatisfied(evolved, generations) ==> IsSatisfied(later, generations)
    ensures IsSatisfied(evolved, generations) <==> evolved >= generations + 1
  {
  }

  /** The symmetric difference quotient of `getPartialDerivativeAtPoint`. */
  function CentralDifference(plus: real, minus: real): real
  {
    (plus - minus) / (2.0 * DerivativeDelta)
  }

  /** The estimate is exact for every quadratic: on a x^2 + b x + c it is 2 a x + b. */
  lemma CentralDifferenceOfQuadratic(a: real, b: real, c: real, x: real)
    ensures CentralDifference(a * (x + DerivativeDelta) * (x + DerivativeDelta) + b * (x + DerivativeDelta) + c,
                              a * (x - DerivativeDelta) * (x - DerivativeDelta) + b * (x - DerivativeDelta) + c)
            == 2.0 * a * x + b
  {
    var d := DerivativeDelta;
    assert a * (x + d) * (x + d) - a * (x - d) * (x - d) == 4.0 * d * (a * x) by {
      assert (x + d) * (x + d) == x * x + 2.0 * d * x + d * d;
      assert (x - d) * (x - d) == x * x - 2.0 * d * x + d * d;
    }
  }

  /** The object state while `point` is pushed onto `state`. */
  function PushedState(shape: Shape, refs: seq<PrimitiveReference>, state: map<Slot, Value>, point: seq<real>): map<Slot, Value>
    requires |point| == |refs| && PushFailure(shape, refs, 0) == |refs|
  {
    state + Writes(shape, refs, point, |refs|)
  }

  /** What the objective's partial derivative k reports at point p for an object in state:
      the central difference of the objective with p[k] moved by +-delta and pushed. */
  function Estimate(objective: map<Slot, Value> -> real, shape: Shape, refs: seq<PrimitiveReference>,
                    state: map<Slot, Value>, p: seq<real>, k: nat): real
    requires k < |p| == |refs| && PushFailure(shape, refs, 0) == |refs|
  {
    CentralDifference(objective(PushedState(shape, refs, state, p[k := p[k] + DerivativeDelta])),
                      objective(PushedState(shape, refs, state, p[k := p[k] - DerivativeDelta])))
  }

  /** The estimates of every partial derivative at p. */
  function Estimates(objective: map<Slot, Value> -> real, shape: Shape, refs: seq<PrimitiveReference>,
                     state: map<Slot, Value>, p: seq<real>): (r: seq<real>)
    requires |p| == |refs| && PushFailure(shape, refs, 0) == |refs|
    ensures |r| == |p| && forall k | 0 <= k < |p| :: r[k] == Estimate(objective, shape, refs, state, p, k)
  {
    seq(|p|, k requires 0 <= k < |p| => Estimate(objective, shape, refs, state, p, k))
  }

  /** The estimates before index i followed by estimate i are the estimates up to i. */
  lemma EstimatesPrefix(objective: map<Slot, Value> -> real, shape: Shape, refs: seq<PrimitiveReference>,
                        state: map<Slot, Value>, p: seq<real>, done: seq<real>, i: nat)
    requires i < |p| == |refs| && PushFailure(shape, refs, 0) == |refs|
    requires |done| == i && (i > 0 ==> done == Estimates(objective, shape, refs, state, p)[..i])
    ensures done + [Estimate(objective, shape, refs, state, p, i)] == Estimates(objective, shape, refs, state, p)[..i + 1]
  {
  }

  /** Every push writes the same slots, so a state reached by an earlier push gives the same
      estimates as the state before it. */
  lemma EstimateRebase(objective: map<Slot, Value> -> real, shape: Shape, refs: seq<PrimitiveReference>,
                       state: map<Slot, Value>, w: seq<real>, p: seq<real>, k: nat)
    requires k < |p| == |refs| == |w| && PushFailure(shape, refs, 0) == |refs|
    ensures Estimate(objective, shape, refs, PushedState(shape, refs, state, w), p, k) == Estimate(objective, shape, refs, state, p, k)
  {
    PushOverwrites(shape, refs, state, p[k := p[k] + DerivativeDelta], w, |refs|);
    PushOverwrites(shape, refs, state, p[k := p[k] - DerivativeDelta], w, |refs|);
  }

  /** The partial derivative reported for an objective that depends on slot k's value only
      through a quadratic is the exact derivative. */
  lemma EstimateOfQuadratic(objective: map<Slot, Value> -> real, shape: Shape, refs: seq<PrimitiveReference>,
                            state: map<Slot, Value>, p: seq<real>, k: nat, a: real, b: real, c: real)
    requires k < |p| == |refs| && PushFailure(shape, refs, 0) == |refs|
    requires forall t: real {:trigger p[k := t]} :: objective(PushedState(shape, refs, state, p[k := t])) == a * t * t + b * t + c
    ensures Estimate(objective, shape, refs, state, p, k) == 2.0 * a * p[k] + b
  {
    var up := p[k] + DerivativeDelta;
    var down := p[k] - DerivativeDelta;
    assert objective(PushedState(shape, refs, state, p[k := up])) == a * up * up + b * up + c;
    assert objective(PushedState(shape, refs, state, p[k := down])) == a * down * down + b * down + c;
    CentralDifferenceOfQuadratic(a, b, c, p[k]);
  }

  /** `partials[k]`: the function object that evaluates partial derivative k. */
  datatype PartialFunction = PartialFunction(k: int)

  /** The objective of `getDifferentiableMultivariateRealFunction(opt)`. `objective` is
      `opt.getValue()`, the abstract fitness of the wrapped object's current state. */
  class DifferentiableObjective {
    const opt: WrappedObject
    const objective: map<Slot, Value> -> real
    /** The snapshot buffer, allocated on the first evaluation. */
    var prevVals: array?<real>
    /** The lazily built partial-derivative functions, one per member. */
    const partials: array<Option<PartialFunction>>

    ghost predicate Valid()
      reads this, opt, opt.target, prevVals, partials
    {
      && opt.Valid()
      && (prevVals != null ==> prevVals.Length == opt.values.Length && prevVals != opt.values)
      && partials.Length == opt.values.Length
      && forall i | 0 <= i < partials.Length :: partials[i].Some? ==> partials[i].value == PartialFunction(i)
    }

    constructor (opt: WrappedObject, objective: map<Slot, Value> -> real)
      requires opt.Valid()
      ensures Valid() && this.opt == opt && this.objective == objective && prevVals == null
      ensures fresh(partials) && forall i | 0 <= i < partials.Length :: partials[i] == None
    {
      this.opt := opt;
      this.objective := objective;
      prevVals := null;
      partials := new Option<PartialFunction>[opt.values.Length](_ => None);
    }

    /** `value(point)`: snapshots the values, pushes point, evaluates, and pushes the snapshot
        back. The synchronisation on the wrapped object throws NullPointerException when it
        has none. On success the values are as before and the object holds the snapshot
        again, which is its old state whenever it agreed with the values. */
    method Value(point: array<real>) returns (res: Result<real>)
      requires Valid() && point != prevVals
      modifies this, opt.values, opt.target, prevVals
      ensures Valid() && (prevVals == old(prevVals) || fresh(prevVals))
      ensures opt.obj.None? ==>
        res == Err(NullPointer) && opt.values[..] == old(opt.values[..]) && opt.target.state == old(opt.target.state)
      ensures opt.obj.Some? && point.Length != |opt.references| ==>
        res == Err(ShapeMismatch) && opt.values[..] == old(opt.values[..]) && opt.target.state == old(opt.target.state)
      ensures opt.obj.Some? && point.Length == |opt.references| ==>
        var j := PushFailure(opt.target.shape, opt.references, 0);
        && (j < |opt.references| ==>
              && res == Err(Runtime(Some(Locate(opt.target.shape, opt.references[j], true).error)))
              && opt.values[..] == old(point[..])
              && opt.target.state == old(opt.target.state) + Writes(opt.target.shape, opt.references, old(point[..]), j))
        && (j == |opt.references| ==>
              && res == Ok(objective(PushedState(opt.target.shape, opt.references, old(opt.target.state), old(point[..]))))
              && opt.values[..] == old(opt.values[..])
              && opt.target.state == PushedState(opt.target.shape, opt.references, old(opt.target.state), old(opt.values[..])))
      ensures (opt.obj.Some? && point.Length == |opt.references| &&
               Consistent(opt.target.shape, old(opt.target.state), opt.references, old(opt.values[..]))) ==>
        res.Ok? && opt.target.state == old(opt.target.state)
    {
      var pvals := opt.values;
      if prevVals == null {
        prevVals := new real[pvals.Length];
      }
      if opt.obj.None? {
        return Err(NullPointer);
      }
      var copied := ArrayCopy(pvals, 0, prevVals, 0, pvals.Length);
      assert prevVals[..] == old(opt.values[..]);
      ghost var before := opt.target.state;
      var pushed := opt.PushValuesToObject(point);
      if pushed.Fail? {
        return Err(pushed.error);
      }
      var value := objective(opt.target.state);
      // The same references were written a moment ago, so this push cannot fail.
      var restored := opt.PushValuesToObject(prevVals);
      PushOverwrites(opt.target.shape, opt.references, before, old(opt.values[..]), old(point[..]), |opt.references|);
      return Ok(value);
    }

    /** `getPartialDerivativeAtPoint(k, point)`: evaluates with point[k] moved up and then
        down by delta, puts point[k] back and returns the central difference. An evaluation
        that throws leaves point[k] moved. */
    method GetPartialDerivativeAtPoint(k: int, point: array<real>) returns (res: Result<real>)
      requires Valid() && point != prevVals && point != opt.values
      modifies this, opt.values, opt.target, prevVals, point
      ensures Valid() && (prevVals == old(prevVals) || fresh(prevVals))
      ensures !(0 <= k < point.Length) ==>
        && res == Err(ArrayIndexOutOfBounds) && point[..] == old(point[..])
        && opt.values[..] == old(opt.values[..]) && opt.target.state == old(opt.target.state)
      ensures 0 <= k < point.Length && (opt.obj.None? || point.Length != |opt.references|) ==>
        && res.Err? && point[..] == old(point[..])[k := old(point[k]) + DerivativeDelta]
        && opt.values[..] == old(opt.values[..]) && opt.target.state == old(opt.target.state)
      ensures (0 <= k < point.Length && opt.obj.Some? && point.Length == |opt.references| &&
               PushFailure(opt.target.shape, opt.references, 0) < |opt.references|) ==>
        res == Err(Runtime(Some(Locate(opt.target.shape, opt.references[PushFailure(opt.target.shape, opt.references, 0)], true).error)))
      ensures (0 <= k < point.Length && opt.obj.Some? && point.Length == |opt.references| &&
               PushFailure(opt.target.shape, opt.references, 0) == |opt.references|) ==>
        && res == Ok(Estimate(objective, opt.target.shape, opt.references, old(opt.target.state), old(point[..]), k))
        && point[..] == old(point[..]) && opt.values[..] == old(opt.values[..])
        && opt.target.state == PushedState(opt.target.shape, opt.references, old(opt.target.state), old(opt.values[..]))
    {
      if !(0 <= k < point.Length) {
        return Err(ArrayIndexOutOfBounds);
      }
      ghost var p := point[..];
      ghost var vals := opt.values[..];
      ghost var start := opt.target.state;
      var initialValue := point[k];
      point[k] := initialValue + DerivativeDelta;
      var resultPlus := Value(point);
      if resultPlus.Err? {
        return Err(resultPlus.error);
      }
      point[k] := initialValue - DerivativeDelta;
      assert point[..] == p[k := p[k] - DerivativeDelta];
      var resultMinus := Value(point);
      point[k] := initialValue;
      assert point[..] == p;
      PushOverwrites(opt.target.shape, opt.references, start, p[k := p[k] - DerivativeDelta], vals, |opt.references|);
      PushOverwrites(opt.target.shape, opt.references, start, vals, vals, |opt.references|);
      return Ok(CentralDifference(resultPlus.value, resultMinus.value));
    }

    /** `partialDerivative(k)`: builds the function object for k on first use and returns the
        cached one afterwards; an index outside the members throws
        ArrayIndexOutOfBoundsException. */
    method PartialDerivative(k: int) returns (res: Result<PartialFunction>)
      requires Valid()
      modifies partials
      ensures Valid()
      ensures !(0 <= k < partials.Length) ==> res == Err(ArrayIndexOutOfBounds) && partials[..] == old(partials[..])
      ensures 0 <= k < partials.Length ==>
        res == Ok(PartialFunction(k)) && partials[..] == old(partials[..])[k := Some(PartialFunction(k))]
    {
      if !(0 <= k < partials.Length) {
        return Err(ArrayIndexOutOfBounds);
      }
      if partials[k].None? {
        partials[k] := Some(PartialFunction(k));
      }
      assert partials[..] == old(partials[..])[k := Some(PartialFunction(k))];
      return Ok(partials[k].value);
    }

    /** One entry of the gradient loop. Before it the object holds start (first entry) or
        start with vals pushed (later entries, which the first entry's success implies); the
        partial derivative succeeds exactly when the references can all be written, and its
        estimate does not depend on which of the two states it began from. */
    method GradientEntry(i: nat, point: array<real>, ghost start: map<Slot, Value>, ghost vals: seq<real>)
      returns (res: Result<real>)
      requires Valid() && point != prevVals && point != opt.values && i < point.Length
      requires opt.values[..] == vals
      requires i == 0 ==> opt.target.state == start
      requires i > 0 ==>
        && opt.obj.Some? && point.Length == |opt.references|
        && PushFailure(opt.target.shape, opt.references, 0) == |opt.references|
        && opt.target.state == PushedState(opt.target.shape, opt.references, start, vals)
      modifies this, opt.values, opt.target, prevVals, point
      ensures Valid() && (prevVals == old(prevVals) || fresh(prevVals))
      ensures res.Ok? <==>
        opt.obj.Some? && point.Length == |opt.references| && PushFailure(opt.target.shape, opt.references, 0) == |opt.references|
      ensures res.Ok? ==>
        && res.value == Estimate(objective, opt.target.shape, opt.references, start, old(point[..]), i)
        && point[..] == old(point[..]) && opt.values[..] == vals
        && opt.target.state == PushedState(opt.target.shape, opt.references, start, vals)
    {
      res := GetPartialDerivativeAtPoint(i, point);
      if res.Ok? && i > 0 {
        EstimateRebase(objective, opt.target.shape, opt.references, start, vals, old(point[..]), i);
        PushOverwrites(opt.target.shape, opt.references, start, vals, vals, |opt.references|);
      }
    }

    /** The loop of `gradient`: the partial derivatives of point, in index order, into
        gradient, stopping at the first that throws. */
    method FillGradient(point: array<real>, gradient: array<real>) returns (err: Option<Exception>)
      requires Valid() && point != prevVals && point != opt.values
      requires gradient.Length == point.Length && gradient != prevVals && gradient != point && gradient != opt.values
      modifies this, opt.values, opt.target, prevVals, point, gradient
      ensures Valid()
      ensures err.None? <==>
        || point.Length == 0
        || (opt.obj.Some? && point.Length == |opt.references| && PushFailure(opt.target.shape, opt.references, 0) == |opt.references|)
      ensures err.None? ==>
        && (forall i | 0 <= i < point.Length ::
              gradient[i] == Estimate(objective, opt.target.shape, opt.references, old(opt.target.state), old(point[..]), i))
        && point[..] == old(point[..]) && opt.values[..] == old(opt.values[..])
        && (point.Length == 0 ==> opt.target.state == old(opt.target.state))
    {
      ghost var start := opt.target.state;
      ghost var vals := opt.values[..];
      ghost var p := point[..];
      for i := 0 to point.Length
        invariant Valid() && point != prevVals && point != opt.values && gradient != prevVals
        invariant prevVals == old(prevVals) || fresh(prevVals)
        invariant point[..] == p && opt.values[..] == vals
        invariant i == 0 ==> opt.target.state == start
        invariant i > 0 ==>
          && opt.obj.Some? && point.Length == |opt.references|
          && PushFailure(opt.target.shape, opt.references, 0) == |opt.references|
          && opt.target.state == PushedState(opt.target.shape, opt.references, start, vals)
        invariant i > 0 ==> gradient[..i] == Estimates(objective, opt.target.shape, opt.references, start, p)[..i]
      {
        var partial := GradientEntry(i, point, start, vals);
        if partial.Err? {
          return Some(partial.error);
        }
        ghost var done := gradient[..i];
        gradient[i] := partial.value;
        assert gradient[..i + 1] == done + [partial.value];
        EstimatesPrefix(objective, opt.target.shape, opt.references, start, p, done, i);
      }
      if point.Length > 0 {
        assert gradient[..] == gradient[..point.Length];
      }
      return None;
    }

    /** `gradient(point)`: one partial derivative per entry of point, in index order, into a
        fresh array. point and the values end as they began. */
    method Gradient(point: array<real>) returns (res: Result<array<real>>)
      requires Valid() && point != prevVals && point != opt.values
      modifies this, opt.values, opt.target, prevVals, point
      ensures Valid()
      ensures point.Length == 0 ==>
        && res.Ok? && fresh(res.value) && res.value.Length == 0
        && opt.values[..] == old(opt.values[..]) && opt.target.state == old(opt.target.state)
      ensures point.Length > 0 && (opt.obj.None? || point.Length != |opt.references|) ==> res.Err?
      ensures (point.Length > 0 && opt.obj.Some? && point.Length == |opt.references| &&
               PushFailure(opt.target.shape, opt.references, 0) < |opt.references|) ==> res.Err?
      ensures (opt.obj.Some? && point.Length == |opt.references| &&
               PushFailure(opt.target.shape, opt.references, 0) == |opt.references|) ==>
        && res.Ok? && fresh(res.value) && res.value.Length == point.Length
        && (forall i | 0 <= i < point.Length ::
              res.value[i] == Estimate(objective, opt.target.shape, opt.references, old(opt.target.state), old(point[..]), i))
        && point[..] == old(point[..]) && opt.values[..] == old(opt.values[..])
    {
      var returnValue := new real[point.Length];
      var err := FillGradient(point, returnValue);
      if err.Some? {
        return Err(err.value);
      }
      return Ok(returnValue);
    }
  }
}
