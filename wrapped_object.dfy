/** WrappedObject: a flat vector of doubles with one slot per PrimitiveReference, pulled from
    the target object's fields and pushed back into them. */
module WrappedObject {
  import opened JavaLang
  import opened JavaNum
  import opened PrimitiveReference

  /** A value strictly above this reads as true (`booleanThreshold`). */
  const BooleanThreshold: real := 0.5
  /** What a pull stores for false and for true. */
  const DefaultBooleanFalse: real := 0.25
  const DefaultBooleanTrue: real := 0.75

  /** The double a pull stores for a field value: 0.75 or 0.25 for a boolean, the number
      itself for int, long, float and double. */
  function Encode(v: Value): real
  {
    match v
    case BoolValue(b) => if b then DefaultBooleanTrue else DefaultBooleanFalse
    case NumValue(x) => x
  }

  /** `getBooleanAt`: strictly greater than the threshold. */
  function BooleanAt(x: real): (b: bool)
    ensures b <==> x > 0.5
  {
    x > BooleanThreshold
  }

  /** `getIntAt`, `getLongAt`: Java's truncating, saturating casts. `getFloatAt` and
      `getDoubleAt` pass the value through (float rounding is not modelled). */
  function Decode(t: ReferenceType, x: real): (v: Value)
    ensures Fits(AsPrim(t), v)
  {
    match t
    case BOOLEAN => BoolValue(BooleanAt(x))
    case INT => NumValue(DoubleToInt(x) as real)
    case LONG => NumValue(DoubleToLong(x) as real)
    case FLOAT => NumValue(x)
    case DOUBLE => NumValue(x)
  }

  /** What a push writes for each reference type. Exactly 0.5 is false; int and long truncate
      toward zero and saturate; float and double slots get the value unchanged. */
  lemma DecodeRules(x: real)
    ensures Decode(BOOLEAN, x) == BoolValue(x > 0.5)
    ensures Decode(BOOLEAN, 0.5) == BoolValue(false)
    ensures Decode(INT, x) == NumValue(DoubleToInt(x) as real)
    ensures -2147483648.0 <= x <= 2147483647.0 ==> Decode(INT, x) == NumValue(Truncate(x) as real)
    ensures Decode(LONG, x) == NumValue(DoubleToLong(x) as real)
    ensures Decode(FLOAT, x) == NumValue(x) && Decode(DOUBLE, x) == NumValue(x)
  {
  }

  /** Writing back what was read restores the value, for every value of the reference's type:
      true is stored as 0.75 > 0.5, false as 0.25, and integral values in range survive the
      cast. Doubles are reals here; in Java a long beyond 2^53 in magnitude loses precision when
      widened to a double and does not come back. */
  lemma DecodeEncode(t: ReferenceType, v: Value)
    requires Fits(AsPrim(t), v)
    ensures Decode(t, Encode(v)) == v
  {
  }

  /** The double pulled from reference r, or the exception reading it throws. */
  function Read(shape: Shape, state: map<Slot, Value>, r: PrimitiveReference): Result<real>
  {
    var v :- Get(shape, state, r);
    Ok(Encode(v))
  }

  /** What a pull of references[from..] reaches: the index of the first reference that cannot
      be read, or |refs| when all can. */
  function PullFailure(shape: Shape, state: map<Slot, Value>, refs: seq<PrimitiveReference>, from: nat): (j: nat)
    requires from <= |refs|
    ensures from <= j <= |refs|
    ensures forall k | from <= k < j :: Read(shape, state, refs[k]).Ok?
    ensures j < |refs| ==> Read(shape, state, refs[j]).Err?
    decreases |refs| - from
  {
    if from == |refs| || Read(shape, state, refs[from]).Err? then from
    else PullFailure(shape, state, refs, from + 1)
  }

  /** The values pulled from the first n references. */
  function Pulled(shape: Shape, state: map<Slot, Value>, refs: seq<PrimitiveReference>, n: nat): (vals: seq<real>)
    requires n <= |refs| && forall k | 0 <= k < n :: Read(shape, state, refs[k]).Ok?
    ensures |vals| == n
    ensures forall k | 0 <= k < n :: vals[k] == Read(shape, state, refs[k]).value
  {
    seq(n, k requires 0 <= k < n && Read(shape, state, refs[k]).Ok? => Read(shape, state, refs[k]).value)
  }

  /** The index of the first reference that cannot be written, or |refs|. Writability depends
      on the class's fields only, not on the values. */
  function PushFailure(shape: Shape, refs: seq<PrimitiveReference>, from: nat): (j: nat)
    requires from <= |refs|
    ensures from <= j <= |refs|
    ensures forall k | from <= k < j :: Locate(shape, refs[k], true).Ok?
    ensures j < |refs| ==> Locate(shape, refs[j], true).Err?
    decreases |refs| - from
  {
    if from == |refs| || Locate(shape, refs[from], true).Err? then from
    else PushFailure(shape, refs, from + 1)
  }

  /** The slots written by pushing the first n values, each mapped to the last value written
      there (references later in the array win). */
  function Writes(shape: Shape, refs: seq<PrimitiveReference>, vals: seq<real>, n: nat): map<Slot, Value>
    requires n <= |refs| && n <= |vals|
    requires forall k | 0 <= k < n :: Locate(shape, refs[k], true).Ok?
    decreases n
  {
    if n == 0 then map[]
    else Writes(shape, refs, vals, n - 1)[Locate(shape, refs[n - 1], true).value.slot := Decode(refs[n - 1].rtype, vals[n - 1])]
  }

  /** One more write extends the push by one reference. */
  lemma WritesStep(shape: Shape, refs: seq<PrimitiveReference>, vals: seq<real>, start: map<Slot, Value>, i: nat)
    requires i < |refs| && i < |vals|
    requires forall k | 0 <= k <= i :: Locate(shape, refs[k], true).Ok?
    ensures (start + Writes(shape, refs, vals, i))[Locate(shape, refs[i], true).value.slot := Decode(refs[i].rtype, vals[i])]
      == start + Writes(shape, refs, vals, i + 1)
  {
  }

  /** The slots a push writes depend on the references only, not on the values pushed. */
  lemma {:induction false} WritesKeys(shape: Shape, refs: seq<PrimitiveReference>, v: seq<real>, w: seq<real>, n: nat)
    requires n <= |refs| && n <= |v| && n <= |w|
    requires forall k | 0 <= k < n :: Locate(shape, refs[k], true).Ok?
    ensures Writes(shape, refs, v, n).Keys == Writes(shape, refs, w, n).Keys
    decreases n
  {
    if n > 0 {
      WritesKeys(shape, refs, v, w, n - 1);
    }
  }

  /** Pushing v after w leaves the object as pushing v alone: every slot w wrote, v writes
      again. */
  lemma PushOverwrites(shape: Shape, refs: seq<PrimitiveReference>, state: map<Slot, Value>, v: seq<real>, w: seq<real>, n: nat)
    requires n <= |refs| && n <= |v| && n <= |w|
    requires forall k | 0 <= k < n :: Locate(shape, refs[k], true).Ok?
    ensures (state + Writes(shape, refs, w, n)) + Writes(shape, refs, v, n) == state + Writes(shape, refs, v, n)
  {
    WritesKeys(shape, refs, v, w, n);
  }

  /** In a well-formed object, references that read and write a slot of exactly their own type
      write back exactly what they read. */
  lemma WritesOfPulled(shape: Shape, state: map<Slot, Value>, refs: seq<PrimitiveReference>, n: nat)
    requires WellFormed(shape, state) && n <= |refs|
    requires forall k | 0 <= k < |refs| :: Exact(shape, refs[k])
    ensures forall k | 0 <= k < |refs| :: Read(shape, state, refs[k]).Ok? && Locate(shape, refs[k], true).Ok?
    ensures forall s | s in Writes(shape, refs, Pulled(shape, state, refs, |refs|), n) ::
      s in state && Writes(shape, refs, Pulled(shape, state, refs, |refs|), n)[s] == state[s]
  {
    forall k | 0 <= k < |refs|
      ensures Read(shape, state, refs[k]).Ok?
    {
      GetFits(shape, state, refs[k]);
    }
    WritesOfRead(shape, state, refs, Pulled(shape, state, refs, |refs|), n);
  }

  /** Writing back, through exact references, values read through them restores the slots
      written. */
  lemma {:induction false} WritesOfRead(shape: Shape, state: map<Slot, Value>, refs: seq<PrimitiveReference>, vals: seq<real>, n: nat)
    requires WellFormed(shape, state) && n <= |refs| == |vals|
    requires forall k | 0 <= k < |refs| :: Exact(shape, refs[k])
    requires forall k | 0 <= k < |refs| :: Read(shape, state, refs[k]) == Ok(vals[k]) && Locate(shape, refs[k], true).Ok?
    ensures forall s | s in Writes(shape, refs, vals, n) :: s in state && Writes(shape, refs, vals, n)[s] == state[s]
    decreases n
  {
    if n > 0 {
      WritesOfRead(shape, state, refs, vals, n - 1);
      WriteOfRead(shape, state, refs[n - 1], vals[n - 1]);
    }
  }

  /** Writing back, through an exact reference, the value read through it restores its slot. */
  lemma WriteOfRead(shape: Shape, state: map<Slot, Value>, r: PrimitiveReference, v: real)
    requires WellFormed(shape, state) && Exact(shape, r) && Read(shape, state, r) == Ok(v)
    ensures var slot := Locate(shape, r, true).value.slot;
      slot in state && Decode(r.rtype, v) == state[slot]
  {
    GetFits(shape, state, r);
    LocatedFits(shape, state, r, false);
    DecodeEncode(r.rtype, Get(shape, state, r).value);
  }

  /** Round trip: pulling every value and pushing them straight back leaves every boolean,
      int, long and double field unchanged, for references of exactly their slots' types (the
      ones discovery creates). With doubles as reals this includes every long; in Java only
      longs within 2^53 in magnitude survive the widening. */
  lemma PullPushRoundTrip(shape: Shape, state: map<Slot, Value>, refs: seq<PrimitiveReference>)
    requires WellFormed(shape, state)
    requires forall k | 0 <= k < |refs| :: Exact(shape, refs[k])
    ensures PullFailure(shape, state, refs, 0) == |refs| && PushFailure(shape, refs, 0) == |refs|
    ensures state + Writes(shape, refs, Pulled(shape, state, refs, |refs|), |refs|) == state
  {
    WritesOfPulled(shape, state, refs, |refs|);
    var w := Writes(shape, refs, Pulled(shape, state, refs, |refs|), |refs|);
    assert state + w == state;
  }

  /** A push does not clamp: a double slot gets the value even far outside the reference's
      [minValue, maxValue]. */
  lemma PushIgnoresBounds(shape: Shape, refs: seq<PrimitiveReference>, vals: seq<real>, k: nat)
    requires k < |refs| && |vals| == |refs| && refs[k].rtype == DOUBLE && refs[k].maxValue < vals[k]
    requires forall i | 0 <= i < |refs| :: Locate(shape, refs[i], true).Ok?
    requires forall i | 0 <= i < |refs| && i != k :: Locate(shape, refs[i], true).value.slot != Locate(shape, refs[k], true).value.slot
    ensures Locate(shape, refs[k], true).value.slot in Writes(shape, refs, vals, |refs|)
    ensures Writes(shape, refs, vals, |refs|)[Locate(shape, refs[k], true).value.slot] == NumValue(vals[k])
  {
    WritesLast(shape, refs, vals, k, |refs|);
  }

  lemma {:induction false} WritesLast(shape: Shape, refs: seq<PrimitiveReference>, vals: seq<real>, k: nat, n: nat)
    requires k < n <= |refs| && n <= |vals|
    requires forall i | 0 <= i < n :: Locate(shape, refs[i], true).Ok?
    requires forall i | k < i < n :: Locate(shape, refs[i], true).value.slot != Locate(shape, refs[k], true).value.slot
    ensures Locate(shape, refs[k], true).value.slot in Writes(shape, refs, vals, n)
    ensures Writes(shape, refs, vals, n)[Locate(shape, refs[k], true).value.slot] == Decode(refs[k].rtype, vals[k])
    decreases n
  {
    if n - 1 > k {
      WritesLast(shape, refs, vals, k, n - 1);
    }
  }

  /** A vector the object agrees with: pushing it would change nothing. */
  predicate Consistent(shape: Shape, state: map<Slot, Value>, refs: seq<PrimitiveReference>, vals: seq<real>)
  {
    |vals| == |refs| && PushFailure(shape, refs, 0) == |refs| &&
    state + Writes(shape, refs, vals, |refs|) == state
  }

  /** After pushing a vector, the object agrees with that vector. */
  lemma PushMakesConsistent(shape: Shape, state: map<Slot, Value>, refs: seq<PrimitiveReference>, vals: seq<real>)
    requires |vals| == |refs| && PushFailure(shape, refs, 0) == |refs|
    ensures Consistent(shape, state + Writes(shape, refs, vals, |refs|), refs, vals)
  {
    PushOverwrites(shape, refs, state, vals, vals, |refs|);
  }

  /** Pushing a vector and then one the object agreed with before puts the object back as it
      was: the restore step of ObjectOptimizer's objective. */
  lemma PushThenRestore(shape: Shape, state: map<Slot, Value>, refs: seq<PrimitiveReference>, point: seq<real>, prev: seq<real>)
    requires Consistent(shape, state, refs, prev) && |point| == |refs|
    ensures (state + Writes(shape, refs, point, |refs|)) + Writes(shape, refs, prev, |refs|) == state
  {
    PushOverwrites(shape, refs, state, prev, point, |refs|);
  }

  class WrappedObject {
    /** `object`: neither constructor assigns it, so it is null until `setObject`. */
    var obj: Option<Target>
    const references: seq<PrimitiveReference>
    const values: array<real>
    /** The object the references read and write. */
    const target: Target

    ghost predicate Valid()
      reads this, target
    {
      values.Length == |references| && target.Valid()
    }

    /** Allocates one zeroed slot per reference; `Wrap` then pulls. */
    constructor Init(references: seq<PrimitiveReference>, target: Target)
      requires target.Valid()
      ensures Valid() && fresh(values) && values[..] == seq(|references|, _ => 0.0)
      ensures this.references == references && this.target == target && obj.None?
    {
      this.references := references;
      this.target := target;
      this.obj := None;
      this.values := new real[|references|](_ => 0.0);
    }

    /** The copy constructor `WrappedObject(WrappedObject)`: the same references and target, a
        fresh copy of the values, the same object. */
    constructor Copy(other: WrappedObject)
      requires other.Valid()
      ensures Valid() && fresh(values) && values[..] == other.values[..]
      ensures references == other.references && target == other.target && obj == other.obj
    {
      references := other.references;
      target := other.target;
      obj := other.obj;
      values := new real[other.values.Length](i requires 0 <= i < other.values.Length reads other.values => other.values[i]);
    }

    /** `WrappedObject(PrimitiveReference... references)`: one slot per reference, filled by an
        immediate pull; a pull failure escapes the constructor. */
    static method Wrap(references: seq<PrimitiveReference>, target: Target) returns (res: Result<WrappedObject>)
      requires target.Valid()
      ensures var j := PullFailure(target.shape, target.state, references, 0);
        && (j == |references| ==>
              && res.Ok? && fresh(res.value) && fresh(res.value.values) && res.value.Valid()
              && res.value.references == references && res.value.target == target && res.value.obj.None?
              && res.value.values[..] == Pulled(target.shape, target.state, references, |references|))
        && (j < |references| ==> res == Err(Runtime(Some(Read(target.shape, target.state, references[j]).error))))
    {
      var w := new WrappedObject.Init(references, target);
      var pulled := w.RefreshValuesFromObject();
      if pulled.Fail? {
        return Err(pulled.error);
      }
      return Ok(w);
    }

    /** `WrappedObject(Object objectToWrap)`: wraps the references discovery finds. */
    static method WrapDiscovered(o: Target) returns (res: Result<WrappedObject>)
      requires o.Valid()
      ensures Discovered(o.shape, o.shape.declared).Err? ==> res == Err(Discovered(o.shape, o.shape.declared).error)
      ensures Discovered(o.shape, o.shape.declared).Ok? ==>
        var refs := Discovered(o.shape, o.shape.declared).value;
        (PullFailure(o.shape, o.state, refs, 0) == |refs| ==>
           res.Ok? && fresh(res.value) && res.value.Valid() && res.value.references == refs &&
           res.value.target == o && res.value.values[..] == Pulled(o.shape, o.state, refs, |refs|)) &&
        (PullFailure(o.shape, o.state, refs, 0) < |refs| ==> res.Err?)
    {
      var refs := GetAllReferencesFrom(o);
      if refs.Err? {
        return Err(refs.error);
      }
      res := Wrap(refs.value, o);
    }

    method SetObject(o: Option<Target>)
      modifies this
      ensures obj == o
    {
      obj := o;
    }

    function GetNumberOfMembers(): nat
      reads this
    {
      values.Length
    }

    /** `getValue(index)`: ArrayIndexOutOfBoundsException outside [0, n). */
    function GetValue(index: int): (res: Result<real>)
      reads this, values
      ensures 0 <= index < values.Length <==> res.Ok?
      ensures res.Ok? ==> res.value == values[index]
      ensures res.Err? ==> res.error == ArrayIndexOutOfBounds
    {
      if 0 <= index < values.Length then Ok(values[index]) else Err(ArrayIndexOutOfBounds)
    }

    /** `getReferenceAt(index)`: the reference behind slot index. */
    function GetReferenceAt(index: int): (res: Result<PrimitiveReference>)
      reads this
      ensures 0 <= index < |references| <==> res.Ok?
      ensures res.Ok? ==> res.value == references[index]
    {
      if 0 <= index < |references| then Ok(references[index]) else Err(ArrayIndexOutOfBounds)
    }

    /** `setValue(index, value)`: changes values[index] only; the object is not touched until
        the next push. */
    method SetValue(index: int, value: real) returns (res: Outcome)
      modifies values
      ensures 0 <= index < values.Length ==> res == Pass && values[..] == old(values[..])[index := value]
      ensures !(0 <= index < values.Length) ==> res == Fail(ArrayIndexOutOfBounds) && values[..] == old(values[..])
    {
      if !(0 <= index < values.Length) {
        return Fail(ArrayIndexOutOfBounds);
      }
      values[index] := value;
      return Pass;
    }

    /** `refreshValuesFromObject()` (the pull): reads every reference in order into its slot.
        The first reference that cannot be read aborts the pull with a RuntimeException
        wrapping the cause, after the slots before it have been filled. */
    method RefreshValuesFromObject() returns (res: Outcome)
      requires Valid()
      modifies values
      ensures Valid()
      ensures var j := PullFailure(target.shape, target.state, references, 0);
        && values[..j] == Pulled(target.shape, target.state, references, j)
        && values[j..] == old(values[j..])
        && (j == |references| ==> res == Pass)
        && (j < |references| ==> res == Fail(Runtime(Some(Read(target.shape, target.state, references[j]).error))))
    {
      ghost var j := PullFailure(target.shape, target.state, references, 0);
      for i := 0 to |references|
        invariant i <= j
        invariant values[..i] == Pulled(target.shape, target.state, references, i)
        invariant values[i..] == old(values[i..])
      {
        var read := Read(target.shape, target.state, references[i]);
        if read.Err? {
          return Fail(Runtime(Some(read.error)));
        }
        values[i] := read.value;
        assert values[i + 1..] == old(values[i + 1..]);
      }
      res := Pass;
    }

    /** `updateObjectValues()` (the push): writes every slot back through its reference in
        order, with the casts of `getBooleanAt` ... `getDoubleAt` and no clamping. The first
        reference that cannot be written aborts with a RuntimeException wrapping the cause;
        the fields before it have already been written. */
    method UpdateObjectValues() returns (res: Outcome)
      requires Valid()
      modifies target
      ensures Valid()
      ensures var j := PushFailure(target.shape, references, 0);
        && target.state == old(target.state) + Writes(target.shape, references, values[..], j)
        && (j == |references| ==> res == Pass)
        && (j < |references| ==> res == Fail(Runtime(Some(Locate(target.shape, references[j], true).error))))
    {
      ghost var j := PushFailure(target.shape, references, 0);
      ghost var vals := values[..];
      ghost var start := target.state;
      for i := 0 to |references|
        invariant target.Valid() && i <= j
        invariant target.state == start + Writes(target.shape, references, vals, i)
      {
        var r := references[i];
        var v := Decode(r.rtype, values[i]);
        var written := target.Write(r, v);
        if written.Fail? {
          assert i == j;
          return Fail(Runtime(Some(written.error)));
        }
        WritesStep(target.shape, references, vals, start, i);
      }
      assert j == |references|;
      res := Pass;
    }

    /** `setValues(p)`: copies p into the slots; a vector of another length is refused. */
    method SetValues(p: array<real>) returns (res: Outcome)
      modifies values
      ensures p.Length == values.Length ==> res == Pass && values[..] == old(p[..])
      ensures p.Length != values.Length ==> res == Fail(ShapeMismatch) && values[..] == old(values[..])
    {
      if p.Length != values.Length {
        return Fail(ShapeMismatch);
      }
      forall i | 0 <= i < values.Length {
        values[i] := p[i];
      }
      return Pass;
    }

    /** `pushValuesToObject(p)`: setValues(p), then the push. */
    method PushValuesToObject(p: array<real>) returns (res: Outcome)
      requires Valid()
      modifies values, target
      ensures Valid()
      ensures p.Length != values.Length ==>
        res == Fail(ShapeMismatch) && values[..] == old(values[..]) && target.state == old(target.state)
      ensures p.Length == values.Length ==>
        var j := PushFailure(target.shape, references, 0);
        && values[..] == old(p[..])
        && target.state == old(target.state) + Writes(target.shape, references, old(p[..]), j)
        && (j == |references| ==> res == Pass)
        && (j < |references| ==> res == Fail(Runtime(Some(Locate(target.shape, references[j], true).error))))
    {
      res := SetValues(p);
      if res.Fail? {
        return;
      }
      res := UpdateObjectValues();
    }
  }
}
