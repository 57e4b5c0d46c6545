/** PrimitiveReference and PrimitiveReferenceIntoArray: locators of one primitive slot of a
    target object (a scalar field, or one element of a primitive-array field), the reads and
    writes through them, and the discovery rule that lists an object's slots in declared-field
    order. Reflection is replaced by field descriptors: a target is its declared fields and the
    lengths of its array fields (its Shape), plus a map from slots to their current values. */
module PrimitiveReference {
  import opened JavaLang
  import opened JavaNum
  import opened Text

  /** The kind of value a reference reads and writes (the ReferenceType enum). */
  datatype ReferenceType = BOOLEAN | INT | LONG | FLOAT | DOUBLE

  /** Java's primitive types: the declared type of a scalar field or of an array's elements. */
  datatype PrimType =
    BooleanType | ByteType | ShortType | CharType | IntType | LongType | FloatType | DoubleType

  function AsPrim(t: ReferenceType): PrimType
  {
    match t
    case BOOLEAN => BooleanType
    case INT => IntType
    case LONG => LongType
    case FLOAT => FloatType
    case DOUBLE => DoubleType
  }

  /** The reference type discovery uses for a primitive type; byte, short and char have none. */
  function KindOf(p: PrimType): (k: Option<ReferenceType>)
    ensures k.Some? ==> AsPrim(k.value) == p
    ensures k.None? <==> p in {ByteType, ShortType, CharType}
  {
    match p
    case BooleanType => Some(BOOLEAN)
    case IntType => Some(INT)
    case LongType => Some(LONG)
    case FloatType => Some(FLOAT)
    case DoubleType => Some(DOUBLE)
    case _ => None
  }

  /** What calling `getAllReferences(boolean)` through reflection gives for an object-typed
      field: the field's class has no such method, the invocation throws (it is caught and
      the field skipped), it returns null, or it returns an array of references. */
  datatype NestedDiscovery =
    | NoMethod
    | InvocationFails
    | ReturnsNull
    | Returns(refs: seq<PrimitiveReference>)

  datatype FieldType =
    | Primitive(prim: PrimType)
    | PrimitiveArray(elem: PrimType)
    | ObjectArray
    | ObjectType(nested: NestedDiscovery)

  /** A declared field: its name, its type, and whether it carries @Unwrapped. */
  datatype FieldDecl = FieldDecl(name: string, fieldType: FieldType, unwrapped: bool)

  /** A reference to a scalar field (the base class) or to one element of an array field
      (PrimitiveReferenceIntoArray), with the mutation bounds and step scale it carries. */
  datatype PrimitiveReference =
    | FieldReference(rtype: ReferenceType, field: FieldDecl,
                     minValue: real, maxValue: real, standardDeviationScale: real)
    | ArrayElementReference(rtype: ReferenceType, field: FieldDecl,
                            minValue: real, maxValue: real, standardDeviationScale: real,
                            indexInArray: int)

  /** The declared fields of the target's class in declaration order, and for each array
      field the length of the array it holds, None when it holds null. */
  datatype Shape = Shape(declared: seq<FieldDecl>, lengths: map<string, Option<nat>>)

  function ArrayLength(shape: Shape, name: string): Option<nat>
  {
    if name in shape.lengths then shape.lengths[name] else None
  }

  /** A primitive slot of the target: a scalar field, or an element of an array field. */
  datatype Slot = FieldSlot(name: string) | ElementSlot(name: string, index: int)

  datatype Value = BoolValue(b: bool) | NumValue(x: real)

  /** The slot a reference resolves to, and that slot's declared primitive type. */
  datatype Located = Located(slot: Slot, declaredType: PrimType)

  /** Java's widening primitive conversions (JLS 5.1.2), which `Field.getX`/`Field.setX` apply;
      every type also converts to itself. */
  predicate Widens(from: PrimType, to: PrimType)
  {
    from == to ||
    match from
    case ByteType => to in {ShortType, IntType, LongType, FloatType, DoubleType}
    case ShortType => to in {IntType, LongType, FloatType, DoubleType}
    case CharType => to in {IntType, LongType, FloatType, DoubleType}
    case IntType => to in {LongType, FloatType, DoubleType}
    case LongType => to in {FloatType, DoubleType}
    case FloatType => to == DoubleType
    case _ => false
  }

  predicate IntegralIn(v: Value, lo: int, hi: int)
  {
    v.NumValue? && IsIntegral(v.x) && lo as real <= v.x <= hi as real
  }

  /** v is a value of primitive type p (float rounding is not modelled). */
  predicate Fits(p: PrimType, v: Value)
  {
    match p
    case BooleanType => v.BoolValue?
    case ByteType => IntegralIn(v, -128, 127)
    case ShortType => IntegralIn(v, -32768, 32767)
    case CharType => IntegralIn(v, 0, 65535)
    case IntType => IntegralIn(v, IntMin, IntMax)
    case LongType => IntegralIn(v, LongMin, LongMax)
    case FloatType => v.NumValue?
    case DoubleType => v.NumValue?
  }

  /** A widening conversion keeps a value within the wider type. */
  lemma WidenFits(a: PrimType, b: PrimType, v: Value)
    requires Fits(a, v) && Widens(a, b)
    ensures Fits(b, v)
  {
  }

  /** Where a read (write = false) or write through r lands, or the exception reflection
      throws: IllegalArgumentException for a field the class does not declare, or for a scalar
      access whose type does not widen (the field's type to the reference's on a read, the
      reference's to the field's on a write), or for a scalar access to a non-primitive field;
      for an element access NullPointerException on a null array, ClassCastException when the
      field does not hold an array of exactly the reference's type, and
      ArrayIndexOutOfBoundsException for an index outside the array. */
  function Locate(shape: Shape, r: PrimitiveReference, write: bool): (res: Result<Located>)
    ensures res.Ok? ==> r.field in shape.declared && res.value.slot.name == r.field.name
    ensures res.Ok? && r.FieldReference? ==>
      r.field.fieldType.Primitive? && res.value == Located(FieldSlot(r.field.name), r.field.fieldType.prim) &&
      (if write then Widens(AsPrim(r.rtype), r.field.fieldType.prim) else Widens(r.field.fieldType.prim, AsPrim(r.rtype)))
    ensures res.Ok? && r.ArrayElementReference? ==>
      r.field.fieldType == PrimitiveArray(AsPrim(r.rtype)) &&
      ArrayLength(shape, r.field.name).Some? && 0 <= r.indexInArray < ArrayLength(shape, r.field.name).value &&
      res.value == Located(ElementSlot(r.field.name, r.indexInArray), AsPrim(r.rtype))
  {
    if r.field !in shape.declared then Err(IllegalArgument)
    else match r
      case FieldReference(t, f, _, _, _) =>
        (match f.fieldType
         case Primitive(p) =>
           if (if write then Widens(AsPrim(t), p) else Widens(p, AsPrim(t)))
           then Ok(Located(FieldSlot(f.name), p))
           else Err(IllegalArgument)
         case _ => Err(IllegalArgument))
      case ArrayElementReference(t, f, _, _, _, i) =>
        (match f.fieldType
         case PrimitiveArray(e) =>
           (match ArrayLength(shape, f.name)
            case None => Err(NullPointer)
            case Some(n) =>
              if e != AsPrim(t) then Err(ClassCast)
              else if i < 0 || i >= n then Err(ArrayIndexOutOfBounds)
              else Ok(Located(ElementSlot(f.name, i), e)))
         case ObjectArray =>
           if ArrayLength(shape, f.name).None? then Err(NullPointer) else Err(ClassCast)
         case _ => Err(ClassCast))
  }

  /** `getBoolean()`, `getInt()`, ...: the value in r's slot. A slot missing from the state
      map (which a well-formed target never has) reads as IllegalArgumentException. */
  function Get(shape: Shape, state: map<Slot, Value>, r: PrimitiveReference): Result<Value>
  {
    var loc :- Locate(shape, r, false);
    if loc.slot in state then Ok(state[loc.slot]) else Err(IllegalArgument)
  }

  /** `set(v)`: the state with r's slot overwritten by v, and nothing else changed. */
  function Set(shape: Shape, state: map<Slot, Value>, r: PrimitiveReference, v: Value): Result<map<Slot, Value>>
  {
    var loc :- Locate(shape, r, true);
    Ok(state[loc.slot := v])
  }

  /** Whether the access can succeed depends on the shape only, never on the values. */
  lemma SetOnlyWritesItsSlot(shape: Shape, state: map<Slot, Value>, r: PrimitiveReference, v: Value)
    ensures Set(shape, state, r, v).Ok? <==> Locate(shape, r, true).Ok?
    ensures Set(shape, state, r, v).Ok? ==>
      var s := Locate(shape, r, true).value.slot;
      var after := Set(shape, state, r, v).value;
      after.Keys == state.Keys + {s} && after[s] == v &&
      forall other | other in state && other != s :: after[other] == state[other]
  {
  }

  /** Reading back an element or a field of exactly the reference's type after writing it
      gives the written value. */
  lemma GetAfterSet(shape: Shape, state: map<Slot, Value>, r: PrimitiveReference, v: Value)
    requires Set(shape, state, r, v).Ok?
    requires r.FieldReference? ==> r.field.fieldType == Primitive(AsPrim(r.rtype))
    ensures Get(shape, Set(shape, state, r, v).value, r) == Ok(v)
  {
  }

  /** Element references fail on a null array, on an element type other than the
      reference's, and on an index outside the array, in that order. */
  lemma ElementErrors(shape: Shape, r: PrimitiveReference, write: bool)
    requires r.ArrayElementReference? && r.field in shape.declared
    requires r.field.fieldType.PrimitiveArray?
    ensures ArrayLength(shape, r.field.name).None? ==> Locate(shape, r, write) == Err(NullPointer)
    ensures ArrayLength(shape, r.field.name).Some? && r.field.fieldType.elem != AsPrim(r.rtype) ==>
      Locate(shape, r, write) == Err(ClassCast)
    ensures (ArrayLength(shape, r.field.name).Some? && r.field.fieldType.elem == AsPrim(r.rtype) &&
             !(0 <= r.indexInArray < ArrayLength(shape, r.field.name).value)) ==>
            Locate(shape, r, write) == Err(ArrayIndexOutOfBounds)
  {
  }

  /** No two declared fields share a name (true of the fields a Java class declares). */
  predicate DistinctNames(d: seq<FieldDecl>)
  {
    forall i, j | 0 <= i < j < |d| :: d[i].name != d[j].name
  }

  /** Every slot of field f is present and holds a value of its declared type. */
  predicate FieldFits(shape: Shape, state: map<Slot, Value>, f: FieldDecl)
  {
    match f.fieldType
    case Primitive(p) => FieldSlot(f.name) in state && Fits(p, state[FieldSlot(f.name)])
    case PrimitiveArray(e) =>
      var n := if ArrayLength(shape, f.name).Some? then ArrayLength(shape, f.name).value else 0;
      forall k | 0 <= k < n :: ElementSlot(f.name, k) in state && Fits(e, state[ElementSlot(f.name, k)])
    case _ => true
  }

  /** A state the target's class can be in: every slot present and well typed. */
  predicate WellFormed(shape: Shape, state: map<Slot, Value>)
  {
    DistinctNames(shape.declared) && forall f | f in shape.declared :: FieldFits(shape, state, f)
  }

  /** In a well-formed state every located slot is present and holds a value of its type. */
  lemma LocatedFits(shape: Shape, state: map<Slot, Value>, r: PrimitiveReference, write: bool)
    requires WellFormed(shape, state) && Locate(shape, r, write).Ok?
    ensures var loc := Locate(shape, r, write).value;
            loc.slot in state && Fits(loc.declaredType, state[loc.slot])
  {
    assert FieldFits(shape, state, r.field);
  }

  /** A successful read of a well-formed state gives a value of the reference's type, since the
      field's type widens to it. */
  lemma GetFits(shape: Shape, state: map<Slot, Value>, r: PrimitiveReference)
    requires WellFormed(shape, state) && Locate(shape, r, false).Ok?
    ensures Get(shape, state, r).Ok? && Fits(AsPrim(r.rtype), Get(shape, state, r).value)
  {
    LocatedFits(shape, state, r, false);
    var loc := Locate(shape, r, false).value;
    WidenFits(loc.declaredType, AsPrim(r.rtype), state[loc.slot]);
  }

  lemma SameName(d: seq<FieldDecl>, f: FieldDecl, g: FieldDecl)
    requires DistinctNames(d) && f in d && g in d && f.name == g.name
    ensures f == g
  {
  }

  /** Writing a value of the reference's type keeps the target well formed. */
  lemma SetKeepsWellFormed(shape: Shape, state: map<Slot, Value>, r: PrimitiveReference, v: Value)
    requires WellFormed(shape, state) && Set(shape, state, r, v).Ok? && Fits(AsPrim(r.rtype), v)
    ensures WellFormed(shape, Set(shape, state, r, v).value)
  {
    var loc := Locate(shape, r, true).value;
    var after := state[loc.slot := v];
    WidenFits(AsPrim(r.rtype), loc.declaredType, v);
    forall g | g in shape.declared
      ensures FieldFits(shape, after, g)
    {
      assert FieldFits(shape, state, g);
      if g.name == r.field.name {
        SameName(shape.declared, g, r.field);
      }
    }
  }

  /** The 7-argument PrimitiveReferenceIntoArray constructor: IllegalArgumentException when the
      field's type is not an array type. */
  function NewArrayReference(t: ReferenceType, f: FieldDecl, index: int, minValue: real, maxValue: real, sd: real)
    : (res: Result<PrimitiveReference>)
    ensures res.Ok? <==> f.fieldType.PrimitiveArray? || f.fieldType.ObjectArray?
    ensures res.Ok? ==> res.value == ArrayElementReference(t, f, minValue, maxValue, sd, index)
  {
    if f.fieldType.PrimitiveArray? || f.fieldType.ObjectArray?
    then Ok(ArrayElementReference(t, f, minValue, maxValue, sd, index))
    else Err(IllegalArgument)
  }

  /** `clone()`: the base class copies through its copy constructor and the array subclass
      through its own, so a clone keeps the index too. */
  function Clone(r: PrimitiveReference): (c: PrimitiveReference)
    ensures c == r
  {
    match r
    case FieldReference(t, f, lo, hi, sd) => FieldReference(t, f, lo, hi, sd)
    case ArrayElementReference(t, f, lo, hi, sd, i) => ArrayElementReference(t, f, lo, hi, sd, i)
  }

  /** `new PrimitiveReference(copyMe)`: copies type, field, bounds and scale into a base-class
      reference, so the copy of an element reference refers to the whole array field. */
  function CopyAsFieldReference(r: PrimitiveReference): (c: PrimitiveReference)
    ensures c.FieldReference? && c.rtype == r.rtype && c.field == r.field
    ensures c.minValue == r.minValue && c.maxValue == r.maxValue
    ensures c.standardDeviationScale == r.standardDeviationScale
  {
    FieldReference(r.rtype, r.field, r.minValue, r.maxValue, r.standardDeviationScale)
  }

  /** The base-class copy of an element reference can neither read nor write: an array field
      is not a primitive field. */
  lemma CopiedElementFails(shape: Shape, state: map<Slot, Value>, r: PrimitiveReference, v: Value)
    requires r.ArrayElementReference? && r.field.fieldType.PrimitiveArray?
    ensures Get(shape, state, CopyAsFieldReference(r)) == Err(IllegalArgument)
    ensures Set(shape, state, CopyAsFieldReference(r), v) == Err(IllegalArgument)
  {
  }

  /** `isArrayMember()`: declared in the base class only, so false for element references too. */
  function IsArrayMember(r: PrimitiveReference): (b: bool)
    ensures !b
  {
    false
  }

  /** `getFieldName()`: the field's name, followed for an element reference by ", index " and
      the index in decimal. */
  function GetFieldName(r: PrimitiveReference): (s: string)
    ensures |s| >= |r.field.name| && s[..|r.field.name|] == r.field.name
    ensures r.FieldReference? ==> s == r.field.name
    ensures r.ArrayElementReference? ==> s[|r.field.name|..] == ", index " + IntToString(r.indexInArray)
  {
    match r
    case FieldReference(_, f, _, _, _) => f.name
    case ArrayElementReference(_, f, _, _, _, i) => f.name + ", index " + IntToString(i)
  }

  /** Two element references of the same field are told apart by their names exactly when
      their indices differ. */
  lemma FieldNamesDistinguishIndices(r: PrimitiveReference, q: PrimitiveReference)
    requires r.ArrayElementReference? && q.ArrayElementReference? && r.field.name == q.field.name
    ensures GetFieldName(r) == GetFieldName(q) <==> r.indexInArray == q.indexInArray
  {
    if GetFieldName(r) == GetFieldName(q) {
      var n := |r.field.name| + |", index "|;
      assert GetFieldName(r)[n..] == IntToString(r.indexInArray);
      assert GetFieldName(q)[n..] == IntToString(q.indexInArray);
      IntToStringInjective(r.indexInArray, q.indexInArray);
    }
  }

  lemma IntToStringInjective(a: int, b: int)
    requires IntToString(a) == IntToString(b)
    ensures a == b
  {
    if a < 0 && b < 0 {
      assert IntToString(a)[1..] == NatToString(-a);
      assert IntToString(b)[1..] == NatToString(-b);
      NatToStringInjective(-a, -b);
    } else if a >= 0 && b >= 0 {
      NatToStringInjective(a, b);
    }
  }

  lemma {:induction false} NatToStringInjective(a: nat, b: nat)
    requires NatToString(a) == NatToString(b)
    ensures a == b
    decreases a
  {
    var s := NatToString(a);
    if a >= 10 && b >= 10 {
      assert s[..|s| - 1] == NatToString(a / 10) && s[..|s| - 1] == NatToString(b / 10);
      NatToStringInjective(a / 10, b / 10);
      DigitCharInjective(a % 10, b % 10);
    } else if a < 10 && b < 10 {
      DigitCharInjective(a, b);
    }
  }

  lemma DigitCharInjective(a: nat, b: nat)
    requires a < 10 && b < 10 && DigitChar(a) == DigitChar(b)
    ensures a == b
  {
  }

  /** The references discovery takes from one field, all with the default bounds
      [-Double.MAX_VALUE, Double.MAX_VALUE] and scale 1.0 (MutationInfo has no runtime retention,
      so its values never reach the reflection lookup): nothing for an @Unwrapped field; one
      reference for a boolean, int, long, float or double field; one per element, in index
      order, for an array of those types unless it is null; nothing for byte, short and char
      and their arrays or for arrays of objects; for an object field the references its
      `getAllReferences` returns, nothing when it has no such method or the call throws, and
      a NullPointerException when it returns null. */
  function FieldRefs(shape: Shape, f: FieldDecl): Result<seq<PrimitiveReference>>
  {
    if f.unwrapped then Ok([])
    else match f.fieldType
      case Primitive(p) =>
        if KindOf(p).Some? then Ok([FieldReference(KindOf(p).value, f, -DoubleMax, DoubleMax, 1.0)]) else Ok([])
      case PrimitiveArray(e) =>
        if KindOf(e).Some? && ArrayLength(shape, f.name).Some?
        then Ok(ElementRefs(KindOf(e).value, f, ArrayLength(shape, f.name).value))
        else Ok([])
      case ObjectArray => Ok([])
      case ObjectType(nested) =>
        (match nested
         case NoMethod => Ok([])
         case InvocationFails => Ok([])
         case ReturnsNull => Err(NullPointer)
         case Returns(refs) => Ok(refs))
  }

  /** One element reference per index of an n-element array field. */
  function ElementRefs(t: ReferenceType, f: FieldDecl, n: nat): (refs: seq<PrimitiveReference>)
    ensures |refs| == n
    ensures forall i | 0 <= i < n :: refs[i] == ArrayElementReference(t, f, -DoubleMax, DoubleMax, 1.0, i)
  {
    seq(n, i => ArrayElementReference(t, f, -DoubleMax, DoubleMax, 1.0, i))
  }

  /** The references of fields[..k], field after field; the first failing field's exception
      otherwise. */
  function Discovered(shape: Shape, fields: seq<FieldDecl>): Result<seq<PrimitiveReference>>
    decreases |fields|
  {
    if |fields| == 0 then Ok([])
    else
      var init :- Discovered(shape, fields[..|fields| - 1]);
      var last :- FieldRefs(shape, fields[|fields| - 1]);
      Ok(init + last)
  }

  /** `getAllReferencesFrom(o, getPrivateReferences)`: walks the declared fields in order and
      appends each field's references. */
  method GetAllReferencesFrom(o: Target) returns (res: Result<seq<PrimitiveReference>>)
    ensures res == Discovered(o.shape, o.shape.declared)
  {
    var fields := o.shape.declared;
    var references: seq<PrimitiveReference> := [];
    for i := 0 to |fields|
      invariant Discovered(o.shape, fields[..i]) == Ok(references)
    {
      var f := fields[i];
      DiscoveredStep(o.shape, fields, i);
      ghost var prev := references;
      ghost var added: seq<PrimitiveReference> := [];
      if !f.unwrapped {
        match f.fieldType {
          case Primitive(p) =>
            var kind := KindOf(p);
            if kind.Some? {
              references := references + [FieldReference(kind.value, f, -DoubleMax, DoubleMax, 1.0)];
              added := [FieldReference(kind.value, f, -DoubleMax, DoubleMax, 1.0)];
            }
          case PrimitiveArray(e) =>
            var kind := KindOf(e);
            var len := ArrayLength(o.shape, f.name);
            if kind.Some? && len.Some? {
              for k := 0 to len.value
                invariant references == prev + ElementRefs(kind.value, f, k)
              {
                assert ElementRefs(kind.value, f, k + 1) == ElementRefs(kind.value, f, k) + [ArrayElementReference(kind.value, f, -DoubleMax, DoubleMax, 1.0, k)];
                references := references + [ArrayElementReference(kind.value, f, -DoubleMax, DoubleMax, 1.0, k)];
              }
              added := ElementRefs(kind.value, f, len.value);
            }
          case ObjectArray =>
          case ObjectType(nested) =>
            match nested {
              case NoMethod =>
              case InvocationFails =>
              case ReturnsNull =>
                DiscoveredErrorStays(o.shape, fields, i + 1);
                return Err(NullPointer);
              case Returns(addRefs) =>
                added := addRefs;
                references := references + addRefs;
            }
        }
      }
      assert FieldRefs(o.shape, f) == Ok(added);
      assert references == prev + added;
    }
    assert fields[..|fields|] == fields;
    return Ok(references);
  }

  lemma DiscoveredStep(shape: Shape, fields: seq<FieldDecl>, i: nat)
    requires i < |fields|
    ensures Discovered(shape, fields[..i]).Ok? && FieldRefs(shape, fields[i]).Ok? ==>
      Discovered(shape, fields[..i + 1]) == Ok(Discovered(shape, fields[..i]).value + FieldRefs(shape, fields[i]).value)
    ensures Discovered(shape, fields[..i]).Ok? && FieldRefs(shape, fields[i]).Err? ==>
      Discovered(shape, fields[..i + 1]) == Err(FieldRefs(shape, fields[i]).error)
  {
    assert fields[..i + 1][..i] == fields[..i];
  }

  /** Once a prefix of the fields fails, every longer prefix fails with the same exception. */
  lemma {:induction false} DiscoveredErrorStays(shape: Shape, fields: seq<FieldDecl>, i: nat)
    requires 0 < i <= |fields| && Discovered(shape, fields[..i]).Err?
    ensures Discovered(shape, fields) == Discovered(shape, fields[..i])
    decreases |fields| - i
  {
    if i == |fields| {
      assert fields[..i] == fields;
    } else {
      assert fields[..i + 1][..i] == fields[..i];
      DiscoveredErrorStays(shape, fields, i + 1);
    }
  }

  /** Discovery keeps declaration order: the references of a class whose fields are a then b
      are a's references followed by b's. */
  lemma {:induction false} DiscoveredConcat(shape: Shape, a: seq<FieldDecl>, b: seq<FieldDecl>)
    requires Discovered(shape, a).Ok? && Discovered(shape, b).Ok?
    ensures Discovered(shape, a + b) == Ok(Discovered(shape, a).value + Discovered(shape, b).value)
    decreases |b|
  {
    if |b| == 0 {
      assert a + b == a;
      assert Discovered(shape, a).value + Discovered(shape, b).value == Discovered(shape, a).value;
    } else {
      var b' := b[..|b| - 1];
      var last := b[|b| - 1];
      assert (a + b)[..|a + b| - 1] == a + b';
      assert (a + b)[|a + b| - 1] == last;
      assert Discovered(shape, b').Ok? && FieldRefs(shape, last).Ok?;
      DiscoveredConcat(shape, a, b');
      assert Discovered(shape, a + b) == Ok(Discovered(shape, a + b').value + FieldRefs(shape, last).value);
      assert Discovered(shape, b).value == Discovered(shape, b').value + FieldRefs(shape, last).value;
      assert (Discovered(shape, a).value + Discovered(shape, b').value) + FieldRefs(shape, last).value
          == Discovered(shape, a).value + (Discovered(shape, b').value + FieldRefs(shape, last).value);
    }
  }

  /** A field appended to a class contributes exactly its own references, after the others. */
  lemma DiscoveredSnoc(shape: Shape, fields: seq<FieldDecl>, f: FieldDecl)
    requires Discovered(shape, fields).Ok? && FieldRefs(shape, f).Ok?
    ensures Discovered(shape, fields + [f]) == Ok(Discovered(shape, fields).value + FieldRefs(shape, f).value)
  {
    assert (fields + [f])[..|fields|] == fields;
  }

  /** The per-field rules, spelt out. */
  lemma FieldRules(shape: Shape, f: FieldDecl)
    ensures f.unwrapped ==> FieldRefs(shape, f) == Ok([])
    ensures !f.unwrapped && f.fieldType.Primitive? && KindOf(f.fieldType.prim).Some? ==>
      FieldRefs(shape, f) == Ok([FieldReference(KindOf(f.fieldType.prim).value, f, -DoubleMax, DoubleMax, 1.0)])
    ensures f.fieldType.Primitive? && f.fieldType.prim in {ByteType, ShortType, CharType} ==> FieldRefs(shape, f) == Ok([])
    ensures (!f.unwrapped && f.fieldType.PrimitiveArray? && KindOf(f.fieldType.elem).Some? &&
             ArrayLength(shape, f.name).Some?) ==>
            FieldRefs(shape, f).Ok? && |FieldRefs(shape, f).value| == ArrayLength(shape, f.name).value &&
            forall i | 0 <= i < ArrayLength(shape, f.name).value ::
              FieldRefs(shape, f).value[i].ArrayElementReference? && FieldRefs(shape, f).value[i].indexInArray == i
    ensures f.fieldType.PrimitiveArray? && ArrayLength(shape, f.name).None? ==> FieldRefs(shape, f) == Ok([])
    ensures f.fieldType.ObjectType? && f.fieldType.nested in {NoMethod, InvocationFails} ==> FieldRefs(shape, f) == Ok([])
  {
  }

  /** Every reference discovery creates itself (not returned by a nested `getAllReferences`)
      carries the default bounds and scale. */
  lemma DefaultBounds(shape: Shape, f: FieldDecl)
    requires !f.fieldType.ObjectType? && FieldRefs(shape, f).Ok?
    ensures forall r | r in FieldRefs(shape, f).value ::
      r.minValue == -DoubleMax && r.maxValue == DoubleMax && r.standardDeviationScale == 1.0
  {
  }

  /** No field is an object field with a `getAllReferences` method that returns something. */
  predicate NoNestedRefs(fields: seq<FieldDecl>)
  {
    forall f | f in fields :: !(f.fieldType.ObjectType? && (f.fieldType.nested.Returns? || f.fieldType.nested.ReturnsNull?))
  }

  /** r reads and writes a slot of exactly its own type. */
  predicate Exact(shape: Shape, r: PrimitiveReference)
  {
    Locate(shape, r, false).Ok? && Locate(shape, r, true).Ok? &&
    Locate(shape, r, false).value.declaredType == AsPrim(r.rtype)
  }

  /** Without nested discovery the class's fields yield only references that resolve, for
      reading and writing, to a slot of exactly their type. */
  lemma {:induction false} DiscoveredExact(shape: Shape, fields: seq<FieldDecl>)
    requires NoNestedRefs(fields) && forall f | f in fields :: f in shape.declared
    ensures Discovered(shape, fields).Ok?
    ensures forall r | r in Discovered(shape, fields).value :: Exact(shape, r)
    decreases |fields|
  {
    if |fields| > 0 {
      var init := fields[..|fields| - 1];
      var f := fields[|fields| - 1];
      assert forall g | g in init :: g in fields;
      DiscoveredExact(shape, init);
      assert f in fields;
    }
  }

  /** The source's own test class TestHolder: two double fields, a boolean, an @Unwrapped
      int[10], a double[5] and a field of its own class without `getAllReferences`. */
  function TestHolderShape(): Shape
  {
    Shape([FieldDecl("publicDouble", Primitive(DoubleType), false),
           FieldDecl("privateDouble", Primitive(DoubleType), false),
           FieldDecl("protectedBoolean", Primitive(BooleanType), false),
           FieldDecl("publicIntArray", PrimitiveArray(IntType), true),
           FieldDecl("publicDoubleArray", PrimitiveArray(DoubleType), false),
           FieldDecl("testHolder", ObjectType(NoMethod), false)],
          map["publicIntArray" := Some(10), "publicDoubleArray" := Some(5)])
  }

  /** The references each TestHolder field contributes on its own. */
  lemma TestHolderFields()
    ensures var shape := TestHolderShape();
            var d := shape.declared;
            && FieldRefs(shape, d[0]) == Ok([FieldReference(DOUBLE, d[0], -DoubleMax, DoubleMax, 1.0)])
            && FieldRefs(shape, d[1]) == Ok([FieldReference(DOUBLE, d[1], -DoubleMax, DoubleMax, 1.0)])
            && FieldRefs(shape, d[2]) == Ok([FieldReference(BOOLEAN, d[2], -DoubleMax, DoubleMax, 1.0)])
            && FieldRefs(shape, d[3]) == Ok([])
            && FieldRefs(shape, d[4]) == Ok(ElementRefs(DOUBLE, d[4], 5))
            && FieldRefs(shape, d[5]) == Ok([])
  {
    var shape := TestHolderShape();
    assert ArrayLength(shape, "publicDoubleArray") == Some(5);
  }

  /** TestHolder yields 8 references: the two doubles, the boolean, then the five elements of
      the double array. */
  lemma TestHolderReferences()
    ensures var res := Discovered(TestHolderShape(), TestHolderShape().declared);
            res.Ok? && |res.value| == 8 &&
            res.value[0].rtype == DOUBLE && res.value[0].field.name == "publicDouble" &&
            res.value[1].rtype == DOUBLE && res.value[1].field.name == "privateDouble" &&
            res.value[2].rtype == BOOLEAN &&
            forall i | 3 <= i < 8 :: res.value[i] == ArrayElementReference(DOUBLE, TestHolderShape().declared[4], -DoubleMax, DoubleMax, 1.0, i - 3)
  {
    var shape := TestHolderShape();
    var d := shape.declared;
    var r0 := FieldReference(DOUBLE, d[0], -DoubleMax, DoubleMax, 1.0);
    var r1 := FieldReference(DOUBLE, d[1], -DoubleMax, DoubleMax, 1.0);
    var r2 := FieldReference(BOOLEAN, d[2], -DoubleMax, DoubleMax, 1.0);
    var arr := ElementRefs(DOUBLE, d[4], 5);
    TestHolderFields();
    DiscoveredSix(shape, d, r0, r1, r2, arr);
  }

  /** Six fields contributing one, one, one, none, a run and none give those references in
      order. */
  lemma DiscoveredSix(shape: Shape, d: seq<FieldDecl>, r0: PrimitiveReference, r1: PrimitiveReference,
                      r2: PrimitiveReference, arr: seq<PrimitiveReference>)
    requires |d| == 6
    requires FieldRefs(shape, d[0]) == Ok([r0]) && FieldRefs(shape, d[1]) == Ok([r1])
    requires FieldRefs(shape, d[2]) == Ok([r2]) && FieldRefs(shape, d[3]) == Ok([])
    requires FieldRefs(shape, d[4]) == Ok(arr) && FieldRefs(shape, d[5]) == Ok([])
    ensures Discovered(shape, d) == Ok([r0, r1, r2] + arr)
  {
    assert d[..0] == [];
    DiscoveredStep(shape, d, 0);
    assert [] + [r0] == [r0];
    DiscoveredStep(shape, d, 1);
    assert [r0] + [r1] == [r0, r1];
    DiscoveredStep(shape, d, 2);
    assert [r0, r1] + [r2] == [r0, r1, r2];
    DiscoveredStep(shape, d, 3);
    assert [r0, r1, r2] + [] == [r0, r1, r2];
    DiscoveredStep(shape, d, 4);
    DiscoveredStep(shape, d, 5);
    assert [r0, r1, r2] + arr + [] == [r0, r1, r2] + arr;
    assert d[..6] == d;
  }

  /** The object whose primitive fields are wrapped. Its class's fields and array lengths are
      fixed; `state` holds the current value of every primitive slot. */
  class Target {
    const shape: Shape
    var state: map<Slot, Value>

    ghost predicate Valid()
      reads this
    {
      WellFormed(shape, state)
    }

    constructor (shape: Shape, state: map<Slot, Value>)
      requires WellFormed(shape, state)
      ensures this.shape == shape && this.state == state && Valid()
    {
      this.shape := shape;
      this.state := state;
    }

    /** `set(v)` through reference r: on success r's slot holds v and nothing else changed;
        on an exception the object is untouched. */
    method Write(r: PrimitiveReference, v: Value) returns (res: Outcome)
      requires Valid() && Fits(AsPrim(r.rtype), v)
      modifies this
      ensures Valid()
      ensures Locate(shape, r, true).Ok? ==> res == Pass && state == old(state)[Locate(shape, r, true).value.slot := v]
      ensures Locate(shape, r, true).Err? ==> res == Fail(Locate(shape, r, true).error) && state == old(state)
    {
      var loc := Locate(shape, r, true);
      if loc.Err? {
        return Fail(loc.error);
      }
      SetKeepsWellFormed(shape, state, r, v);
      state := state[loc.value.slot := v];
      return Pass;
    }
  }
}
