/**
 * The classifier shared by both array passes: which fields are unsupported
 * fixed arrays, which of the four unwrap strategies applies to the element
 * type, and the (slot type, slot count, slot width) triple it yields.
 * Both passes carry identical copies of this logic; it is defined once here.
 */
module ArrayShape {
  import opened Results
  import opened Numerals
  import opened Ast

  /** Exceptions that abort a pass: integer division by a zero inner-array size, and call-stack exhaustion. */
  datatype Fault = DivideByZero | StackOverflow

  datatype Strategy = PointerToPrimitive | PointerToArray | ArrayOfArray | NonPrimitiveScalar

  /** Slot type, number of slots, and slot width in bits (0 where the width is left to the emitter). */
  datatype UnwrapInfo = UnwrapInfo(ty: Type, count: nat, width: nat)

  /** An array type whose extent is a compile-time constant; variable, dependent and incomplete arrays are not. */
  predicate IsConstSizeArray(t: Type): (r: bool)
    ensures !t.Array? ==> !r
    ensures t.Array? ==> (r <==> t.sizeType !in {Variable, Dependent, Incomplete})
  {
    t.Array? && t.sizeType == Constant
  }

  /** A constant-size array whose desugared element is not a builtin type. */
  predicate ShouldUnwrap(t: Type): (r: bool)
    ensures r ==> IsConstSizeArray(t)
    ensures IsConstSizeArray(t) && Desugar(t.elem).Builtin? ==> !r
  {
    IsConstSizeArray(t) && !IsPrimitive(Desugar(t.elem))
  }

  /** The arrays the passes unwrap are exactly those whose element one of the four strategies takes. */
  lemma ShouldUnwrapIffStrategy(t: Type)
    ensures ShouldUnwrap(t) <==> IsConstSizeArray(t) && StrategyOf(Desugar(t.elem)).Some?
  {
  }

  /** The first strategy whose test the element type passes, in the order the passes test them. */
  function StrategyOf(e: Type): (s: Option<Strategy>)
    ensures s.None? <==> IsPrimitive(e)
    ensures s == Some(PointerToPrimitive) <==> IsPointerToPrimitive(e)
    ensures s == Some(PointerToArray) <==> IsPointerToArray(e) && !IsPointerToPrimitive(e)
    ensures s == Some(ArrayOfArray) <==> e.Array?
  {
    if IsPointerToPrimitive(e) then Some(PointerToPrimitive)
    else if IsPointerToArray(e) then Some(PointerToArray)
    else if e.Array? then Some(ArrayOfArray)
    else if !IsPrimitive(e) then Some(NonPrimitiveScalar)
    else None
  }

  /**
   * `GetUnwrapInfo(arrayType, typeInArray)`: `Success(None)` is the C# `null`
   * (the "failed to unwrap" path); `Failure(DivideByZero)` is the exception
   * raised when an array-of-array element has inner size 0.
   */
  function GetUnwrapInfo(arrayType: Type, typeInArray: Type, pointerWidth: nat): (r: Result<Option<UnwrapInfo>, Fault>)
    requires arrayType.Array?
    ensures r == Success(None) <==> IsPrimitive(typeInArray)
    ensures r.Failure? <==> typeInArray.Array? && typeInArray.size == 0
    ensures r.Success? && r.value.Some? ==>
      var info := r.value.value;
      // slot types never grow: this bounds the recursion of both passes
      && Height(info.ty) <= Height(typeInArray)
      // only the array-of-array strategy produces slots that are arrays again
      && (info.ty.Array? <==> typeInArray.Array?)
      && (info.ty.Array? ==> IsConstSizeArray(info.ty))
      // the slots cover the outer array: whole rows for array-of-array, one slot per element otherwise
      && (typeInArray.Array? ==>
            info.count * typeInArray.size <= arrayType.size < (info.count + 1) * typeInArray.size)
      && (!typeInArray.Array? ==> info.count == arrayType.size)
      && info.width == (if StrategyOf(typeInArray) == Some(PointerToArray) then pointerWidth else 0)
  {
    match StrategyOf(typeInArray)
    case None => Success(None)
    case Some(PointerToPrimitive) =>
      Success(Some(UnwrapInfo(Pointer(typeInArray.pointee), arrayType.size, 0)))
    case Some(PointerToArray) =>
      var inner := typeInArray.pointee.ty;
      Success(Some(UnwrapInfo(
        Pointer(QualifiedType(Pointer(QualifiedType(inner.elem, NoQualifiers)), NoQualifiers)),
        arrayType.size, pointerWidth)))
    case Some(ArrayOfArray) =>
      if typeInArray.size == 0 then Failure(DivideByZero)
      else
        DivisionBounds(arrayType.size, typeInArray.size);
        Success(Some(UnwrapInfo(
          Array(typeInArray.elem, Constant, typeInArray.size),
          arrayType.size / typeInArray.size, 0)))
    case Some(NonPrimitiveScalar) =>
      Success(Some(UnwrapInfo(typeInArray, arrayType.size, 0)))
  }

  lemma DivisionBounds(n: nat, m: nat)
    requires m > 0
    ensures (n / m) * m <= n < (n / m + 1) * m
  {
    assert n == (n / m) * m + n % m;
    assert (n / m + 1) * m == (n / m) * m + m;
  }

  /** The classification of a field's own type: the element is desugared first. */
  function FieldUnwrapInfo(t: Type, pointerWidth: nat): Result<Option<UnwrapInfo>, Fault>
    requires t.Array?
  {
    GetUnwrapInfo(t, Desugar(t.elem), pointerWidth)
  }

  /** For every field the pass decides to unwrap, `GetUnwrapInfo` is never `null`: the warning path is dead. */
  lemma WarningPathUnreachable(t: Type, pointerWidth: nat)
    requires ShouldUnwrap(t)
    ensures FieldUnwrapInfo(t, pointerWidth) != Success(None)
  {
  }

  /** Each unwrap step strictly lowers the nesting height of the type. */
  lemma SlotTypeShallower(t: Type, pointerWidth: nat)
    requires ShouldUnwrap(t) && FieldUnwrapInfo(t, pointerWidth).Success?
    ensures FieldUnwrapInfo(t, pointerWidth).value.Some?
    ensures Height(FieldUnwrapInfo(t, pointerWidth).value.value.ty) < Height(t)
  {
  }

  /**
   * The four rows of the classification table: slot type, count and width
   * for pointer-to-primitive, pointer-to-array, array-of-array and
   * non-primitive scalar elements.
   */
  lemma UnwrapTable(t: Type, pointerWidth: nat)
    requires ShouldUnwrap(t) && FieldUnwrapInfo(t, pointerWidth).Success?
    ensures
      var e := Desugar(t.elem);
      var info := FieldUnwrapInfo(t, pointerWidth).value.value;
      match StrategyOf(e).value
      case PointerToPrimitive =>
        info == UnwrapInfo(Pointer(e.pointee), t.size, 0)
      case PointerToArray =>
        info == UnwrapInfo(
          Pointer(QualifiedType(Pointer(QualifiedType(e.pointee.ty.elem, NoQualifiers)), NoQualifiers)),
          t.size, pointerWidth)
      case ArrayOfArray =>
        e.size > 0 && info == UnwrapInfo(Array(e.elem, Constant, e.size), t.size / e.size, 0)
      case NonPrimitiveScalar =>
        info == UnwrapInfo(e, t.size, 0)
  {
  }

  /** Slots of a pointer, pointer-to-array or scalar strategy are never themselves unwrapped. */
  lemma NonArraySlotsAreLeaves(t: Type, pointerWidth: nat)
    requires ShouldUnwrap(t) && FieldUnwrapInfo(t, pointerWidth).Success?
    requires !Desugar(t.elem).Array?
    ensures !ShouldUnwrap(FieldUnwrapInfo(t, pointerWidth).value.value.ty)
  {
  }

  /** Name of the value type synthesized for an unwrap triple: `ArrayWrapper_<type><count>`. */
  function WrapperName(info: UnwrapInfo): (n: string)
    ensures "ArrayWrapper_" <= n
  {
    var n := "ArrayWrapper_" + Render(info.ty) + Numeral(info.count, 10);
    assert n[..|"ArrayWrapper_"|] == "ArrayWrapper_";
    n
  }

  /** For one slot type, different slot counts give different wrapper names. */
  lemma WrapperNameSeparatesCounts(a: UnwrapInfo, b: UnwrapInfo)
    requires a.ty == b.ty && a.count != b.count
    ensures WrapperName(a) != WrapperName(b)
  {
    var p := "ArrayWrapper_" + Render(a.ty);
    NumeralInjective(a.count, b.count, 10);
    assert WrapperName(a) == p + Numeral(a.count, 10);
    assert WrapperName(b) == p + Numeral(b.count, 10);
    assert WrapperName(a)[|p|..] == Numeral(a.count, 10);
    assert WrapperName(b)[|p|..] == Numeral(b.count, 10);
  }

  /**
   * Different shapes can share a name: two `S1` slots and twelve `S` slots are
   * both `ArrayWrapper_S12`, so the lookup by name hands the second field the
   * first field's wrapper.
   */
  lemma WrapperNamesCollide()
    ensures
      var a, b := UnwrapInfo(Tag("S1"), 2, 0), UnwrapInfo(Tag("S"), 12, 0);
      a != b && WrapperName(a) == WrapperName(b) == "ArrayWrapper_S12"
  {
    assert Numeral(2, 10) == "2";
    assert Numeral(12, 10) == "12";
  }
}
