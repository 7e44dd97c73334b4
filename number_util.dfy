// `NumberUtil` of the serializer package: boxing and unboxing of the
// primitive classes, the Number check, and the cast to a numeric class.
module NumberUtil {
  import opened JavaLang

  const VOID_TYPE := Cls("void", {})
  const BYTE_TYPE := Cls("byte", {})
  const SHORT_TYPE := Cls("short", {})
  const INT_TYPE := Cls("int", {})
  const FLOAT_TYPE := Cls("float", {})
  const LONG_TYPE := Cls("long", {})
  const DOUBLE_TYPE := Cls("double", {})
  const CHAR_TYPE := Cls("char", {})
  const BOOLEAN_TYPE := Cls("boolean", {})

  /** The primitive classes `boxType` knows, in the order it tests them. */
  const PRIMITIVES := [VOID_TYPE, BYTE_TYPE, SHORT_TYPE, INT_TYPE, FLOAT_TYPE, LONG_TYPE, DOUBLE_TYPE, CHAR_TYPE]
  /** Their wrapper classes, position by position. */
  const WRAPPERS := [VOID, BYTE, SHORT, INTEGER, FLOAT, LONG, DOUBLE, CHARACTER]

  /** A primitive class is assignable to nothing but itself. */
  predicate IsPrimitiveClass(c: Cls) {
    c in PRIMITIVES || c == BOOLEAN_TYPE
  }

  /** `boxType`: the wrapper of one of the eight primitive classes, any other class unchanged. */
  function BoxType(c: Cls): (r: Cls)
    ensures c in PRIMITIVES ==> r in WRAPPERS
    ensures c !in PRIMITIVES ==> r == c
    ensures forall i :: 0 <= i < |PRIMITIVES| && PRIMITIVES[i] == c ==> r == WRAPPERS[i]
  {
    if c == VOID_TYPE then VOID
    else if c == BYTE_TYPE then BYTE
    else if c == SHORT_TYPE then SHORT
    else if c == INT_TYPE then INTEGER
    else if c == FLOAT_TYPE then FLOAT
    else if c == LONG_TYPE then LONG
    else if c == DOUBLE_TYPE then DOUBLE
    else if c == CHAR_TYPE then CHARACTER
    else c
  }

  /** `primitiveType`: the primitive class of one of the eight wrappers, any other class unchanged. */
  function PrimitiveType(c: Cls): (r: Cls)
    ensures c in WRAPPERS ==> r in PRIMITIVES
    ensures c !in WRAPPERS ==> r == c
    ensures forall i :: 0 <= i < |WRAPPERS| && WRAPPERS[i] == c ==> r == PRIMITIVES[i]
  {
    if c == VOID then VOID_TYPE
    else if c == BYTE then BYTE_TYPE
    else if c == SHORT then SHORT_TYPE
    else if c == INTEGER then INT_TYPE
    else if c == FLOAT then FLOAT_TYPE
    else if c == LONG then LONG_TYPE
    else if c == DOUBLE then DOUBLE_TYPE
    else if c == CHARACTER then CHAR_TYPE
    else c
  }

  /** `castable(c)`: Number is assignable from `c`. */
  predicate Castable(c: Cls)
  {
    IsAssignableFrom(NUMBER, c)
  }

  /** `Class.cast`: a primitive class is an instance of nothing, another class of values of its own class. */
  function ClassCast(to: Cls, o: JObject): (r: Result<JObject>)
    ensures r.Ok? ==> r.value == o
    ensures IsPrimitiveClass(to) ==> r == Err(ClassCastException)
  {
    if !IsPrimitiveClass(to) && IsAssignableFrom(to, ClassOf(o)) then Ok(o) else Err(ClassCastException)
  }

  /** The `xxxValue()` call `cast` makes for a boxed integral class, if it is one. */
  function NarrowTo(boxed: Cls, v: int): Option<JObject>
  {
    if boxed == BYTE then Some(JNumber(ByteNum, Wrap8(v)))
    else if boxed == SHORT then Some(JNumber(ShortNum, Wrap16(v)))
    else if boxed == INTEGER then Some(JNumber(IntNum, Wrap32(v)))
    else if boxed == LONG then Some(JNumber(LongNum, Wrap64(v)))
    else None
  }

  /**
   * `cast(number, to)` as written: the narrowed value goes through
   * `to.cast`, which refuses it when `to` is a primitive class.
   */
  function CastAsWritten(number: JObject, to: Cls): (r: Result<JObject>)
    requires number.JNumber?
    requires BoxType(to) != FLOAT && BoxType(to) != DOUBLE
    ensures r.Err? ==> r.error == ClassCastException
    ensures to in PRIMITIVES ==> r.Err?
  {
    match NarrowTo(BoxType(to), number.value)
    case Some(n) => ClassCast(to, n)
    case None => Err(ClassCastException)
  }

  /** `cast(number, to)` as evidently intended: a primitive class gets the boxed value of its wrapper. */
  function Cast(number: JObject, to: Cls): (r: Result<JObject>)
    requires number.JNumber?
    requires BoxType(to) != FLOAT && BoxType(to) != DOUBLE
    ensures r.Err? ==> r.error == ClassCastException
    ensures r.Ok? ==> WellFormed(r.value) && ClassOf(r.value) == BoxType(to)
    ensures r.Ok? <==> BoxType(to) in {BYTE, SHORT, INTEGER, LONG}
    ensures r.Ok? && InLong(number.value) && BoxType(to) == LONG ==> r.value.JNumber? && r.value.value == number.value
  {
    match NarrowTo(BoxType(to), number.value)
    case Some(n) => Ok(n)
    case None => Err(ClassCastException)
  }

  // ---------------------------------------------------------------------
  // Properties

  /** Unboxing the box of a primitive class gives that class back. */
  lemma BoxThenUnbox(c: Cls)
    requires c in PRIMITIVES
    ensures PrimitiveType(BoxType(c)) == c
  {
  }

  /** Boxing the primitive class of a wrapper gives that wrapper back. */
  lemma UnboxThenBox(c: Cls)
    requires c in WRAPPERS
    ensures BoxType(PrimitiveType(c)) == c
  {
  }

  /** Boxing and unboxing are idempotent. */
  lemma BoxingIdempotent(c: Cls)
    ensures BoxType(BoxType(c)) == BoxType(c)
    ensures PrimitiveType(PrimitiveType(c)) == PrimitiveType(c)
  {
    if c in PRIMITIVES {
      WrapperIsNoPrimitive(BoxType(c));
    }
    if c in WRAPPERS {
      PrimitiveIsNoWrapper(PrimitiveType(c));
    }
  }

  /** No wrapper class is a primitive class. */
  lemma WrapperIsNoPrimitive(w: Cls)
    requires w in WRAPPERS
    ensures w !in PRIMITIVES
  {
    assert w.name[..10] == "java.lang.";
  }

  /** No primitive class is a wrapper class. */
  lemma PrimitiveIsNoWrapper(p: Cls)
    requires p in PRIMITIVES
    ensures p !in WRAPPERS
  {
    assert |p.name| < 8;
  }

  /**
   * `primitiveType(boxType(c)) == c` holds for every class but the eight
   * wrappers, which `boxType` keeps and `primitiveType` then unboxes; boolean
   * is left alone by both.
   */
  lemma BoxUnboxRoundTrip(c: Cls)
    ensures PrimitiveType(BoxType(c)) == c <==> c !in WRAPPERS
    ensures BoxType(BOOLEAN_TYPE) == BOOLEAN_TYPE && PrimitiveType(BOOLEAN) == BOOLEAN
  {
    if c in WRAPPERS {
      WrapperIsNoPrimitive(c);
      assert PrimitiveType(c) in PRIMITIVES;
    } else if c in PRIMITIVES {
      BoxThenUnbox(c);
    }
  }

  /** The numeric wrappers are castable, the primitive classes themselves are not. */
  lemma CastableClasses(c: Cls)
    requires c in PRIMITIVES
    ensures !Castable(c)
    ensures Castable(BoxType(c)) <==> c !in {VOID_TYPE, CHAR_TYPE}
  {
  }

  /** The original `cast` refuses every primitive target; the corrected one agrees with it on the wrappers. */
  lemma CastToPrimitiveRefused(number: JObject, to: Cls)
    requires number.JNumber?
    requires BoxType(to) != FLOAT && BoxType(to) != DOUBLE
    ensures to in {BYTE_TYPE, SHORT_TYPE, INT_TYPE, LONG_TYPE} ==> CastAsWritten(number, to) == Err(ClassCastException) && Cast(number, to).Ok?
    ensures to in {BYTE, SHORT, INTEGER, LONG} ==> CastAsWritten(number, to) == Cast(number, to)
  {
  }
}
