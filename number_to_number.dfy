// The number-to-number converter factory of the conversion package: a
// Number is taken to `long` first (refusing big values outside its range),
// then narrowed to the target class only when the value fits.
module NumberToNumber {
  import opened JavaLang

  /** `matches(sourceType, targetType)`: the factory applies whenever the two types differ. */
  predicate Matches(sourceType: Type, targetType: Type)
  {
    sourceType != targetType
  }

  /** `convertToLong`: a BigInteger or BigDecimal outside the `long` range fails, any other Number gives `longValue()`. */
  function ConvertToLong(source: JObject): (r: Result<int>)
    requires source.JNumber?
    ensures r.Ok? ==> InLong(r.value)
    ensures r.Ok? <==> (source.kind in {BigIntegerNum, BigDecimalNum} ==> InLong(source.value))
    ensures r.Ok? && InLong(source.value) ==> r.value == source.value
    ensures r.Err? ==> r.error == ConversionFailedException
  {
    if source.kind in {BigIntegerNum, BigDecimalNum} && !InLong(source.value) then Err(ConversionFailedException)
    else Ok(LongValue(source))
  }

  /**
   * `NumberToNumber.convert` for the integral targets. The byte, short and
   * int targets are range-checked on the `long` value before the narrowing
   * call; a BigInteger target keeps a BigDecimal's integral part and takes
   * `longValue()` of anything else.
   */
  function Convert(source: JObject, target: Cls): (r: Result<JObject>)
    requires source.JNumber?
    requires target != FLOAT && target != DOUBLE
    ensures r.Ok? ==> WellFormed(r.value) && ClassOf(r.value) == target
    ensures r.Ok? && InLong(source.value) ==> r.value.JNumber? && r.value.value == source.value
    ensures r.Err? ==> r.error == ConversionFailedException
    ensures ConvertToLong(source).Err? ==> r.Err?
    ensures target !in {BYTE, SHORT, INTEGER, LONG, BIG_INTEGER, BIG_DECIMAL} ==> r.Err?
  {
    match ConvertToLong(source)
    case Err(e) => Err(e)
    case Ok(value) =>
      if target == BYTE then
        (if InByte(value) then Ok(JNumber(ByteNum, Wrap8(source.value))) else Err(ConversionFailedException))
      else if target == SHORT then
        (if InShort(value) then Ok(JNumber(ShortNum, Wrap16(source.value))) else Err(ConversionFailedException))
      else if target == INTEGER then
        (if InInt(value) then Ok(JNumber(IntNum, Wrap32(source.value))) else Err(ConversionFailedException))
      else if target == LONG then Ok(JNumber(LongNum, value))
      else if target == BIG_INTEGER then
        Ok(JNumber(BigIntegerNum, if source.kind == BigDecimalNum then source.value else LongValue(source)))
      else if target == BIG_DECIMAL then Ok(JNumber(BigDecimalNum, source.value))
      else Err(ConversionFailedException)
  }

  /** The class a boxed integral kind belongs to. */
  function IntegralTarget(k: NumKind): (c: Cls)
    ensures !k.OtherNum? ==> c != FLOAT && c != DOUBLE
  {
    KindClass(k)
  }

  // ---------------------------------------------------------------------
  // Properties

  /** A type never matches itself, and matching is symmetric. */
  lemma MatchesIsInequality(a: Type, b: Type)
    ensures !Matches(a, a)
    ensures Matches(a, b) <==> Matches(b, a)
  {
  }

  /** An integral target accepts exactly the values its primitive type holds. */
  lemma IntegralTargetsCheckRange(source: JObject)
    requires source.JNumber? && InLong(source.value)
    ensures Convert(source, BYTE).Ok? <==> InByte(source.value)
    ensures Convert(source, SHORT).Ok? <==> InShort(source.value)
    ensures Convert(source, INTEGER).Ok? <==> InInt(source.value)
    ensures Convert(source, LONG) == Ok(JNumber(LongNum, source.value))
  {
  }

  /** A BigInteger outside the `long` range fails for every target, even a BigInteger or BigDecimal one. */
  lemma HugeBigIntegerFailsEverywhere(v: int, target: Cls)
    requires !InLong(v) && target != FLOAT && target != DOUBLE
    ensures Convert(JNumber(BigIntegerNum, v), target) == Err(ConversionFailedException)
  {
  }

  /** Widening a well-formed integral Number and converting it back gives the original. */
  lemma WidenThenNarrow(source: JObject, wide: Cls)
    requires source.JNumber? && WellFormed(source)
    requires source.kind in {ByteNum, ShortNum, IntNum, LongNum}
    requires wide in {LONG, BIG_INTEGER, BIG_DECIMAL}
    ensures Convert(source, wide).Ok?
    ensures Convert(Convert(source, wide).value, IntegralTarget(source.kind)) == Ok(source)
  {
  }
}
