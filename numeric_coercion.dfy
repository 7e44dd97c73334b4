// The integral readers of the converter, parser and deserializer packages:
// a Number is range-checked on its `longValue()`, text goes to `parseNumber`,
// anything else is refused.
module NumericCoercion {
  import opened JavaLang
  import opened NumericParsing

  /** The integral type a reader produces. */
  datatype IntTarget = ToByte | ToShort | ToInt | ToLong

  /** The values of the target's primitive type. */
  predicate InTarget(t: IntTarget, v: int)
  {
    match t
    case ToByte => InByte(v)
    case ToShort => InShort(v)
    case ToInt => InInt(v)
    case ToLong => InLong(v)
  }

  /** The narrowing cast `(byte)`, `(short)`, `(int)` or the identity on `long`. */
  function Narrow(t: IntTarget, v: int): (r: int)
    ensures InTarget(t, r)
    ensures InTarget(t, v) ==> r == v
  {
    match t
    case ToByte => Wrap8(v)
    case ToShort => Wrap16(v)
    case ToInt => Wrap32(v)
    case ToLong => Wrap64(v)
  }

  /** The signed parse function each reader hands to `parseNumber`. */
  function SignedParser(t: IntTarget): (f: ParseFunc)
    ensures IsSigned(f)
    ensures forall v :: InRangeOf(f, v) == InTarget(t, v)
  {
    match t
    case ToByte => ParseByte
    case ToShort => ParseShort
    case ToInt => ParseInt
    case ToLong => ParseLong
  }

  /** The unsigned one: byte and short readers reuse their signed parser. */
  function UnsignedParser(t: IntTarget): (f: ParseFunc)
    ensures forall v :: Fits(f, v) == InTarget(t, v)
  {
    match t
    case ToByte => ParseByte
    case ToShort => ParseShort
    case ToInt => ParseUnsignedInt
    case ToLong => ParseUnsignedLong
  }

  /** The type suffix each reader drops: `b`, `s`, `i` or `l`. */
  function Suffix(t: IntTarget): (c: char)
    ensures 'a' <= c <= 'z' && c != 'u' && c != 'x'
  {
    match t
    case ToByte => 'b'
    case ToShort => 's'
    case ToInt => 'i'
    case ToLong => 'l'
  }

  /**
   * The shared shape of the integral readers: a Number is range-checked on
   * its `longValue()`, a CharSequence goes to `parseNumber` with its
   * `toString()`. `variant` picks the copy of `parseNumber`; `other` is what
   * a value that is neither ends in; `checked` false is `parseNumber` as
   * written, whose `substring` throws when the radix prefix overruns the digits.
   */
  function ReadIntegral(t: IntTarget, o: JObject, variant: Variant, other: Exception, checked: bool): (r: Result<int>)
    ensures r.Ok? ==> InTarget(t, r.value)
    ensures o.JNumber? ==> (r.Ok? <==> InTarget(t, LongValue(o)))
    ensures o.JNumber? && r.Ok? ==> r.value == LongValue(o)
    ensures r.Err? ==> r.error == SerializeException || (r.error == other && !o.JNumber? && !IsCharSequence(o))
                       || (r.error == IndexOutOfBoundsException && !checked && !o.JNumber? && IsCharSequence(o))
    ensures !o.JNumber? && IsCharSequence(o) ==>
              (r == Err(IndexOutOfBoundsException) <==> !checked && PrefixOverrun(ToString(o), Suffix(t), variant))
    ensures !o.JNumber? && !IsCharSequence(o) ==> r == Err(other)
  {
    if o.JNumber? then
      var full := LongValue(o);
      if t == ToLong then Ok(full)
      else if !InTarget(t, full) then Err(SerializeException)
      else Ok(Narrow(t, full))
    else if IsCharSequence(o) then
      ReadLiteral(ToString(o), SignedParser(t), UnsignedParser(t), Suffix(t), variant, checked)
    else Err(other)
  }

  /**
   * `ByteConverter`, `ShortConverter`, `IntegerConverter` and `LongConverter`
   * of the converter package: their `parseNumber` lower-cases the text first,
   * and a value of any other class is a ConversionFailedException. Its
   * `parseNumber` is the one as written: an overrunning prefix throws.
   */
  function EnforcerRead(t: IntTarget, o: JObject): (r: Result<int>)
    ensures r.Ok? ==> InTarget(t, r.value)
    ensures o.JNumber? ==> (r.Ok? <==> InTarget(t, LongValue(o)))
    ensures o.JNumber? && r.Ok? ==> r.value == LongValue(o)
    ensures r.Err? ==> r.error in {SerializeException, ConversionFailedException, IndexOutOfBoundsException}
    ensures r == Err(ConversionFailedException) <==> !o.JNumber? && !IsCharSequence(o)
    ensures r == Err(IndexOutOfBoundsException) <==>
              !o.JNumber? && IsCharSequence(o) && PrefixOverrun(ToString(o), Suffix(t), LowerCasing)
  {
    ReadIntegral(t, o, LowerCasing, ConversionFailedException, false)
  }

  /**
   * `IntegerParser.parse`, `IntegerDeserializer.deserialize` and
   * `ShortDeserializer.deserialize`, and `ByteDeserializer.deserialize` as
   * its authors evidently meant it: text is read case-sensitively and a value
   * of any other class is a CoercionFailedException. Text goes to the
   * corrected `parseNumber`, where an overrunning prefix is a malformed number;
   * only the byte reader can meet one (`OverrunOnlyForBytes`).
   */
  function ParserRead(t: IntTarget, o: JObject): (r: Result<int>)
    ensures r.Ok? ==> InTarget(t, r.value)
    ensures o.JNumber? ==> (r.Ok? <==> InTarget(t, LongValue(o)))
    ensures o.JNumber? && r.Ok? ==> r.value == LongValue(o)
    ensures r.Err? ==> r.error in {SerializeException, CoercionFailedException}
    ensures r == Err(CoercionFailedException) <==> !o.JNumber? && !IsCharSequence(o)
  {
    ReadIntegral(t, o, CaseKeeping, CoercionFailedException, true)
  }

  /**
   * `ByteDeserializer.deserialize` as written: the range check on a Number
   * has no `return` after it, so a Number in range falls through to the
   * CharSequence test and, failing it, to the final CoercionFailedException.
   * Its text goes to `parseNumber` as written, so an overrunning prefix throws.
   */
  function ByteDeserializeAsWritten(o: JObject): (r: Result<int>)
    ensures o.JNumber? && !IsCharSequence(o) ==> r.Err?
    ensures o.JNumber? && !InByte(LongValue(o)) ==> r == Err(SerializeException)
    ensures r.Ok? ==> IsCharSequence(o)
    ensures r.Err? ==> r.error in {SerializeException, CoercionFailedException, IndexOutOfBoundsException}
    ensures r == Err(IndexOutOfBoundsException) <==>
              !(o.JNumber? && !InByte(LongValue(o))) && IsCharSequence(o) && PrefixOverrun(ToString(o), 'b', CaseKeeping)
  {
    if o.JNumber? && !InByte(LongValue(o)) then Err(SerializeException)
    else if IsCharSequence(o) then ReadLiteral(ToString(o), ParseByte, ParseByte, 'b', CaseKeeping, false)
    else Err(CoercionFailedException)
  }

  // ---------------------------------------------------------------------
  // Properties

  /** A String is read by `parseNumber` on its own text. */
  lemma TextRead(t: IntTarget, text: string, variant: Variant, other: Exception, checked: bool)
    ensures ReadIntegral(t, JText(text), variant, other, checked)
            == ReadLiteral(text, SignedParser(t), UnsignedParser(t), Suffix(t), variant, checked)
  {
    assert "java.lang.CharSequence" in STRING.supers;
    assert IsCharSequence(JText(text));
  }

  /** The byte deserializer as written refuses every Number its range check lets through; the corrected one returns it. */
  lemma ByteDeserializerDropsInRangeNumber(o: JObject)
    requires o.JNumber? && InByte(LongValue(o)) && !IsCharSequence(o)
    ensures ByteDeserializeAsWritten(o) == Err(CoercionFailedException)
    ensures ParserRead(ToByte, o) == Ok(LongValue(o))
  {
  }

  /**
   * The corrected reader agrees with the byte deserializer as written on
   * everything but in-range Numbers and texts whose prefix overruns, where
   * the one as written throws and the corrected one reports a malformed number.
   */
  lemma ByteDeserializerOtherwiseAgrees(o: JObject)
    requires !(o.JNumber? && InByte(LongValue(o)))
    ensures !(!o.JNumber? && IsCharSequence(o) && PrefixOverrun(ToString(o), 'b', CaseKeeping)) ==>
              ByteDeserializeAsWritten(o) == ParserRead(ToByte, o)
    ensures !o.JNumber? && IsCharSequence(o) && PrefixOverrun(ToString(o), 'b', CaseKeeping) ==>
              ByteDeserializeAsWritten(o) == Err(IndexOutOfBoundsException) && ParserRead(ToByte, o) == Err(SerializeException)
  {
  }

  /**
   * The short, int and long readers never meet an overrunning prefix, so the
   * corrected `parseNumber` reads them exactly as the one as written.
   */
  lemma OverrunOnlyForBytes(t: IntTarget, o: JObject, variant: Variant, other: Exception)
    requires t != ToByte
    ensures ReadIntegral(t, o, variant, other, true) == ReadIntegral(t, o, variant, other, false)
    ensures EnforcerRead(t, o) != Err(IndexOutOfBoundsException)
  {
    if !o.JNumber? && IsCharSequence(o) {
      var text := ToString(o);
      OverrunNeedsBinarySuffix(text, Suffix(t), variant);
      OverrunNeedsBinarySuffix(text, Suffix(t), LowerCasing);
      assert ParseNumberText(text, SignedParser(t), UnsignedParser(t), Suffix(t), variant)
             == ReadLiteral(text, SignedParser(t), UnsignedParser(t), Suffix(t), variant, true);
    }
  }

  /** `0B` and `-0b` overrun in the byte readers as written; the corrected one reports a malformed number. */
  lemma ByteBinaryPrefixOverruns()
    ensures EnforcerRead(ToByte, JText("0B")) == Err(IndexOutOfBoundsException)
    ensures ByteDeserializeAsWritten(JText("-0b")) == Err(IndexOutOfBoundsException)
    ensures ParserRead(ToByte, JText("-0b")) == Err(SerializeException)
  {
    assert Suffix(ToByte) == 'b';
    assert Source("0B", LowerCasing) == "0b";
    TextRead(ToByte, "0B", LowerCasing, ConversionFailedException, false);
    TextRead(ToByte, "-0b", CaseKeeping, CoercionFailedException, true);
    assert IsCharSequence(JText("-0b"));
    BinaryPrefixOverruns();
    NegativeBinaryPrefixOverruns();
  }

  /** A Number whose `longValue()` is in range is returned as it is: the narrowing cast changes nothing. */
  lemma InRangeNumberKept(t: IntTarget, o: JObject, variant: Variant, other: Exception, checked: bool)
    requires o.JNumber? && InLong(o.value) && InTarget(t, o.value)
    ensures ReadIntegral(t, o, variant, other, checked) == Ok(o.value)
  {
  }

  /** `longValue()` keeps only the low 64 bits of a BigInteger, so a huge value can pass the range check. */
  lemma BigIntegerWrapsIntoRange()
    ensures EnforcerRead(ToByte, JNumber(BigIntegerNum, 0x1_0000_0000_0000_0005)) == Ok(5)
    ensures ParserRead(ToInt, JNumber(BigIntegerNum, -0x1_0000_0000_0000_0000)) == Ok(0)
  {
  }

  /** The decimal text of a value reads as that value when the target holds it, and is malformed otherwise. */
  lemma DecimalTextRead(t: IntTarget, v: int, variant: Variant, other: Exception, checked: bool)
    ensures ReadIntegral(t, JText(DecimalString(v)), variant, other, checked)
            == if InTarget(t, v) then Ok(v) else Err(SerializeException)
  {
    DecimalWithTail(v, [], SignedParser(t), UnsignedParser(t), Suffix(t), variant);
    assert DecimalString(v) + [] == DecimalString(v);
    TextRead(t, DecimalString(v), variant, other, checked);
  }

  /**
   * The decimal text with the reader's type suffix appended reads the same;
   * the byte reader's `b` after a lone `0` is the exception (it is read as a
   * binary prefix).
   */
  lemma SuffixedTextRead(t: IntTarget, v: int, variant: Variant, other: Exception, checked: bool)
    requires t == ToByte ==> v != 0
    ensures ReadIntegral(t, JText(DecimalString(v) + [Suffix(t)]), variant, other, checked)
            == if InTarget(t, v) then Ok(v) else Err(SerializeException)
  {
    DecimalWithTail(v, [Suffix(t)], SignedParser(t), UnsignedParser(t), Suffix(t), variant);
    TextRead(t, DecimalString(v) + [Suffix(t)], variant, other, checked);
  }

  /** The case-keeping readers also drop the upper-case type suffix. */
  lemma UpperSuffixedTextRead(t: IntTarget, v: int)
    requires t == ToByte ==> v != 0
    ensures ParserRead(t, JText(DecimalString(v) + [UpperChar(Suffix(t))]))
            == if InTarget(t, v) then Ok(v) else Err(SerializeException)
  {
    DecimalWithTail(v, [UpperChar(Suffix(t))], SignedParser(t), UnsignedParser(t), Suffix(t), CaseKeeping);
    TextRead(t, DecimalString(v) + [UpperChar(Suffix(t))], CaseKeeping, CoercionFailedException, true);
  }

  /**
   * A Number and its decimal `toString()` read alike, in range and out of it,
   * whenever its `longValue()` is the value itself.
   */
  lemma NumberAndTextAgree(t: IntTarget, o: JObject, variant: Variant, other: Exception, checked: bool)
    requires o.JNumber? && InLong(o.value)
    ensures ReadIntegral(t, o, variant, other, checked) == ReadIntegral(t, JText(ToString(o)), variant, other, checked)
  {
    DecimalTextRead(t, o.value, variant, other, checked);
    if t == ToLong {
      assert InTarget(t, o.value);
    }
  }

  /** The converter package reads text case-insensitively. */
  lemma EnforcerIgnoresCase(t: IntTarget, text: string)
    ensures EnforcerRead(t, JText(text)) == EnforcerRead(t, JText(Lower(text)))
  {
    LowerIdempotent(text);
    assert Source(Lower(text), LowerCasing) == Source(text, LowerCasing);
    TextRead(t, text, LowerCasing, ConversionFailedException, false);
    TextRead(t, Lower(text), LowerCasing, ConversionFailedException, false);
  }

  /** The converter package reads `0X41` and `0x41` alike. */
  lemma EnforcerHexPrefix()
    ensures EnforcerRead(ToByte, JText("0X41")) == Ok(65)
    ensures EnforcerRead(ToByte, JText("0x41")) == Ok(65)
  {
    assert SignedParser(ToByte) == ParseByte && UnsignedParser(ToByte) == ParseByte && Suffix(ToByte) == 'b';
    UpperHexPrefixLowered();
    TextRead(ToByte, "0X41", LowerCasing, ConversionFailedException, false);
    TextRead(ToByte, "0x41", LowerCasing, ConversionFailedException, false);
  }

  /** The parser package only reads the lower-case prefix. */
  lemma ParserHexPrefix()
    ensures ParserRead(ToByte, JText("0x41")) == Ok(65)
    ensures ParserRead(ToByte, JText("0X41")) == Err(SerializeException)
  {
    UpperHexPrefixKept();
    TextRead(ToByte, "0x41", CaseKeeping, CoercionFailedException, true);
    TextRead(ToByte, "0X41", CaseKeeping, CoercionFailedException, true);
  }

  /** An unsigned literal marked `u` reads as its two's-complement `int` value. */
  lemma UnsignedIntText(n: nat, variant: Variant, other: Exception, checked: bool)
    requires n < 0x1_0000_0000
    ensures ReadIntegral(ToInt, JText(DecimalDigits(n) + "u"), variant, other, checked) == Ok(Wrap32(n))
  {
    UnsignedIntRoundTrip(n, variant);
    TextRead(ToInt, DecimalDigits(n) + "u", variant, other, checked);
  }

  /**
   * Any CharSequence is read through its `toString()`: a StringBuilder
   * holding some text reads exactly as the String with that text.
   */
  lemma CharSequenceReadAsText(t: IntTarget, c: Cls, text: string, variant: Variant, other: Exception, checked: bool)
    requires IsAssignableFrom(CHAR_SEQUENCE, c)
    ensures ReadIntegral(t, JOther(c, text), variant, other, checked) == ReadIntegral(t, JText(text), variant, other, checked)
  {
    var o := JOther(c, text);
    assert !o.JNumber? && IsCharSequence(o) && ToString(o) == text;
    TextRead(t, text, variant, other, checked);
  }

  /** An AtomicLong is a Number like any other: the readers range-check its `longValue()`. */
  lemma AtomicLongRangeChecked()
    ensures ParserRead(ToShort, JNumber(OtherNum(ATOMIC_LONG), 0x7FFF)) == Ok(0x7FFF)
    ensures ParserRead(ToShort, JNumber(OtherNum(ATOMIC_LONG), 0x8000)) == Err(SerializeException)
    ensures EnforcerRead(ToLong, JNumber(OtherNum(ATOMIC_LONG), -1)) == Ok(-1)
  {
  }

  /** A StringBuilder holding `12` reads as 12 in the parser and the converter copies. */
  lemma StringBuilderParsed()
    ensures ParserRead(ToInt, JOther(STRING_BUILDER, "12")) == Ok(12)
    ensures EnforcerRead(ToInt, JOther(STRING_BUILDER, "12")) == Ok(12)
  {
    assert DecimalString(12) == "12";
    assert ParserRead(ToInt, JOther(STRING_BUILDER, "12")) == Ok(12) by {
      CharSequenceReadAsText(ToInt, STRING_BUILDER, "12", CaseKeeping, CoercionFailedException, true);
      DecimalTextRead(ToInt, 12, CaseKeeping, CoercionFailedException, true);
    }
    assert EnforcerRead(ToInt, JOther(STRING_BUILDER, "12")) == Ok(12) by {
      CharSequenceReadAsText(ToInt, STRING_BUILDER, "12", LowerCasing, ConversionFailedException, false);
      DecimalTextRead(ToInt, 12, LowerCasing, ConversionFailedException, false);
    }
  }
}
