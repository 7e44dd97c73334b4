// The boolean codecs of the serializer package: `BooleanDeserializer` reads
// numbers and words, `BooleanSerializer` packs a boolean into the first
// supported representation and reads it back.
module BooleanCodec {
  import opened JavaLang

  /** The words `BooleanDeserializer` reads as true, compared after lower-casing. */
  const TRUE_WORDS: set<string> := {"true", "t", "yes", "y", "1"}
  /** The words it reads as false. */
  const FALSE_WORDS: set<string> := {"false", "f", "no", "n", "0"}

  /** `obj.equals(0)`: only an Integer holding zero equals the boxed `int` literal. */
  predicate EqualsIntegerZero(o: JObject) {
    o == JNumber(IntNum, 0)
  }

  /**
   * `BooleanDeserializer.deserialize`: a Number is true unless it is the
   * Integer 0; anything else is read from its lower-cased `toString()`.
   */
  function Deserialize(o: JObject): (r: Result<bool>)
    ensures o.JNumber? ==> r == Ok(!EqualsIntegerZero(o))
    ensures !o.JNumber? ==> (r == Ok(true) <==> Lower(ToString(o)) in TRUE_WORDS)
    ensures !o.JNumber? ==> (r == Ok(false) <==> Lower(ToString(o)) in FALSE_WORDS)
    ensures r.Err? ==> r.error == CoercionFailedException
  {
    if o.JNumber? then Ok(!EqualsIntegerZero(o))
    else
      var potential := Lower(ToString(o));
      if potential == "true" || potential == "t" || potential == "yes" || potential == "y" || potential == "1" then Ok(true)
      else if potential == "false" || potential == "f" || potential == "no" || potential == "n" || potential == "0" then Ok(false)
      else Err(CoercionFailedException)
  }

  /** The words `BooleanSerializer.deserializeFromText` reads as true: the digits are not among them. */
  const TEXT_TRUE: set<string> := {"true", "t", "yes", "y"}
  const TEXT_FALSE: set<string> := {"false", "f", "no", "n"}

  /** `deserializeFromText`: case-insensitive words, anything else is a SerializeException. */
  function DeserializeFromText(value: string): (r: Result<bool>)
    ensures r == Ok(true) <==> Lower(value) in TEXT_TRUE
    ensures r == Ok(false) <==> Lower(value) in TEXT_FALSE
    ensures r.Err? ==> r.error == SerializeException
  {
    var s := Lower(value);
    if s == "true" || s == "t" || s == "yes" || s == "y" then Ok(true)
    else if s == "false" || s == "f" || s == "no" || s == "n" then Ok(false)
    else Err(SerializeException)
  }

  /** `serializeToText`. */
  function SerializeToText(value: bool): (s: string)
    ensures DeserializeFromText(s) == Ok(value)
  {
    assert Lower("true") == "true" && Lower("false") == "false";
    if value then "true" else "false"
  }

  /** `serializeToNumber`: an Integer, 1 for true and 0 for false. */
  function SerializeToNumber(value: bool): (n: JObject)
    ensures n.JNumber? && n.kind == IntNum && n.value in {0, 1}
    ensures n.value == 1 <==> value
  {
    JNumber(IntNum, if value then 1 else 0)
  }

  /** `deserializeFromNumber` as written: true when `intValue()` is even. */
  function DeserializeFromNumberAsWritten(value: JObject): (r: bool)
    requires value.JNumber?
    ensures r <==> Wrap32(value.value) % 2 == 0
  {
    Wrap32(value.value) % 2 == 0
  }

  /** `deserializeFromNumber` as evidently intended: true when `intValue()` is odd, the inverse of `serializeToNumber`. */
  function DeserializeFromNumber(value: JObject): (r: bool)
    requires value.JNumber?
    ensures r <==> Wrap32(value.value) % 2 != 0
    ensures value.kind == IntNum && value.value in {0, 1} ==> (r <==> value.value == 1)
  {
    Wrap32(value.value) % 2 != 0
  }

  /** `BooleanSerializer.serialize`: the form of the first supported class among Boolean, Byte, Short, Integer and String. */
  function Serialize(value: bool, supported: set<Cls>): (r: Result<JObject>)
    ensures r.Err? <==> supported !! {BOOLEAN, BYTE, SHORT, INTEGER, STRING}
    ensures r.Err? ==> r.error == SerializeException
    ensures BOOLEAN in supported ==> r == Ok(JBoolean(value))
    ensures r.Ok? ==> WellFormed(r.value) && ClassOf(r.value) in supported
  {
    if BOOLEAN in supported then Ok(JBoolean(value))
    else if BYTE in supported then Ok(JNumber(ByteNum, Wrap8(SerializeToNumber(value).value)))
    else if SHORT in supported then Ok(JNumber(ShortNum, Wrap16(SerializeToNumber(value).value)))
    else if INTEGER in supported then Ok(SerializeToNumber(value))
    else if STRING in supported then Ok(JText(SerializeToText(value)))
    else Err(SerializeException)
  }

  /**
   * `BooleanSerializer.deserialize` as written: a Boolean as it is, then a
   * Number through `deserializeFromNumber` (even is true), then any
   * CharSequence through its text; anything else is a SerializeException.
   */
  function DeserializeValue(o: JObject): (r: Result<bool>)
    ensures o.JBoolean? ==> r == Ok(o.b)
    ensures o.JNumber? ==> r == Ok(DeserializeFromNumberAsWritten(o))
    ensures !o.JBoolean? && !o.JNumber? && IsCharSequence(o) ==> r == DeserializeFromText(ToString(o))
    ensures !o.JBoolean? && !o.JNumber? && !IsCharSequence(o) ==> r == Err(SerializeException)
    ensures r.Err? ==> r.error == SerializeException
  {
    if o.JBoolean? then Ok(o.b)
    else if o.JNumber? then Ok(DeserializeFromNumberAsWritten(o))
    else if IsCharSequence(o) then DeserializeFromText(ToString(o))
    else Err(SerializeException)
  }

  /** `deserialize` with the corrected number reader (odd is true). */
  function CorrectedDeserializeValue(o: JObject): (r: Result<bool>)
    ensures o.JBoolean? ==> r == Ok(o.b)
    ensures o.JNumber? ==> r == Ok(DeserializeFromNumber(o))
    ensures !o.JBoolean? && !o.JNumber? && IsCharSequence(o) ==> r == DeserializeFromText(ToString(o))
    ensures !o.JBoolean? && !o.JNumber? && !IsCharSequence(o) ==> r == Err(SerializeException)
    ensures r.Err? ==> r.error == SerializeException
    ensures !o.JNumber? ==> r == DeserializeValue(o)
  {
    if o.JBoolean? then Ok(o.b)
    else if o.JNumber? then Ok(DeserializeFromNumber(o))
    else if IsCharSequence(o) then DeserializeFromText(ToString(o))
    else Err(SerializeException)
  }

  // ---------------------------------------------------------------------
  // Properties

  /** The number round trip as written turns every boolean into its negation. */
  lemma NumberRoundTripInverts(value: bool)
    ensures DeserializeFromNumberAsWritten(SerializeToNumber(value)) == !value
  {
  }

  /** The corrected number round trip gives the boolean back. */
  lemma NumberRoundTrip(value: bool)
    ensures DeserializeFromNumber(SerializeToNumber(value)) == value
  {
  }

  /** With the corrected number reader, whatever form `serialize` picks, `deserialize` reads the boolean back. */
  lemma SerializeRoundTrip(value: bool, supported: set<Cls>)
    requires Serialize(value, supported).Ok?
    ensures CorrectedDeserializeValue(Serialize(value, supported).value) == Ok(value)
  {
  }

  /**
   * As written, the round trip gives the boolean back when `serialize`
   * picks a Boolean or a String, and its negation whenever it picks a Byte,
   * a Short or an Integer.
   */
  lemma SerializeRoundTripAsWritten(value: bool, supported: set<Cls>)
    requires Serialize(value, supported).Ok?
    ensures BOOLEAN !in supported && (BYTE in supported || SHORT in supported || INTEGER in supported) ==>
      DeserializeValue(Serialize(value, supported).value) == Ok(!value)
    ensures BOOLEAN in supported || (BYTE !in supported && SHORT !in supported && INTEGER !in supported) ==>
      DeserializeValue(Serialize(value, supported).value) == Ok(value)
  {
    var n := SerializeToNumber(value).value;
    assert Wrap32(Wrap8(n)) == n && Wrap32(Wrap16(n)) == n && Wrap32(n) == n;
  }

  /** True serialized where only Integer is supported comes back false. */
  lemma TrueBecomesFalse()
    ensures Serialize(true, {INTEGER}) == Ok(JNumber(IntNum, 1))
    ensures DeserializeValue(JNumber(IntNum, 1)) == Ok(false)
    ensures CorrectedDeserializeValue(JNumber(IntNum, 1)) == Ok(true)
  {
  }

  /** The text reader accepts the words in any case, and no digit. */
  lemma TextWordsAnyCase()
    ensures DeserializeFromText("TRUE") == Ok(true)
    ensures DeserializeFromText("Yes") == Ok(true)
    ensures DeserializeFromText("N") == Ok(false)
    ensures DeserializeFromText("1") == Err(SerializeException)
    ensures DeserializeFromText("0") == Err(SerializeException)
  {
    assert Lower("TRUE") == "true";
    assert Lower("Yes") == "yes";
    assert Lower("N") == "n";
    assert Lower("1") == "1" && Lower("0") == "0";
  }

  /** The deserializer reads the Integer 0 as false and every other Number, even a Long 0, as true. */
  lemma OnlyIntegerZeroIsFalse()
    ensures Deserialize(JNumber(IntNum, 0)) == Ok(false)
    ensures Deserialize(JNumber(LongNum, 0)) == Ok(true)
    ensures Deserialize(JNumber(ByteNum, 0)) == Ok(true)
    ensures Deserialize(JNumber(IntNum, 2)) == Ok(true)
    ensures Deserialize(JNumber(OtherNum(ATOMIC_INTEGER), 0)) == Ok(true)
  {
  }

  /** Any CharSequence, a StringBuilder say, is read through its text just as a String is. */
  lemma CharSequenceReadAsText(c: Cls, text: string)
    requires IsAssignableFrom(CHAR_SEQUENCE, c)
    ensures DeserializeValue(JOther(c, text)) == DeserializeValue(JText(text))
    ensures CorrectedDeserializeValue(JOther(c, text)) == CorrectedDeserializeValue(JText(text))
  {
    assert IsCharSequence(JText(text));
  }

  /** The deserializer reads `1` and `0` as text, and a Boolean through its name. */
  lemma DeserializerWords(b: bool)
    ensures Deserialize(JText("1")) == Ok(true) && Deserialize(JText("0")) == Ok(false)
    ensures Deserialize(JBoolean(b)) == Ok(b)
    ensures Deserialize(JText("maybe")) == Err(CoercionFailedException)
  {
    assert Lower("1") == "1" && Lower("0") == "0";
    assert Lower("true") == "true" && Lower("false") == "false";
    assert Lower("maybe") == "maybe";
  }
}
