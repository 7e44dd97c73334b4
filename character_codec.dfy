// `CharacterSerializer` of the serializer package. A Java `char` is one
// UTF-16 code unit, an int in [0, 0x10000); its numeric form is the `short`
// with the same sixteen bits.
module CharacterCodec {
  import opened JavaLang

  predicate IsUnit(u: int) {
    0 <= u < 0x1_0000
  }

  predicate IsSurrogate(u: int) {
    0xD800 <= u < 0xE000
  }

  /** `serializeToNumber`: the `short` with the bits of the character. */
  function SerializeToNumber(value: int): (n: int)
    requires IsUnit(value)
    ensures InShort(n) && (value - n) % 0x1_0000 == 0
    ensures value < 0x8000 ==> n == value
    ensures value >= 0x8000 ==> n == value - 0x1_0000
  {
    Wrap16(value)
  }

  /** `deserializeFromNumber`: `(char) shortValue()`, the low sixteen bits of the value. */
  function DeserializeFromNumber(value: int): (u: int)
    ensures IsUnit(u) && (value - u) % 0x1_0000 == 0
  {
    assert (value - Wrap16(value)) % 0x1_0000 == 0;
    Wrap16(value) % 0x1_0000
  }

  /** `serializeToText`: the one-character string. */
  function SerializeToText(value: int): (s: string)
    requires IsUnit(value)
    ensures |s| == 1
    ensures !IsSurrogate(value) ==> Units(s) == [value]
  {
    [UnitChar(value)]
  }

  /** `deserializeFromText`: the first code unit; empty text is a SerializeException. */
  function DeserializeFromText(units: seq<int>): (r: Result<int>)
    ensures r.Ok? <==> units != []
    ensures r.Ok? ==> r.value == units[0]
    ensures r.Err? ==> r.error == SerializeException
  {
    if |units| < 1 then Err(SerializeException) else Ok(units[0])
  }

  /**
   * `CharacterSerializer.serialize`: the Character itself, else an Integer,
   * a Short or a String form, in that order. The Integer is the `short`
   * widened, so it is sign-extended.
   */
  function Serialize(value: int, supported: set<Cls>): (r: Result<JObject>)
    requires IsUnit(value)
    ensures r.Err? <==> supported !! {CHARACTER, INTEGER, SHORT, STRING}
    ensures r.Err? ==> r.error == SerializeException
    ensures CHARACTER in supported ==> r == Ok(JCharacter(value))
    ensures CHARACTER !in supported && INTEGER in supported ==> r == Ok(JNumber(IntNum, SerializeToNumber(value)))
    ensures r.Ok? ==> WellFormed(r.value) && ClassOf(r.value) in supported
  {
    if CHARACTER in supported then Ok(JCharacter(value))
    else if INTEGER in supported then Ok(JNumber(IntNum, Wrap32(SerializeToNumber(value))))
    else if SHORT in supported then Ok(JNumber(ShortNum, Wrap16(SerializeToNumber(value))))
    else if STRING in supported then Ok(JText(SerializeToText(value)))
    else Err(SerializeException)
  }

  /**
   * `CharacterSerializer.deserialize`: a Character, then a Number, then any
   * CharSequence through its text; anything else is a SerializeException.
   */
  function Deserialize(o: JObject): (r: Result<int>)
    ensures WellFormed(o) && r.Ok? ==> IsUnit(r.value)
    ensures o.JCharacter? ==> r == Ok(o.unit)
    ensures o.JNumber? ==> r == Ok(DeserializeFromNumber(o.value))
    ensures !o.JCharacter? && !o.JNumber? && IsCharSequence(o) ==> r == DeserializeFromText(Units(ToString(o)))
    ensures r.Err? <==> (!o.JCharacter? && !o.JNumber? && IsCharSequence(o) && ToString(o) == [])
                        || !(o.JCharacter? || o.JNumber? || IsCharSequence(o))
    ensures r.Err? ==> r.error == SerializeException
  {
    if o.JCharacter? then Ok(o.unit)
    else if o.JNumber? then Ok(DeserializeFromNumber(o.value))
    else if IsCharSequence(o) then
      assert ToString(o) != [] ==> Units(ToString(o)) != [];
      DeserializeFromText(Units(ToString(o)))
    else Err(SerializeException)
  }

  // ---------------------------------------------------------------------
  // Properties

  /** The number form gives the character back, for every character. */
  lemma NumberRoundTrip(value: int)
    requires IsUnit(value)
    ensures DeserializeFromNumber(SerializeToNumber(value)) == value
  {
    var n := SerializeToNumber(value);
    assert value == n + (if value >= 0x8000 then 0x1_0000 else 0);
  }

  /** Reading the numbers that share their low sixteen bits yields the same character: the high bits are dropped. */
  lemma NumberKeepsLowBits(value: int, k: int)
    ensures DeserializeFromNumber(value + k * 0x1_0000) == DeserializeFromNumber(value)
  {
    var a := DeserializeFromNumber(value);
    var b := DeserializeFromNumber(value + k * 0x1_0000);
    var p := (value - a) / 0x1_0000;
    var q := (value + k * 0x1_0000 - b) / 0x1_0000;
    assert a - b == (q - k - p) * 0x1_0000;
  }

  /** The text form gives back every character that is not a lone surrogate. */
  lemma TextRoundTrip(value: int)
    requires IsUnit(value) && !IsSurrogate(value)
    ensures DeserializeFromText(Units(SerializeToText(value))) == Ok(value)
  {
  }

  /** Whatever form `serialize` picks, `deserialize` reads the character back; only the String form loses a surrogate. */
  lemma SerializeRoundTrip(value: int, supported: set<Cls>)
    requires IsUnit(value)
    requires Serialize(value, supported).Ok?
    requires !IsSurrogate(value) || !(supported !! {CHARACTER, INTEGER, SHORT})
    ensures Deserialize(Serialize(value, supported).value) == Ok(value)
  {
    NumberRoundTrip(value);
    if CHARACTER !in supported && INTEGER !in supported && SHORT !in supported {
      TextRoundTrip(value);
    }
  }

  /** A character above 0x7FFF is sent as a negative Integer. */
  lemma HighCharacterIsNegative()
    ensures Serialize(0xFFFF, {INTEGER}) == Ok(JNumber(IntNum, -1))
    ensures Deserialize(JNumber(IntNum, -1)) == Ok(0xFFFF)
    ensures Deserialize(JNumber(LongNum, 0x1_0041)) == Ok(0x41)
  {
    assert SerializeToNumber(0xFFFF) == -1;
  }

  /** Text gives its first unit, and empty text is refused. */
  lemma TextGivesFirstUnit()
    ensures Deserialize(JText("AB")) == Ok(0x41)
    ensures Deserialize(JText("")) == Err(SerializeException)
  {
    assert Units("AB") == [0x41] + Units("B");
  }
}
