# A verified model of the natrox / conelux / aero utility libraries

This project models, in Dafny, the core of a family of Java utility
libraries published under the `de.natrox`, `org.conelux`, `org.aero` and
`de.notion` packages. It covers:

- **numeric parsing and coercion**: `NumericParser`, `NumericTypeEnforcerImpl`,
  the integral parsers and deserializers, `NumberToNumberConverterFactory`
  and `NumberUtil`;
- **scalar codecs**: the boolean, character, string and UUID serializers and
  deserializers, and the enum parser and converter with their name caches;
- **`ConsoleColor`**: colour codes, RGB codes, stripping and lookup by character;
- **first-match registries**: the conversion buses, `ParserCollectionImpl`,
  `SerializerCollectionImpl`, `SerializerRegistryImpl`, `SerializerImpl`
  and `ObjectMapperFactoryImpl`;
- **collection and map converters**: the map converter, parser and
  deserializer, the collection converters and parsers, and `MapToMapConverter`;
- **counters and countdowns**: the four `CounterImpl` classes, the two
  counting runnables and the two `Countdown` classes, with the two `Check`
  validators they use;
- **the scheduler's `TaskImpl`**, and **`TaskChainImpl`** with its factory;
- **the event buses**: the three event bus implementations and their event listeners;
- **`Pair` and `Triple`**: the aero containers and the natrox `Pair`.

Java values are modelled as datatypes: a boxed number carries its kind and
its value, and `null` is the `None` of an `Option`. A thrown exception is the
`Err` of a `Result`. Java's fixed-width arithmetic is written out as explicit
wrap-around (`Wrap8` to `Wrap64` in `java.dfy`). Classes whose fields the
source updates in place (the counters, countdowns, tasks, task chains,
builders, caches, buses and containers) are Dafny classes. Each method of
such a class is proved against a pure function of the old state, and the
properties are proved about those functions. Handler calls of counters,
chains and buses are recorded in a log, so a lemma can state which handlers
run and in what order.

## Model

| member | source | states |
|---|---|---|
| NumericParsing.ParseSigned | src/main/java/de/natrox/serialize/parse/NumericParser.java:77 | the signed parse function (`Byte.parseByte`, `Short.parseShort`, `Integer.parseInt`, `Long.parseLong` at a radix) gives a value inside its type's range or a NumberFormatException |
| NumericParsing.ParseUnsigned | src/main/java/de/natrox/serialize/parse/NumericParser.java:77 | the unsigned parse function (`Integer.parseUnsignedInt`, `Long.parseUnsignedLong`) gives the two's-complement value of a number below 2^32 or 2^64, or a NumberFormatException |
| NumericParsing.Apply | src/main/java/de/natrox/serialize/parse/NumericParser.java:77 | whichever parse function `parseNumber` was handed, its value fits the width of its type; a failure is a NumberFormatException |
| NumericParsing.RadixPrefix | src/main/java/de/natrox/serialize/parse/NumericParser.java:58-69 | `0x` selects radix 16 with the digits two characters on; failing that, `#` selects radix 16 one character on; failing both, `0b` selects radix 2 two characters on; anything else is radix 10 with the digits where the prefix would be |
| NumericParsing.SuffixEnd | src/main/java/de/natrox/serialize/parse/NumericParser.java:37-40 | a trailing type suffix, lower- or upper-case, is dropped: the end moves back by at most one |
| NumericParsing.ShapeOf | src/main/java/de/natrox/serialize/parse/NumericParser.java:31-69 | the end and start indices of the digits, the `u` marker, the sign and the radix that the scan finds stay inside the literal's bounds |
| NumericParsing.ReadLiteral | src/main/java/de/natrox/serialize/parse/NumericParser.java:28-81 | `parseNumber` as written: every value it returns fits the signed or the unsigned parse function's type, and it fails with IndexOutOfBoundsException exactly when the radix prefix overruns the digits; every other failure is a SerializeException |
| NumericParsing.ParseNumberText | src/main/java/de/natrox/conversionbus/convert/NumericTypeEnforcerImpl.java:197-250 | `parseNumber` with an overrunning radix prefix read as a malformed number: every failure is a SerializeException; off an overrun it agrees with the code as written, and on one it is a SerializeException where the code as written throws |
| NumericParsing.ScanLiteral | src/main/java/de/natrox/serialize/parse/NumericParser.java:31-69 | the index-shuffling scan (suffix, `u`, sign, radix prefix) computes exactly the shape `ShapeOf` describes |
| NumericParsing.ParseNumber | src/main/java/de/natrox/serialize/parse/NumericParser.java:28-81 | the method equals `ReadLiteral` for both copies (lower-casing in NumericTypeEnforcerImpl.java:197-250, case-keeping here); it fails only with SerializeException or the `substring` IndexOutOfBoundsException |
| NumericParsing.DecimalDigitsValue | src/main/java/de/natrox/serialize/parse/NumericParser.java:77 | the decimal digits of a natural number are digits in radix 10 and their value is that number |
| NumericParsing.ParseSignedDigits | src/main/java/de/natrox/serialize/parse/NumericParser.java:77 | a signed parse function reads the decimal digits of n as n when n is in its range, and fails otherwise |
| NumericParsing.ParseSignedNegative | src/main/java/de/natrox/serialize/parse/NumericParser.java:73-77 | a signed parse function reads `-` followed by the digits of n as -n when in range, and fails otherwise |
| NumericParsing.ParseSignedDecimal | src/main/java/de/natrox/serialize/parse/NumericParser.java:77 | a signed parse function reads the decimal form of every value in its range, and rejects it exactly when it is out of range |
| NumericParsing.ApplyDecimal | src/main/java/de/natrox/serialize/parse/NumericParser.java:77 | the same for each of the four signed parse functions and its own range |
| NumericParsing.ShapeOfDecimal | src/main/java/de/natrox/serialize/parse/NumericParser.java:31-69 | a decimal literal, optionally followed by the type suffix, scans as radix 10, not unsigned, its sign as given and its digits in between |
| NumericParsing.ReadsOutcome | src/main/java/de/natrox/serialize/parse/NumericParser.java:71-80 | once the shape is known and the prefix does not overrun, `parseNumber` returns the parse function's value and turns its failure into a SerializeException |
| NumericParsing.Overruns | src/main/java/de/natrox/serialize/parse/NumericParser.java:71 | when the radix prefix runs past the end of the digits, the code as written fails in `substring` and the corrected reading is a SerializeException |
| NumericParsing.ReadsAs | src/main/java/de/natrox/serialize/parse/NumericParser.java:71-80 | a literal whose digit text parses reads as that value |
| NumericParsing.DecimalSource | src/main/java/de/natrox/conversionbus/convert/NumericTypeEnforcerImpl.java:198 | lower-casing leaves a decimal literal with a lower-case tail unchanged |
| NumericParsing.DecimalDigitText | src/main/java/de/natrox/serialize/parse/NumericParser.java:71-75 | the digit text of a decimal literal with its minus sign restored is the literal without its tail |
| NumericParsing.DecimalWithTail | src/main/java/de/natrox/serialize/parse/NumericParser.java:28-81 | a decimal literal, bare or with the type suffix, reads as its value exactly when the type's range holds it, and is a SerializeException otherwise |
| NumericParsing.DecimalRoundTrip | src/main/java/de/natrox/serialize/parse/NumericParser.java:28-81 | round trip: the decimal form of any value in range reads back as that value in both copies, with or without a lower-case suffix, and with an upper-case suffix in the case-keeping copy |
| NumericParsing.ShapeOfUnsigned | src/main/java/de/natrox/serialize/parse/NumericParser.java:42-46 | digits followed by `u` scan as an unsigned radix-10 literal |
| NumericParsing.ParseUnsignedDigits | src/main/java/de/natrox/serialize/parse/NumericParser.java:77 | the unsigned parse function reads the digits of n below the modulus as n's two's complement |
| NumericParsing.UnsignedIntDigits | src/main/java/de/natrox/conversionbus/convert/NumericTypeEnforcerImpl.java:136 | `Integer.parseUnsignedInt` reads the digits of n below 2^32 as its 32-bit two's complement |
| NumericParsing.UnsignedIntRoundTrip | src/main/java/de/natrox/conversionbus/convert/NumericTypeEnforcerImpl.java:136 | in both copies, an integer literal below 2^32 marked `u` reads as its 32-bit two's-complement value |
| NumericParsing.MinusWithUnsignedRejected | src/main/java/de/natrox/serialize/parse/NumericParser.java:48-51 | a literal with a leading minus, the `u` marker and the type suffix is a SerializeException |
| NumericParsing.MinusWithUnsignedMarkerRejected | src/main/java/de/natrox/serialize/parse/NumericParser.java:48-51 | a literal with a leading minus and the `u` marker alone is a SerializeException |
| NumericParsing.ByteSuffixSwallowsHexDigit | src/main/java/de/natrox/conversionbus/convert/NumericTypeEnforcerImpl.java:52 | the byte reader takes the final `b` of `0x1b` as its type suffix and reads 1 |
| NumericParsing.BinaryPrefixOverruns | src/main/java/de/natrox/conversionbus/convert/NumericTypeEnforcerImpl.java:206-240 | for a byte the trailing `b` of `0b` is removed as the type suffix, then the `0b` prefix moves the start past the end, and `substring` throws IndexOutOfBoundsException before the `try`; the corrected reading is a SerializeException |
| NumericParsing.NegativeBinaryPrefixOverruns | src/main/java/de/natrox/serialize/parse/NumericParser.java:66-71 | `-0b` makes the case-keeping copy fail in `substring` too |
| NumericParsing.OverrunNeedsBinarySuffix | src/main/java/de/natrox/serialize/parse/NumericParser.java:37-69 | with a type suffix other than `b` (and not `u` or `x`) no literal's radix prefix overruns its digits, so the code as written and the corrected reading agree on it |
| NumericParsing.UpperHexPrefixLowered | src/main/java/de/natrox/conversionbus/convert/NumericTypeEnforcerImpl.java:198 | the lower-casing copy reads both `0X41` and `0x41` as 65 |
| NumericParsing.UpperHexPrefixKept | src/main/java/de/natrox/serialize/parse/NumericParser.java:60 | the case-keeping copy reads `0x41` as 65 and rejects `0X41` |
| JavaLang.NumbersAreJNumbers | src/main/java/de/natrox/serialize/parse/IntegerParser.java:34-44 | on a well-formed object, `instanceof Number` holds exactly for the number values, every String is a CharSequence, and a Boolean, Character or `long[]` is not one |
| NumericCoercion.Narrow | src/main/java/de/natrox/serialize/IntegerDeserializer.java:45 | the `(byte)`, `(short)` or `(int)` cast keeps the value inside the target type and leaves a value that already fits unchanged |
| NumericCoercion.SignedParser | src/main/java/de/natrox/conversionbus/convert/NumericTypeEnforcerImpl.java:52 | each integral reader passes the signed parse function of its own type, whose accepted range is exactly that type's range |
| NumericCoercion.UnsignedParser | src/main/java/de/natrox/conversionbus/convert/NumericTypeEnforcerImpl.java:136 | the unsigned parse function each reader passes yields values inside the reader's type, `Byte::parseByte` and `Short::parseShort` standing in for a missing unsigned parser |
| NumericCoercion.Suffix | src/main/java/de/natrox/conversionbus/convert/NumericTypeEnforcerImpl.java:136 | the type suffixes `b`, `s`, `i`, `l` are lower-case letters other than the `u` marker and the `x` of a hex prefix |
| NumericCoercion.ReadIntegral | src/main/java/de/natrox/serialize/parse/IntegerParser.java:26-47 | an integral read, dispatching with `instanceof`: any Number (a boxed integer, a BigInteger, or another class such as AtomicLong) is accepted exactly when its `longValue()` lies in the target range and is then returned as it is; any CharSequence (a String, a StringBuilder) goes through its `toString()` to `parseNumber`, which, unchecked as written, throws IndexOutOfBoundsException exactly when the radix prefix overruns; an object that is neither is the reader's own failure exception; every value returned fits the target type |
| NumericCoercion.EnforcerRead | src/main/java/de/natrox/conversionbus/convert/NumericTypeEnforcerImpl.java:28-191 | the converter copies (`ByteConverter`, `ShortConverter`, `IntegerConverter`, `LongConverter`): the same range rule for every Number, the lower-cased text of every CharSequence through `parseNumber` as written, and ConversionFailedException exactly for an object that is neither; IndexOutOfBoundsException escapes exactly for a CharSequence whose radix prefix overruns |
| NumericCoercion.ParserRead | src/main/java/de/natrox/serialize/parse/IntegerParser.java:26-47 | the parser and deserializer copies: the same range rule for every Number, the case-keeping text of every CharSequence, CoercionFailedException exactly for an object that is neither, and no failure but SerializeException and CoercionFailedException; for bytes this is the corrected reader (an in-range Number returned, an overrunning prefix a SerializeException), for short, int and long it is the code as written (`OverrunOnlyForBytes`) |
| NumericCoercion.ByteDeserializeAsWritten | src/main/java/de/natrox/serialize/ByteDeserializer.java:32-52 | `ByteDeserializer.deserialize` as written: no Number is ever returned; an out-of-range one is a SerializeException and an in-range one falls through to the CharSequence test; only a CharSequence can succeed, and one whose radix prefix overruns (`0b`, `-0b`) escapes as IndexOutOfBoundsException |
| NumericCoercion.ByteDeserializerDropsInRangeNumber | src/main/java/de/natrox/serialize/ByteDeserializer.java:40-51 | an in-range Number falls through the missing `return` to CoercionFailedException, while the corrected reader returns its value |
| NumericCoercion.ByteDeserializerOtherwiseAgrees | src/main/java/de/natrox/serialize/ByteDeserializer.java:32-52 | apart from in-range Numbers, the byte deserializer as written agrees with the corrected reader on every object except a CharSequence whose radix prefix overruns, where it throws IndexOutOfBoundsException and the corrected reader reports a SerializeException |
| NumericCoercion.OverrunOnlyForBytes | src/main/java/de/natrox/serialize/parse/IntegerParser.java:26-47 | the short, int and long readers never meet an overrunning prefix: the corrected and the as-written `parseNumber` read every object alike, and the converters for those types never throw IndexOutOfBoundsException |
| NumericCoercion.ByteBinaryPrefixOverruns | src/main/java/de/natrox/conversionbus/convert/NumericTypeEnforcerImpl.java:235-240 | the byte converter throws IndexOutOfBoundsException on `0B`, the byte deserializer as written on `-0b`, and the corrected reader reports `-0b` as a SerializeException |
| NumericCoercion.InRangeNumberKept | src/main/java/de/natrox/serialize/ShortDeserializer.java:40-46 | a Number whose value is in range is read back unchanged |
| NumericCoercion.BigIntegerWrapsIntoRange | src/main/java/de/natrox/serialize/parse/IntegerParser.java:35-39 | a BigInteger outside the `long` range is range-checked after `longValue()` wraps it, so 2^64+5 reads as the byte 5 and -2^64 as the int 0 |
| NumericCoercion.DecimalTextRead | src/main/java/de/natrox/serialize/parse/IntegerParser.java:42-44 | the decimal text of a value reads as that value exactly when the target type holds it, otherwise it is a SerializeException |
| NumericCoercion.SuffixedTextRead | src/main/java/de/natrox/serialize/parse/IntegerParser.java:42-44 | the same with the reader's lower-case type suffix appended |
| NumericCoercion.UpperSuffixedTextRead | src/main/java/de/natrox/serialize/parse/NumericParser.java:38 | the parser copy also accepts the upper-case type suffix |
| NumericCoercion.NumberAndTextAgree | src/main/java/de/natrox/serialize/parse/IntegerParser.java:26-47 | a Number and its decimal text read the same way |
| NumericCoercion.EnforcerIgnoresCase | src/main/java/de/natrox/conversionbus/convert/NumericTypeEnforcerImpl.java:198 | the converter copy reads a text and its lower-case form alike |
| NumericCoercion.EnforcerHexPrefix | src/main/java/de/natrox/conversionbus/convert/NumericTypeEnforcerImpl.java:229 | the byte converter reads `0X41` and `0x41` as 65 |
| NumericCoercion.ParserHexPrefix | src/main/java/de/natrox/serialize/parse/NumericParser.java:60 | the byte parser reads `0x41` as 65 and rejects `0X41` |
| NumericCoercion.UnsignedIntText | src/main/java/de/natrox/serialize/parse/IntegerParser.java:43 | the int readers read a decimal below 2^32 marked `u` as its 32-bit two's complement |
| NumericCoercion.CharSequenceReadAsText | src/main/java/de/natrox/serialize/parse/IntegerParser.java:42-44 | any CharSequence class, a StringBuilder say, is read through its text exactly as a String holding that text is, by every reader copy |
| NumericCoercion.AtomicLongRangeChecked | src/main/java/de/natrox/serialize/parse/IntegerParser.java:34-39 | example: an AtomicLong is a Number like any other, so 0x7FFF reads as a short, 0x8000 is a SerializeException, and -1 reads as a long |
| NumericCoercion.StringBuilderParsed | src/main/java/de/natrox/serialize/parse/IntegerParser.java:42-44 | example: a StringBuilder holding `12` reads as the int 12 in the parser and the converter copy |
| NumberToNumber.ConvertToLong | conversion/src/main/java/org/conelux/conversion/converter/NumberToNumberConverterFactory.java:86-95 | a BigInteger or BigDecimal outside the `long` range is a ConversionFailedException; every other Number passes, and an in-range value is kept exactly |
| NumberToNumber.Convert | conversion/src/main/java/org/conelux/conversion/converter/NumberToNumberConverterFactory.java:52-84 | a successful conversion yields an object of the target class holding the source value; a `long` failure fails the conversion, and a target outside the six integral number classes is refused |
| NumberToNumber.MatchesIsInequality | conversion/src/main/java/org/conelux/conversion/converter/NumberToNumberConverterFactory.java:33-36 | the factory's condition matches exactly the pairs of different types: never a type with itself, and symmetrically |
| NumberToNumber.IntegralTargetsCheckRange | conversion/src/main/java/org/conelux/conversion/converter/NumberToNumberConverterFactory.java:55-68 | a `long`-range Number converts to Byte, Short or Integer exactly when the target's range holds it, and always to Long with its value |
| NumberToNumber.HugeBigIntegerFailsEverywhere | conversion/src/main/java/org/conelux/conversion/converter/NumberToNumberConverterFactory.java:90-94 | a BigInteger beyond the `long` range fails for every integral target, BigInteger itself included |
| NumberToNumber.WidenThenNarrow | conversion/src/main/java/org/conelux/conversion/converter/NumberToNumberConverterFactory.java:52-84 | round trip: a Byte, Short, Integer or Long widened to Long, BigInteger or BigDecimal converts back to the original object |
| NumberUtil.BoxType | src/main/java/de/natrox/serialize/util/NumberUtil.java:36-46 | `boxType` maps each listed primitive class to its wrapper, position by position, and leaves every other class unchanged |
| NumberUtil.PrimitiveType | src/main/java/de/natrox/serialize/util/NumberUtil.java:48-58 | `primitiveType` maps each listed wrapper to its primitive class and leaves every other class unchanged |
| NumberUtil.ClassCast | src/main/java/de/natrox/serialize/util/NumberUtil.java:27 | `Class.cast` hands back the object itself, and on a primitive class it always throws ClassCastException |
| NumberUtil.CastAsWritten | src/main/java/de/natrox/serialize/util/NumberUtil.java:25-34 | `cast` as written: every failure is a ClassCastException, and a primitive target class always fails |
| NumberUtil.Cast | src/main/java/de/natrox/serialize/util/NumberUtil.java:25-34 | `cast` as evidently intended: it succeeds exactly when the boxed target is Byte, Short, Integer or Long, and the result is of that class (a `long` keeps its value) |
| NumberUtil.BoxThenUnbox | src/main/java/de/natrox/serialize/util/NumberUtil.java:36-58 | unboxing the box of a primitive class gives it back |
| NumberUtil.UnboxThenBox | src/main/java/de/natrox/serialize/util/NumberUtil.java:36-58 | boxing the primitive class of a wrapper gives it back |
| NumberUtil.BoxingIdempotent | src/main/java/de/natrox/serialize/util/NumberUtil.java:36-58 | boxing twice is boxing once, and likewise for unboxing |
| NumberUtil.BoxUnboxRoundTrip | src/main/java/de/natrox/serialize/util/NumberUtil.java:36-58 | `primitiveType(boxType(c)) == c` holds exactly for the classes that are not wrappers; `boolean` is left out of both tables |
| NumberUtil.CastableClasses | src/main/java/de/natrox/serialize/util/NumberUtil.java:60-62 | no primitive class is castable, and a primitive's box is castable exactly when it is not `void` or `char` |
| NumberUtil.CastToPrimitiveRefused | src/main/java/de/natrox/serialize/util/NumberUtil.java:27-31 | for `byte.class`, `short.class`, `int.class`, `long.class` the code as written throws while the corrected cast succeeds; for the wrapper classes the two agree |
| BooleanCodec.Deserialize | src/main/java/de/natrox/serialize/BooleanDeserializer.java:33-54 | any Number (the boxed ones, BigInteger, AtomicInteger or another class) is true exactly when it is not the Integer 0; any other object is true or false exactly when its lower-cased `toString()` is one of the true or false words (`1` and `0` included); anything else is a CoercionFailedException |
| BooleanCodec.DeserializeFromText | src/main/java/de/natrox/serialize/BooleanSerializer.java:76-90 | text is true exactly for `true`, `t`, `yes`, `y` and false exactly for `false`, `f`, `no`, `n`, in any case; anything else is a SerializeException |
| BooleanCodec.SerializeToText | src/main/java/de/natrox/serialize/BooleanSerializer.java:71-73 | round trip: the text of a boolean reads back as that boolean |
| BooleanCodec.SerializeToNumber | src/main/java/de/natrox/serialize/BooleanSerializer.java:61-63 | a boolean becomes the Integer 1 exactly when it is true, otherwise 0 |
| BooleanCodec.DeserializeFromNumberAsWritten | src/main/java/de/natrox/serialize/BooleanSerializer.java:65-68 | as written, a number reads as true exactly when its `intValue()` is even |
| BooleanCodec.DeserializeFromNumber | src/main/java/de/natrox/serialize/BooleanSerializer.java:65-68 | corrected: a number reads as true exactly when its `intValue()` is odd, so 1 is true and 0 false |
| BooleanCodec.Serialize | src/main/java/de/natrox/serialize/BooleanSerializer.java:45-58 | the first supported of Boolean, Byte, Short, Integer, String receives the value, a Boolean when supported; with none supported it is a SerializeException |
| BooleanCodec.DeserializeValue | src/main/java/de/natrox/serialize/BooleanSerializer.java:33-42 | as written, dispatching with `instanceof`: a Boolean is returned as it is, any Number goes to `deserializeFromNumber` as written (even is true), any CharSequence, a StringBuilder included, to the text reader through its `toString()`, and any other object is a SerializeException |
| BooleanCodec.CorrectedDeserializeValue | src/main/java/de/natrox/serialize/BooleanSerializer.java:33-42 | the same with the corrected number reader (odd is true); it differs from the code as written only on Numbers |
| BooleanCodec.NumberRoundTripInverts | src/main/java/de/natrox/serialize/BooleanSerializer.java:61-68 | the numeric round trip as written inverts every boolean |
| BooleanCodec.NumberRoundTrip | src/main/java/de/natrox/serialize/BooleanSerializer.java:61-68 | with the corrected reader the numeric round trip gives the boolean back |
| BooleanCodec.SerializeRoundTrip | src/main/java/de/natrox/serialize/BooleanSerializer.java:33-58 | round trip with the corrected number reader: whatever representation `serialize` chooses, deserializing reads the boolean back |
| BooleanCodec.SerializeRoundTripAsWritten | src/main/java/de/natrox/serialize/BooleanSerializer.java:33-68 | the round trip as written inverts the boolean exactly when Boolean is unsupported and Byte, Short or Integer is chosen, and gives it back otherwise |
| BooleanCodec.TrueBecomesFalse | src/main/java/de/natrox/serialize/BooleanSerializer.java:36-37 | `true` serialized where only Integer is supported becomes the Integer 1, which `deserialize` as written reads as `false` and the corrected reader as `true` |
| BooleanCodec.TextWordsAnyCase | src/main/java/de/natrox/serialize/BooleanSerializer.java:76-90 | example: `TRUE` and `Yes` are true, `N` is false, and `1` and `0` are refused by the serializer |
| BooleanCodec.OnlyIntegerZeroIsFalse | src/main/java/de/natrox/serialize/BooleanDeserializer.java:34-36 | example: `obj.equals(0)` holds only for the Integer 0, so a Long, Byte or AtomicInteger 0 reads as true |
| BooleanCodec.DeserializerWords | src/main/java/de/natrox/serialize/BooleanDeserializer.java:38-53 | example: the deserializer accepts `1` and `0`, reads a Boolean through its text, and refuses other words |
| BooleanCodec.CharSequenceReadAsText | src/main/java/de/natrox/serialize/BooleanSerializer.java:38-39 | any CharSequence class is read by both `deserialize` variants exactly as a String with its text |
| CharacterCodec.SerializeToNumber | src/main/java/de/natrox/serialize/CharacterSerializer.java:57-60 | a character becomes the `short` with its sixteen bits: itself below 0x8000, minus 0x10000 above |
| CharacterCodec.DeserializeFromNumber | src/main/java/de/natrox/serialize/CharacterSerializer.java:62-65 | a number becomes the code unit with the low sixteen bits of its value |
| CharacterCodec.SerializeToText | src/main/java/de/natrox/serialize/CharacterSerializer.java:67-70 | a character becomes a one-character string holding it (a lone surrogate half aside) |
| CharacterCodec.DeserializeFromText | src/main/java/de/natrox/serialize/CharacterSerializer.java:72-77 | text gives its first code unit, and empty text is a SerializeException |
| CharacterCodec.Serialize | src/main/java/de/natrox/serialize/CharacterSerializer.java:43-55 | the first supported of Character, Integer, Short, String receives the value; with none supported it is a SerializeException |
| CharacterCodec.Deserialize | src/main/java/de/natrox/serialize/CharacterSerializer.java:31-41 | dispatching with `instanceof`: a Character is returned as it is, any Number goes to the number reader, any CharSequence to the text reader through its `toString()`; it fails, with SerializeException, exactly for an empty CharSequence and for an object that is none of the three |
| CharacterCodec.NumberRoundTrip | src/main/java/de/natrox/serialize/CharacterSerializer.java:57-65 | round trip: the numeric form of a character reads back as that character |
| CharacterCodec.NumberKeepsLowBits | src/main/java/de/natrox/serialize/CharacterSerializer.java:62-65 | numbers that differ by a multiple of 0x10000 read as the same character |
| CharacterCodec.TextRoundTrip | src/main/java/de/natrox/serialize/CharacterSerializer.java:67-77 | round trip: the text form of a character that is not a surrogate half reads back as it |
| CharacterCodec.SerializeRoundTrip | src/main/java/de/natrox/serialize/CharacterSerializer.java:31-55 | round trip: whatever representation `serialize` chooses, `deserialize` reads the character back |
| CharacterCodec.HighCharacterIsNegative | src/main/java/de/natrox/serialize/CharacterSerializer.java:47-65 | U+FFFF serializes as the Integer -1, which reads back as U+FFFF; a Long 0x10041 reads as `A` |
| CharacterCodec.TextGivesFirstUnit | src/main/java/de/natrox/serialize/CharacterSerializer.java:72-77 | `AB` reads as `A` and empty text is refused |
| StringCodec.Packed | src/main/java/de/natrox/serialize/StringSerializer.java:57-65 | the number the packing loop accumulates is a `long`: each code unit is shifted in sixteen bits at a time as a `short`, with wrap-around |
| StringCodec.Unpacked | src/main/java/de/natrox/serialize/StringSerializer.java:67-76 | unpacking a number yields code units, and nothing exactly when the number is 0 |
| StringCodec.PairsRestored | src/main/java/de/natrox/serialize/StringSerializer.java:75 | the surrogate-pair pass of `StringBuilder.reverse` keeps the length and the code units, and changes nothing in a sequence without a low surrogate |
| StringCodec.BuilderReversed | src/main/java/de/natrox/serialize/StringSerializer.java:75 | `StringBuilder.reverse` (its plain reversal being `Reversed`) keeps the length and, on text without a low surrogate, is the plain reversal |
| StringCodec.SerializeToNumber | src/main/java/de/natrox/serialize/StringSerializer.java:57-65 | the loop computes `Packed` of the string's code units |
| StringCodec.DeserializeFromNumber | src/main/java/de/natrox/serialize/StringSerializer.java:67-76 | the loop with the unsigned shift, followed by `StringBuilder.reverse`, computes `Unpacked` of the number's 64 bits with the reversal's surrogate-pair fix-up applied |
| StringCodec.NumberText | src/main/java/de/natrox/serialize/StringSerializer.java:67-76 | `deserializeFromNumber` always yields UTF-16 code units, one per nonzero sixteen-bit group of the number's 64 bits |
| StringCodec.Serialize | src/main/java/de/natrox/serialize/StringSerializer.java:43-55 | a String is returned as it is when supported; otherwise it fails exactly when the string has more than one unit or none of Short, Integer, Long is supported, and the first supported of those gets the packed number, cut to 16 bits for a Short and to 32 for an Integer |
| StringCodec.Deserialize | src/main/java/de/natrox/serialize/StringSerializer.java:31-41 | dispatching with `instanceof`: any CharSequence gives the units of its `toString()`, any Number the units `deserializeFromNumber` gives, a Character its single unit, and any other object is a SerializeException |
| StringCodec.PositionalBound | src/main/java/de/natrox/serialize/StringSerializer.java:57-65 | up to four units in [1, 0x7FFF] pack into less than half the 64-bit range |
| StringCodec.PackedIsPositional | src/main/java/de/natrox/serialize/StringSerializer.java:57-65 | for such units no step wraps, so the packed number is their base-65536 value |
| StringCodec.UnpackPositional | src/main/java/de/natrox/serialize/StringSerializer.java:67-76 | unpacking a base-65536 value with nonzero digits gives the digits back |
| StringCodec.NumberRoundTrip | src/main/java/de/natrox/serialize/StringSerializer.java:57-76 | round trip: up to four non-zero units below 0x8000 come back from their numeric form |
| StringCodec.StepLowBits | src/main/java/de/natrox/serialize/StringSerializer.java:61-62 | after one packing step the low sixteen bits of the number are the unit just added |
| StringCodec.LastUnitInLowBits | src/main/java/de/natrox/serialize/StringSerializer.java:57-65 | the low sixteen bits of the packed number are the last unit |
| StringCodec.PackedOneToFour | src/main/java/de/natrox/serialize/StringSerializer.java:57-65 | example: the units 1, 2, 3, 4 pack to 0x0001000200030004 |
| StringCodec.UnpackTwoToFive | src/main/java/de/natrox/serialize/StringSerializer.java:67-76 | example: 0x0002000300040005 unpacks to 2, 3, 4, 5 |
| StringCodec.FifthCharacterDropsFirst | src/main/java/de/natrox/serialize/StringSerializer.java:61 | a fifth unit shifts the first out of the `long`: 1, 2, 3, 4, 5 come back as 2, 3, 4, 5 |
| StringCodec.HighCharacterSignExtends | src/main/java/de/natrox/serialize/StringSerializer.java:62 | a unit of 0x8000 or more is added as a negative `short` and comes back as three extra 0xFFFF units before it |
| StringCodec.SurrogatePairKeptInOrder | src/main/java/de/natrox/serialize/StringSerializer.java:67-76 | the number whose units are 0xDE00 then 0xD83D comes back as 0xD83D, 0xDE00: the reversal keeps the surrogate pair in order |
| StringCodec.TextRoundTrip | src/main/java/de/natrox/serialize/StringSerializer.java:43-46 | round trip: a string serialized where String is supported reads back unchanged |
| StringCodec.EmptyString | src/main/java/de/natrox/serialize/StringSerializer.java:57-76 | the empty string packs to 0 and 0 unpacks to the empty string |
| StringCodec.SmallUnitText | src/main/java/de/natrox/serialize/StringSerializer.java:67-76 | a number that is one nonzero code unit below 0x8000 unpacks to that one unit |
| StringCodec.SmallUnitPacked | src/main/java/de/natrox/serialize/StringSerializer.java:57-76 | one unit in [1, 0x7FFF] packs to its own value, which unpacks to it again |
| StringCodec.SerializeRoundTrip | src/main/java/de/natrox/serialize/StringSerializer.java:31-76 | round trip: whatever `serialize` returns, `deserialize` gives the units back, when String is supported or the string is at most one unit in [1, 0x7FFF] |
| StringCodec.NulCharacterLost | src/main/java/de/natrox/serialize/StringSerializer.java:51-76 | example: `"\0"` where only Long is supported becomes the Long 0, which reads back as the empty string |
| UuidCodec.DigitsOf | src/main/java/de/natrox/serialize/UuidDeserializer.java:42-48 | the canonical form holds 32 hex digits besides its dashes |
| UuidCodec.FromString | src/main/java/de/natrox/serialize/UuidDeserializer.java:49-53 | `UUID.fromString` on the canonical 8-4-4-4-12 form of 36 characters: it yields the two `long` halves of the hex digits, and anything else is an IllegalArgumentException (the JDK's leniency about group lengths is left out) |
| UuidCodec.Dashed | src/main/java/de/natrox/serialize/UuidDeserializer.java:42-48 | a 32-character string gets dashes at positions 8, 13, 18 and 23 |
| UuidCodec.Deserialize | src/main/java/de/natrox/serialize/UuidDeserializer.java:35-54 | a `long[2]` gives the UUID of its two halves; otherwise text of length 36 is accepted exactly when canonical, of length 32 exactly when canonical once dashed, of any other length never; every failure is a CoercionFailedException |
| UuidCodec.UuidString | src/main/java/de/natrox/serialize/UuidDeserializer.java:50 | `UUID.toString` yields 36 characters |
| UuidCodec.HexRoundTrip | src/main/java/de/natrox/serialize/UuidDeserializer.java:50 | the hex digits of a number read back as that number |
| UuidCodec.DashedIsCanonical | src/main/java/de/natrox/serialize/UuidDeserializer.java:42-48 | dashing 32 hex digits gives a canonical form, whose digits are those 32 |
| UuidCodec.StringRoundTrip | src/main/java/de/natrox/serialize/UuidDeserializer.java:50 | round trip: `fromString(toString(u)) == u` |
| UuidCodec.DeserializeRoundTrip | src/main/java/de/natrox/serialize/UuidDeserializer.java:35-54 | round trip: a UUID reads back from its dashed text, its undashed text and its `long[2]` |
| UuidCodec.TextDeserialized | src/main/java/de/natrox/serialize/UuidDeserializer.java:41-50 | text that `fromString` accepts, after dashing when it has 32 characters, deserializes to that UUID |
| UuidCodec.DashedTextRoundTrip | src/main/java/de/natrox/serialize/UuidDeserializer.java:41-50 | a UUID reads back from its canonical text |
| UuidCodec.UndashedTextRoundTrip | src/main/java/de/natrox/serialize/UuidDeserializer.java:42-48 | a UUID reads back from its 32 digits without dashes |
| UuidCodec.OtherLongArraysRefused | src/main/java/de/natrox/serialize/UuidDeserializer.java:36-53 | a `long[]` of any length other than 2 falls through to its text, which is refused |
| UuidCodec.NonCanonicalGroupingRefused | src/main/java/de/natrox/serialize/UuidDeserializer.java:49-53 | the model's `fromString` reads the canonical grouping only: 36 characters grouped 7-5-4-4-12 are refused |
| EnumLookup.RemoveUnderscores | src/main/java/de/natrox/serialize/parse/EnumParserImpl.java:67 | `replace("_", "")` leaves no underscore and never lengthens the key |
| EnumLookup.ProcessKey | src/main/java/de/natrox/serialize/parse/EnumParserImpl.java:65-68 | a processed key always starts with the flower, so it differs from every constant name |
| EnumLookup.AddConstant | src/main/java/de/natrox/serialize/parse/EnumParserImpl.java:50-53 | one step of the cache loop: the name maps to its constant outright, the processed key keeps an earlier constant (`putIfAbsent`), and no other entry changes |
| EnumLookup.BuildCache | src/main/java/de/natrox/serialize/parse/EnumParserImpl.java:48-55 | the loop over the constants builds exactly `CacheOf` of the declared names, the cache `CacheContents` characterises |
| EnumLookup.Lookup | src/main/java/de/natrox/serialize/parse/EnumParserImpl.java:58-62 | the exact key is tried first; only when it is missing is the processed key looked up |
| EnumLookup.Parse | src/main/java/de/natrox/serialize/parse/EnumParserImpl.java:38-45 | `EnumParserImpl.parse` returns a declared constant exactly when the lookup of `obj.toString()` finds one, and otherwise throws CoercionFailedException |
| EnumLookup.Read | src/main/java/de/natrox/conversionbus/convert/EnumConverterImpl.java:38-45 | `EnumConverterImpl.read` does the same and throws ConversionFailedException |
| EnumLookup.NamedAt | src/main/java/de/natrox/serialize/parse/EnumParserImpl.java:51 | the constant whose name is exactly the key, or none when no constant has that name |
| EnumLookup.FirstProcessed | src/main/java/de/natrox/serialize/parse/EnumParserImpl.java:52 | the first declared constant whose processed name is the key, or none |
| EnumLookup.CacheBounded | src/main/java/de/natrox/serialize/parse/EnumParserImpl.java:48-55 | every cache entry maps to a declared constant |
| EnumLookup.CacheContents | src/main/java/de/natrox/serialize/parse/EnumParserImpl.java:48-55 | reference definition: `CacheOf`, the cache the loop builds, maps a flower key to the first constant with that processed name, and any other key to the constant with exactly that name |
| EnumLookup.LookupSpec | src/main/java/de/natrox/serialize/parse/EnumParserImpl.java:47-63 | a key finds the constant named exactly so, or else the first constant whose processed name matches |
| EnumLookup.ExactNameWins | src/main/java/de/natrox/serialize/parse/EnumParserImpl.java:58-61 | with distinct names, every constant is found by its own name |
| EnumLookup.ProcessedKeyIgnoresCase | src/main/java/de/natrox/serialize/parse/EnumParserImpl.java:62-67 | two keys that differ only in case and underscores, neither a constant name, find the same constant |
| EnumLookup.LowerThenProcess | src/main/java/de/natrox/serialize/parse/EnumParserImpl.java:67 | lower-casing before processing changes nothing |
| EnumLookup.ProcessedSpellingFinds | src/main/java/de/natrox/serialize/parse/EnumParserImpl.java:62 | a key that is no constant name finds the first constant sharing its processed form |
| EnumLookup.UnknownKeyMisses | src/main/java/de/natrox/serialize/parse/EnumParserImpl.java:41-43 | a key that matches no name in either form finds nothing |
| EnumLookup.TestEnumExactName | src/test/java/de/natrox/serialize/parse/EnumParserTest.java:33 | example: in the test enum every constant is found by its own name (`parse(TestEnum.FIRST)` included) |
| EnumLookup.TestEnumExactNames | src/test/java/de/natrox/serialize/parse/EnumParserTest.java:39-54 | example: `SECOND`, `third`, `FOURTH` and `fourth` parse to their constants, and an object whose text is `FIRST` to FIRST |
| EnumLookup.TestEnumLowerCaseInput | src/test/java/de/natrox/serialize/parse/EnumParserTest.java:36 | example: `first` parses to FIRST |
| EnumLookup.TestEnumMixedCaseInput | src/test/java/de/natrox/serialize/parse/EnumParserTest.java:42 | example: `sEcOnD` parses to SECOND |
| EnumLookup.TestEnumUpperCaseInput | src/test/java/de/natrox/serialize/parse/EnumParserTest.java:48 | example: `THIRD` parses to third |
| EnumLookup.TestEnumInvalidInput | src/test/java/de/natrox/serialize/parse/EnumParserTest.java:57 | example: `3rd` is refused |
| EnumLookup.FirstDeclaredOwnsProcessedKey | src/main/java/de/natrox/serialize/parse/EnumParserImpl.java:52 | `Fourth` finds FOURTH, not fourth: the earlier declared constant owns the shared processed key |
| EnumLookup.UnderscoresIgnored | src/main/java/de/natrox/serialize/parse/EnumParserImpl.java:67 | `FOUR_TH` finds FOURTH |
| EnumLookup.FlowerKeyReachesProcessedEntry | src/main/java/de/natrox/serialize/parse/EnumParserImpl.java:58-60 | a key that already carries the flower matches a processed entry directly |
| ConsoleColor.IndexOf | src/main/java/de/natrox/common/console/color/ConsoleColor.java:123 | `String.indexOf`: the first position of the character, or -1 exactly when it does not occur |
| ConsoleColor.Format | src/main/java/de/natrox/common/console/color/ConsoleColor.java:56 | `LOOKUP.indexOf(c)` is an index of one of the 22 colours, and -1 exactly for characters that are no colour code |
| ConsoleColor.Find | src/main/java/de/natrox/common/console/color/ConsoleColor.java:70-73 | `matcher.find()`: the first position at or after the cursor where the trigger, `#` and six hex digits start, and no match before it; none when there is no match |
| ConsoleColor.RewriteUpToMatch | src/main/java/de/natrox/common/console/color/ConsoleColor.java:73-79 | `appendReplacement` copies the text up to the match, then the match's replacement, and the search goes on after the match |
| ConsoleColor.RewriteWithoutMatch | src/main/java/de/natrox/common/console/color/ConsoleColor.java:81 | without a further match `appendTail` copies the rest unchanged |
| ConsoleColor.RewriteRgb | src/main/java/de/natrox/common/console/color/ConsoleColor.java:69-83 | the find/append loop builds exactly the rewritten text `RgbRewrite` describes |
| ConsoleColor.ColourReplaceStep | src/main/java/de/natrox/common/console/color/ConsoleColor.java:55-61 | replacing a trigger and code by the colour's escape at position i keeps the final result, moves the end by the escape's length minus two, and puts no trigger inside the escape |
| ConsoleColor.ColourKeepStep | src/main/java/de/natrox/common/console/color/ConsoleColor.java:54-55 | a position without a trigger and code is passed over without changing the result |
| ConsoleColor.ToColouredString | src/main/java/de/natrox/common/console/color/ConsoleColor.java:50-67 | `toColouredString` computes the 24-bit rewrite followed by the left-to-right replacement of every trigger and code by its colour's escape |
| ConsoleColor.Stripped | src/main/java/de/natrox/common/console/color/ConsoleColor.java:88-94 | the stripped text is never longer than the input |
| ConsoleColor.StripDeleteStep | src/main/java/de/natrox/common/console/color/ConsoleColor.java:90-92 | deleting a trigger and code at i and moving past the next character keeps the result |
| ConsoleColor.StripKeepStep | src/main/java/de/natrox/common/console/color/ConsoleColor.java:89-90 | a position without a trigger and code is passed over without changing the result |
| ConsoleColor.StripColor | src/main/java/de/natrox/common/console/color/ConsoleColor.java:85-109 | `stripColor` removes every 24-bit code, then every trigger and code in one left-to-right pass that skips the character after each deletion |
| ConsoleColor.ByChar | src/main/java/de/natrox/common/console/color/ConsoleColor.java:111-119 | `byChar` finds the colour with that index character exactly when one exists, and returns null otherwise |
| ConsoleColor.Trim | src/main/java/de/natrox/common/console/color/ConsoleColor.java:122 | `String.trim` leaves no control or space character at either end |
| ConsoleColor.LastColor | src/main/java/de/natrox/common/console/color/ConsoleColor.java:121-128 | `lastColor` returns a colour exactly when the trimmed text is longer than two, its second to last character is the trigger and its last is a colour's index; the colour is that one |
| ConsoleColor.FormatIsLookupIndex | src/main/java/de/natrox/common/console/color/ConsoleColor.java:36-37 | the colour codes are exactly the characters of `LOOKUP`, and each colour's index character sits at its code's position |
| ConsoleColor.ChannelsAreHexPairs | src/main/java/de/natrox/common/console/color/ConsoleColor.java:75-78 | `Color.decode` of `#RRGGBB`: red, green and blue are the values of the three digit pairs |
| ConsoleColor.RgbCodeBecomesEscape | src/main/java/de/natrox/common/console/color/ConsoleColor.java:70-78 | a trigger, `#` and six hex digits become the escape `ESC[38;2;r;g;bm` when colouring and vanish when stripping |
| ConsoleColor.NoTriggerUnchanged | src/main/java/de/natrox/common/console/color/ConsoleColor.java:50-109 | text without the trigger is left unchanged by both rewrites, by colouring and by stripping |
| ConsoleColor.CodeBecomesEscape | src/main/java/de/natrox/common/console/color/ConsoleColor.java:55-61 | a trigger followed by a code becomes the colour's escape; followed by anything else, the trigger stays |
| ConsoleColor.ColouredAppend | src/main/java/de/natrox/common/console/color/ConsoleColor.java:54-64 | colouring distributes over concatenation when the first part does not end in the trigger |
| ConsoleColor.ColouredKeepsLast | src/main/java/de/natrox/common/console/color/ConsoleColor.java:54-64 | a text whose last character is no code keeps that character last after colouring |
| ConsoleColor.StrippedKeepsLast | src/main/java/de/natrox/common/console/color/ConsoleColor.java:89-94 | the same after stripping |
| ConsoleColor.CodeStripped | src/main/java/de/natrox/common/console/color/ConsoleColor.java:90-92 | a trigger and code vanish when stripping, and the character after them is kept whatever it is |
| ConsoleColor.AdjacentCodeSurvives | src/main/java/de/natrox/common/console/color/ConsoleColor.java:89-93 | of two adjacent codes only the first is stripped: the loop skips the position the second one moves into |
| ConsoleColor.NonCodeKept | src/main/java/de/natrox/common/console/color/ConsoleColor.java:55-57 | a trigger at the end or before a non-code is kept by both colouring and stripping |
| ConsoleColor.TrimDropsBlanks | src/main/java/de/natrox/common/console/color/ConsoleColor.java:122 | `trim` drops the leading and trailing blanks |
| FirstMatch.FirstIndex | src/main/java/de/natrox/conversionbus/ConversionBusImpl.java:100-104 | the first entry whose test accepts the key, with no earlier entry accepting it, or none when no entry does |
| FirstMatch.Scan | src/main/java/de/natrox/conversionbus/ConversionBusImpl.java:100-106 | the loop over the entries returns the first accepting entry's value, and null exactly when no entry accepts |
| FirstMatch.FirstIndexAtMost | src/main/java/de/natrox/conversionbus/ConversionBusImpl.java:100-104 | an accepting entry at position i means the first match is at or before i |
| FirstMatch.FirstIndexIs | src/main/java/de/natrox/conversionbus/ConversionBusImpl.java:100-104 | an accepting entry with no accepting entry before it is the one found |
| FirstMatch.LookupAppend | src/main/java/de/natrox/conversionbus/ConversionBusImpl.java:129-135 | registering more entries after the existing ones never changes a key that already matched |
| Registries.Registry.constructor | src/main/java/de/natrox/conversionbus/ConversionBusImpl.java:89-92 | a registry starts with its parent, its entries and an empty cache |
| Registries.Registry.Get | src/main/java/de/natrox/conversionbus/ConversionBusImpl.java:95-118 | `get` answers what the chain of registries answers (its own first match, else its parent's), and caches a first match once, a miss only when the registry caches misses |
| Registries.RegistryBuilder.constructor | src/main/java/de/natrox/conversionbus/ConversionBusImpl.java:125-127 | a builder starts with its parent and no entries |
| Registries.RegistryBuilder.Register | src/main/java/de/natrox/conversionbus/ConversionBusImpl.java:129-135 | registering appends one entry at the end |
| Registries.RegistryBuilder.Build | src/main/java/de/natrox/conversionbus/ConversionBusImpl.java:137-140 | `build` gives a fresh registry with the builder's parent and entries and an empty cache |
| Registries.CachedAnswerIsFirstMatch | src/main/java/de/natrox/conversionbus/ConversionBusImpl.java:99-107 | every cached answer is the registry's own first match, and a cached miss occurs only in a registry that caches misses |
| Registries.ResolveIsChainLookup | src/main/java/de/natrox/conversionbus/ConversionBusImpl.java:109-117 | reference definition: resolving through the parent chain is the first match in the concatenated entries of the chain |
| ConversionBuses.Provider | src/main/java/de/natrox/conversionbus/ConversionBusImpl.java:129-135 | a registered provider tests the (input, output) type pair with its predicate and supplies its converter |
| ConversionBuses.Get | src/main/java/de/natrox/conversionbus/ConversionBusImpl.java:94-118 | `get` gives a converter for exactly the requested types, and agrees with the chain lookup |
| ConversionBuses.GetFailsIffNoProvider | src/main/java/de/natrox/conversionbus/ConversionBusImpl.java:117 | `get` throws IllegalArgumentException exactly when no provider in the chain accepts the pair |
| ConversionBuses.EarlierProviderWins | src/main/java/de/natrox/conversionbus/ConversionBusImpl.java:100-104 | the first accepting provider in registration order supplies the converter |
| ConeluxConversionBus.AdapterNeedsIdenticalTarget | src/main/java/org/conelux/conversion/ConversionBusImpl.java:93-100 | a converter adapter matches exactly when the target class is identical and the source is assignable to its registered source |
| ConeluxConversionBus.FactoryAdapterFallsBack | src/main/java/org/conelux/conversion/ConversionBusImpl.java:121-135 | a factory adapter whose factory has no condition, or whose created converter has none, matches by assignability of both target and source |
| ConeluxConversionBus.FactoryAdapterDefersToCreated | src/main/java/org/conelux/conversion/ConversionBusImpl.java:123-127 | when the factory's condition holds and the created converter has a condition, that condition alone decides |
| ConeluxConversionBus.Entries | src/main/java/org/conelux/conversion/ConversionBusImpl.java:52-57 | each converter of the set becomes an entry testing its own `matches` |
| ConeluxConversionBus.InOrder | src/main/java/org/conelux/conversion/ConversionBusImpl.java:53 | the set's iteration order is a permutation given from outside; the converters are visited in it |
| ConeluxConversionBus.BusBuilder.constructor | src/main/java/org/conelux/conversion/ConversionBusImpl.java:156-158 | a builder starts empty |
| ConeluxConversionBus.BusBuilder.Register | src/main/java/org/conelux/conversion/ConversionBusImpl.java:160-176 | each `register` overload adds one conditional converter |
| ConeluxConversionBus.BusBuilder.Build | src/main/java/org/conelux/conversion/ConversionBusImpl.java:178-181 | `build` gives a bus without parent over the converters in the set's iteration order, with an empty cache |
| ConeluxConversionBus.Convert | src/main/java/org/conelux/conversion/ConversionBusImpl.java:46-73 | `convert` keys the cache by the source's class and the target, and answers by the first matching converter |
| ConeluxConversionBus.ConvertPicksAMatch | src/main/java/org/conelux/conversion/ConversionBusImpl.java:52-65 | the converter used is one of the set's converters and matches the pair; ConverterNotFoundException is thrown exactly when none matches |
| ParserCollections.Entries | src/main/java/de/natrox/serialize/ParserCollectionImpl.java:128-134 | each row of a registration table becomes an entry testing its type test and supplying its parser |
| ParserCollections.AsWrittenShadowsLaterEntries | src/main/java/de/natrox/serialize/ParserCollectionImpl.java:70-82 | in the DEFAULT table as written (`DefaultTableAsWritten`) every type is taken by one of the first 24 rows: the `type -> true` object-array provider leaves the rows after it unreachable |
| ParserCollections.AsWrittenIntArrayGetsObjectArrayParser | src/main/java/de/natrox/serialize/ParserCollectionImpl.java:70-76 | as written, `int[]` gets the object-array parser rather than the `int[]` parser |
| ParserCollections.NoScalarRowAccepts | src/main/java/de/natrox/serialize/ParserCollectionImpl.java:47-68 | no exact scalar row accepts an array class |
| ParserCollections.PrimitiveArrayRowFacts | src/main/java/de/natrox/serialize/ParserCollectionImpl.java:71-78 | the eight primitive-array rows are exact registrations of eight distinct array classes |
| ParserCollections.DefaultTableLayout | src/main/java/de/natrox/serialize/ParserCollectionImpl.java:45-83 | the corrected DEFAULT table (`DefaultTable`): 36 rows, the scalar rows, the enum provider, an object-array provider for reference arrays only, then the primitive arrays and the containers |
| ParserCollections.PrimitiveArraysReachTheirParsers | src/main/java/de/natrox/serialize/ParserCollectionImpl.java:71-78 | in the corrected table every primitive array class gets its own parser |
| ParserCollections.Get | src/main/java/de/natrox/serialize/ParserCollectionImpl.java:95-117 | `get` answers as the chain of collections answers, applying the supplier to the requested type |
| ParserCollections.GetNullIffNoEntry | src/main/java/de/natrox/serialize/ParserCollectionImpl.java:108-111 | without a parent, `get` returns null exactly when no registration accepts the type |
| SerializerCollections.Registration | src/main/java/de/natrox/serialize/SerializerCollectionImpl.java:116-127 | registering with a registrable that is not a RegistrableImpl throws RuntimeException; otherwise the entry tests the type and input type of the pair and supplies the deserializer |
| SerializerCollections.GetPair | src/main/java/de/natrox/serialize/SerializerCollectionImpl.java:86-105 | `get(firstType, secondType)` answers as the chain answers |
| SerializerCollections.Get | src/main/java/de/natrox/serialize/SerializerCollectionImpl.java:74-84 | `get(type)` is `get(type, Object.class)`, null exactly when that is null, otherwise a deserializer delegating to it |
| SerializerCollections.FirstRegistrationWins | src/main/java/de/natrox/serialize/SerializerCollectionImpl.java:91-96 | the first registration accepting both types supplies the deserializer |
| SerializerCollections.RegisteredEntries | src/main/java/de/natrox/serialize/SerializerCollectionImpl.java:116-127 | the builder's entries are the registrations, one per `register` call, in order |
| SerializerRegistries.Register | src/main/java/de/natrox/serialize/SerializerRegistryImpl.java:71-89 | `register(type, serializer)`: the entry accepts subtypes of the type and wildcards with one upper bound that is a subtype |
| SerializerRegistries.RegisterExact | src/main/java/de/natrox/serialize/SerializerRegistryImpl.java:91-97 | `registerExact`: the entry accepts exactly the type |
| SerializerRegistries.WildcardMatchesThroughItsBound | src/main/java/de/natrox/serialize/SerializerRegistryImpl.java:80-84 | a wildcard with a single bound is accepted exactly when that bound is a subtype |
| SerializerRegistries.WildcardWithTwoBounds | src/main/java/de/natrox/serialize/SerializerRegistryImpl.java:76-86 | a wildcard with two bounds is accepted only through the subtype test on the wildcard itself |
| SerializerRegistries.Get | src/main/java/de/natrox/serialize/SerializerRegistryImpl.java:39-60 | `get` answers as the chain answers, and the cache afterwards holds the type with its own first match, the placeholder marking a miss |
| SerializerRegistries.DummyApply | src/main/java/de/natrox/serialize/SerializerRegistryImpl.java:133-141 | the placeholder throws UnsupportedOperationException whenever used |
| SerializerOperations.FirstAssignable | src/main/java/de/natrox/serialize/SerializerImpl.java:80-82 | the first key in iteration order that is assignable from the class, with none before it, or none at all |
| SerializerOperations.FindFailsIffNoAssignableKey | src/main/java/de/natrox/serialize/SerializerImpl.java:76-84 | `Find`, the lookup of `findSerializer` and the corrected `findDeserializer` (exact key first, then the scan), fails exactly when no key is assignable from the class; otherwise it returns the operation of an assignable key |
| SerializerOperations.FindIn | src/main/java/de/natrox/serialize/SerializerImpl.java:76-84 | the exact-key test followed by the scan computes `Find` |
| SerializerOperations.Deserialize | src/main/java/de/natrox/serialize/SerializerImpl.java:57-62 | corrected: a value already of the class comes back unchanged; every failure is a SerializerNotFoundException |
| SerializerOperations.DeserializeAsWrittenThrowsNullPointer | src/main/java/de/natrox/serialize/SerializerImpl.java:86-88 | example, as written (`FindDeserializerAsWritten`, `DeserializeAsWritten`): a class with a serializer but no deserializer makes `findDeserializer` return null and the call fail with NullPointerException, even where the scan would find one |
| SerializerOperations.AsWrittenAgreesWhenBothOrNeither | src/main/java/de/natrox/serialize/SerializerImpl.java:86-94 | when a class has both or neither kinds of operation, `DeserializeAsWritten` (the code as written) and the corrected `Deserialize` agree |
| SerializerOperations.SerializerImpl.constructor | src/main/java/de/natrox/serialize/SerializerImpl.java:33-37 | a serializer starts with no operations |
| SerializerOperations.SerializerImpl.AddSerializer | src/main/java/de/natrox/serialize/SerializerImpl.java:64-68 | `addSerializer` puts the operation under the class and leaves the deserializers alone |
| SerializerOperations.SerializerImpl.AddDeserializer | src/main/java/de/natrox/serialize/SerializerImpl.java:70-74 | `addDeserializer` puts the operation under the class and leaves the serializers alone |
| SerializerOperations.SerializerImpl.AddDefaultOperations | src/main/java/de/natrox/serialize/SerializerImpl.java:39-50 | `addDefaultOperations` registers the boolean and character operations in both maps |
| SerializerOperations.SerializerImpl.SerializeValue | src/main/java/de/natrox/serialize/SerializerImpl.java:52-55 | `serialize` computes `Serialize`: the operation `Find` gives for the value's class, applied to the value, or SerializerNotFoundException |
| SerializerOperations.SerializerImpl.DeserializeValue | src/main/java/de/natrox/serialize/SerializerImpl.java:57-62 | `deserialize` follows the corrected lookup |
| ObjectMapperFactory.ComputeMapper | src/main/java/de/natrox/conversionbus/objectmapping/ObjectMapperFactoryImpl.java:59-79 | the mapper comes from the first discoverer that recognises the type, and there is none exactly when no discoverer does |
| ObjectMapperFactory.Cached | src/main/java/de/natrox/conversionbus/objectmapping/ObjectMapperFactoryImpl.java:81-88 | the cache holds a mapper for a type exactly when an entry with that type exists |
| ObjectMapperFactory.Insert | src/main/java/de/natrox/conversionbus/objectmapping/ObjectMapperFactoryImpl.java:34-39 | adding to the cache appends the new entry and, at 64 entries, drops the eldest |
| ObjectMapperFactory.InsertKeepsCacheValid | src/main/java/de/natrox/conversionbus/objectmapping/ObjectMapperFactoryImpl.java:34-57 | caching the answer for a type not yet cached keeps the cache at most 64 entries, with distinct types and each entry the answer a fresh computation gives |
| ObjectMapperFactory.Reverse | src/main/java/de/natrox/conversionbus/objectmapping/ObjectMapperFactoryImpl.java:42-45 | the factory keeps the discoverers in reverse order of addition |
| ObjectMapperFactory.LatestDiscovererWins | src/main/java/de/natrox/conversionbus/objectmapping/ObjectMapperFactoryImpl.java:42-65 | the discoverer added last is tried first and wins when it recognises the type |
| ObjectMapperFactory.FactoryBuilder.constructor | src/main/java/de/natrox/conversionbus/objectmapping/ObjectMapperFactoryImpl.java:93 | a builder starts with no discoverers |
| ObjectMapperFactory.FactoryBuilder.AddDiscoverer | src/main/java/de/natrox/conversionbus/objectmapping/ObjectMapperFactoryImpl.java:95-99 | `addDiscoverer` appends |
| ObjectMapperFactory.FactoryBuilder.Build | src/main/java/de/natrox/conversionbus/objectmapping/ObjectMapperFactoryImpl.java:101-104 | `build` gives a fresh factory with the discoverers reversed and an empty cache |
| ObjectMapperFactory.ObjectMapperFactoryImpl.constructor | src/main/java/de/natrox/conversionbus/objectmapping/ObjectMapperFactoryImpl.java:42-45 | a factory starts with an empty cache |
| ObjectMapperFactory.ObjectMapperFactoryImpl.Get | src/main/java/de/natrox/conversionbus/objectmapping/ObjectMapperFactoryImpl.java:47-57 | `get` refuses raw types with SerializeException, otherwise returns the computed or cached mapper; a missing mapper is a wrapped SerializeException; a new mapper enters the cache |
| Containers.Put | src/main/java/de/natrox/conversionbus/convert/MapConverterImpl.java:64 | `LinkedHashMap.put`: the key set grows by the key; a new key is appended at the end, an existing key keeps its place and takes the value; distinct keys stay distinct |
| Containers.PutThenGet | src/main/java/de/natrox/conversionbus/convert/MapConverterImpl.java:64 | after `put(k, v)` the map answers `v` for `k` and what it answered before for every other key |
| Containers.ConvertInto | src/main/java/de/natrox/conversionbus/convert/MapConverterImpl.java:63-65 | putting the converted entries one by one succeeds exactly when every key and value converts, and yields a map with distinct keys |
| Containers.FillMap | src/main/java/de/natrox/conversionbus/convert/MapConverterImpl.java:62-66 | the entry loop computes `ConvertInto` |
| Containers.ConvertIntoErrorIsFirstFailure | src/main/java/de/natrox/conversionbus/convert/MapConverterImpl.java:63-65 | a failed fill throws the exception of the first entry whose key or value fails, every entry before it having converted |
| Containers.ConvertIntoKeepsOrder | src/main/java/de/natrox/conversionbus/convert/MapConverterImpl.java:62-66 | when the converted keys are distinct the result is the accumulated map followed by the converted entries in source order |
| Containers.FillRoundTrip | src/main/java/de/natrox/conversionbus/convert/MapConverterImpl.java:59-79 | writing a map and reading the result back gives the map again when the key and value converters round-trip on its entries |
| Containers.Add | src/main/java/de/natrox/conversion/convert/AbstractCollectionConverter.java:56 | `Collection.add`: a list appends the element; a set gains it only when absent, so its elements stay distinct |
| Containers.ConvertAll | src/main/java/de/natrox/conversion/convert/AbstractCollectionConverter.java:53-58 | adding the converted elements succeeds exactly when every element converts; the elements held are the old ones plus the converted ones, distinct for a set |
| Containers.AddAll | src/main/java/de/natrox/conversion/convert/AbstractCollectionConverter.java:55-57 | the element loop computes `ConvertAll` |
| Containers.ConvertAllListKeepsOrder | src/main/java/de/natrox/conversion/convert/AbstractCollectionConverter.java:53-58 | for a list the result is the old elements followed by each converted element in order |
| Containers.Collect | src/main/java/de/natrox/conversion/convert/AbstractCollectionConverter.java:54 | `createNew` gives a list or a set by the converter's kind |
| MapCodecs.Parsers | src/main/java/de/natrox/serialize/parse/MapParserImpl.java:70-94 | `parsers()`: a raw type, a type without two arguments, or a missing key or value parser is a SerializeException; otherwise the two parsers for the key and value types |
| MapCodecs.ParseAnswer | src/main/java/de/natrox/serialize/parse/MapParserImpl.java:39-53 | `parse` of a non-map is an empty map; of a map it fetches the parsers and succeeds exactly when every entry parses, giving a map with distinct keys |
| MapCodecs.Parse | src/main/java/de/natrox/serialize/parse/MapParserImpl.java:40-53 | the method computes `ParseAnswer` |
| MapCodecs.SerializeAnswer | src/main/java/de/natrox/serialize/parse/MapParserImpl.java:55-68 | `serialize` fetches the parsers first, then succeeds exactly when every entry serializes |
| MapCodecs.Serialize | src/main/java/de/natrox/serialize/parse/MapParserImpl.java:56-68 | the method computes `SerializeAnswer` |
| MapCodecs.ParseKeepsOrder | src/main/java/de/natrox/serialize/parse/MapParserImpl.java:47-49 | with distinct parsed keys, the parsed map holds the parsed entries in source order |
| MapCodecs.SerializeThenParse | src/main/java/de/natrox/serialize/parse/MapParserImpl.java:40-68 | parsing what `serialize` produced gives the map back when the parsers round-trip on its entries |
| MapCodecs.Create | src/main/java/de/natrox/conversionbus/convert/MapConverterImpl.java:42-57 | `create`: a raw type or a type without two arguments is an IllegalArgumentException; a failing key or value lookup throws its exception, the key first; otherwise the converter holds both |
| MapCodecs.ReadAnswer | src/main/java/de/natrox/conversionbus/convert/MapConverterImpl.java:59-70 | `read` of a non-map is a ConversionFailedException; of a map it succeeds exactly when every entry converts |
| MapCodecs.Read | src/main/java/de/natrox/conversionbus/convert/MapConverterImpl.java:60-70 | the method computes `ReadAnswer` |
| MapCodecs.WriteAnswer | src/main/java/de/natrox/conversionbus/convert/MapConverterImpl.java:72-79 | `write` succeeds exactly when every entry converts, giving a map with distinct keys |
| MapCodecs.Write | src/main/java/de/natrox/conversionbus/convert/MapConverterImpl.java:73-79 | the method computes `WriteAnswer` |
| MapCodecs.ReadKeepsOrder | src/main/java/de/natrox/conversionbus/convert/MapConverterImpl.java:61-66 | with distinct converted keys, the map read holds the converted entries in source order |
| MapCodecs.WriteThenRead | src/main/java/de/natrox/conversionbus/convert/MapConverterImpl.java:59-79 | reading what `write` produced gives the map back when the converters round-trip on its entries |
| MapCodecs.DeserializeAnswer | src/main/java/de/natrox/serialize/MapDeserializer.java:30-59 | a non-map becomes an empty map; for a map, a raw type, the wrong argument count or a missing default deserializer is a SerializeException; otherwise success exactly when every entry deserializes against its type |
| MapCodecs.Deserialize | src/main/java/de/natrox/serialize/MapDeserializer.java:31-59 | the method computes `DeserializeAnswer` |
| CollectionCodecs.CreateConverter | src/main/java/de/natrox/conversion/convert/AbstractCollectionConverter.java:40-49 | `create`: a raw type is an IllegalArgumentException; a failing element lookup throws its exception; otherwise the converter for the first type argument |
| CollectionCodecs.ReadAnswer | src/main/java/de/natrox/conversion/convert/AbstractCollectionConverter.java:51-64 | `read` of a collection converts every element, of anything else that single value; it succeeds exactly when those conversions do, giving a set of distinct elements or a list by the kind |
| CollectionCodecs.Read | src/main/java/de/natrox/conversion/convert/AbstractCollectionConverter.java:52-64 | the method computes `ReadAnswer` |
| CollectionCodecs.WriteAnswer | src/main/java/de/natrox/conversion/convert/AbstractCollectionConverter.java:66-73 | `write` succeeds exactly when every element converts and holds the converted elements |
| CollectionCodecs.Write | src/main/java/de/natrox/conversion/convert/AbstractCollectionConverter.java:67-73 | the method computes `WriteAnswer` |
| CollectionCodecs.ListReadKeepsOrder | src/main/java/de/natrox/conversion/convert/AbstractCollectionConverter.java:53-58 | a list read holds, position by position, the converted elements |
| CollectionCodecs.ListWriteThenRead | src/main/java/de/natrox/conversion/convert/AbstractCollectionConverter.java:51-73 | for lists, reading what `write` produced gives the elements back when the element converter round-trips on them |
| CollectionCodecs.FillFrom | src/main/java/de/natrox/serialize/parse/AbstractCollectionParser.java:51-53 | filling the container stops at the first element that fails to parse |
| CollectionCodecs.FillContainer | src/main/java/de/natrox/serialize/parse/AbstractCollectionParser.java:50-53 | the index loop computes `FillFrom` |
| CollectionCodecs.CollectionParseAnswer | src/main/java/de/natrox/serialize/parse/AbstractCollectionParser.java:40-60 | `parse`: an element-type failure is thrown, a missing element parser is a SerializeException, otherwise a new container filled from the collection's elements or from the single value |
| CollectionCodecs.CollectionParse | src/main/java/de/natrox/serialize/parse/AbstractCollectionParser.java:41-60 | the method computes `CollectionParseAnswer` |
| CollectionCodecs.ListChildParseAnswer | src/main/java/de/natrox/serialize/parse/AbstractListChildParser.java:38-56 | `parse` looks up the parser for the type itself; missing is a SerializeException, otherwise a container filled from a list's elements or the single value |
| CollectionCodecs.ListChildParse | src/main/java/de/natrox/serialize/parse/AbstractListChildParser.java:39-56 | the method computes `ListChildParseAnswer` |
| CollectionCodecs.DefaultElementType | src/main/java/de/natrox/serialize/parse/AbstractListChildParser.java:58-60 | the default `elementType` throws IllegalStateException |
| CollectionCodecs.DefaultCreateNew | src/main/java/de/natrox/serialize/parse/AbstractListChildParser.java:62-64 | the default `createNew` throws IllegalStateException |
| CollectionCodecs.ListChildWithDefaultCreateNewFails | src/main/java/de/natrox/serialize/parse/AbstractListChildParser.java:38-64 | a subclass that keeps the default `createNew` fails every parse: SerializeException when no parser exists, IllegalStateException otherwise |
| CollectionCodecs.RecordedCalls | src/main/java/de/natrox/serialize/parse/AbstractCollectionParser.java:51-53 | `deserializeSingle` is called once per element, with indices counting up from the start and the parsed element |
| CollectionCodecs.CollectionParseCallsInOrder | src/main/java/de/natrox/serialize/parse/AbstractCollectionParser.java:48-58 | a collection calls `deserializeSingle(i, …)` with each parsed element in order; a single value calls it once with index 0 |
| CollectionCodecs.ListChildParseCallsInOrder | src/main/java/de/natrox/serialize/parse/AbstractListChildParser.java:45-55 | a list calls `deserializeSingle(i, …)` with each parsed element in order; any other value calls it once with index 0 |
| CollectionCodecs.SetElementType | src/main/java/de/natrox/serialize/parse/collection/SetParserImpl.java:34-40 | a raw container type is a SerializeException; otherwise the first type argument |
| CollectionCodecs.SetFiller | src/main/java/de/natrox/serialize/parse/collection/SetParserImpl.java:42-58 | a set parser creates an empty set and adds each parsed element |
| CollectionCodecs.SetFillIsAddAll | src/main/java/de/natrox/serialize/parse/collection/SetParserImpl.java:56-58 | filling a set is adding every parsed element in turn |
| CollectionCodecs.SetParseCollapsesDuplicates | src/main/java/de/natrox/serialize/parse/collection/SetParserImpl.java:28-58 | a parsed set holds distinct elements, namely the parsed elements |
| CollectionCodecs.FirstThrow | src/main/java/de/natrox/serialize/parse/collection/SetParserImpl.java:48-52 | `forEachElement` throws exactly when the action throws on some element, and then the exception of the first such element |
| CollectionCodecs.ForEachElement | src/main/java/de/natrox/serialize/parse/collection/SetParserImpl.java:49-51 | the element loop computes `FirstThrow` |
| MapToMap.GetParameterTypes | src/main/java/org/conelux/conversion/converter/MapToMapConverter.java:93-104 | the two type arguments of a parameterised type with exactly two, otherwise null |
| MapToMap.MatchesIff | src/main/java/org/conelux/conversion/converter/MapToMapConverter.java:40-51 | `matches` holds exactly when both types have two arguments and the bus converts key type to key type and value type to value type |
| MapToMap.TargetEntriesFrom | src/main/java/org/conelux/conversion/converter/MapToMapConverter.java:68-78 | the entry loop produces one target entry per source entry, after those already collected |
| MapToMap.PutAll | src/main/java/org/conelux/conversion/converter/MapToMapConverter.java:83-87 | putting the entries into the new map gives exactly their keys, and the entries themselves when the keys are distinct |
| MapToMap.ConvertAsWritten | src/main/java/org/conelux/conversion/converter/MapToMapConverter.java:53-91 | as written, the value is converted from the converted key with the key's source type; a fresh map still has distinct keys |
| MapToMap.Convert | src/main/java/org/conelux/conversion/converter/MapToMapConverter.java:53-91 | corrected: an empty source is returned itself when it is already an instance of the target, else a fresh empty map; a non-empty source with a type lacking two arguments is a NullPointerException; a fresh map has distinct keys, and the source itself comes back only when it is an instance |
| MapToMap.TargetEntriesAreConversions | src/main/java/org/conelux/conversion/converter/MapToMapConverter.java:68-74 | every collected target entry is the conversion of the corresponding source key and value |
| MapToMap.FreshMapHoldsConvertedEntries | src/main/java/org/conelux/conversion/converter/MapToMapConverter.java:64-89 | with the intended `ValueStep`, when the converted keys are distinct, a fresh map holds, in order, each source entry converted |
| MapToMap.CollectedEntries | src/main/java/org/conelux/conversion/converter/MapToMapConverter.java:66-78 | collected entries correspond one to one to the source entries, with distinct keys when conversion keeps keys apart |
| MapToMap.IdentityConversionKeepsSource | src/main/java/org/conelux/conversion/converter/MapToMapConverter.java:58-81 | when every key and value converts to itself and the source is already an instance, the source itself is returned |
| MapToMap.IdentityEntries | src/main/java/org/conelux/conversion/converter/MapToMapConverter.java:68-78 | under conversions that change nothing the collected entries are the source entries |
| MapToMap.ConvertAsWrittenLosesValues | src/main/java/org/conelux/conversion/converter/MapToMapConverter.java:71-72 | example: with identity conversions, the code as written (`ValueStepAsWritten` converts the target key with the key's source type) turns `{1: 2}` into `{1: 1}`, while the intended conversion (`ValueStep` converts the source value) returns the source |
| MapToMap.CollectTargetEntries | src/main/java/org/conelux/conversion/converter/MapToMapConverter.java:59-78 | the loop computes the target entries, and `copyRequired` ends up true exactly when the source is not an instance or some entry changed |
| MapToMap.FillTargetMap | src/main/java/org/conelux/conversion/converter/MapToMapConverter.java:83-87 | the loop computes `PutAll` |
| MapToMap.ConvertMap | src/main/java/org/conelux/conversion/converter/MapToMapConverter.java:53-91 | the method computes `Convert` |
| AeroCheck.NotNull | core/src/main/java/org/aero/common/core/validate/Check.java:36-41 | a null object fails with IllegalArgumentException carrying the reason, anything else passes |
| AeroCheck.NotNullFormat | core/src/main/java/org/aero/common/core/validate/Check.java:45-50 | as `notNull`, the message formatted from the reason and the arguments |
| AeroCheck.ArgCondition | core/src/main/java/org/aero/common/core/validate/Check.java:54-59 | fails with IllegalArgumentException exactly when the condition holds |
| AeroCheck.ArgConditionFormat | core/src/main/java/org/aero/common/core/validate/Check.java:63-68 | as `argCondition`, with the formatted message |
| AeroCheck.Fail | core/src/main/java/org/aero/common/core/validate/Check.java:72-74 | always an IllegalArgumentException with the reason |
| AeroCheck.StateCondition | core/src/main/java/org/aero/common/core/validate/Check.java:78-83 | fails with IllegalStateException exactly when the condition holds |
| AeroCheck.StateConditionFormat | core/src/main/java/org/aero/common/core/validate/Check.java:87-92 | as `stateCondition`, with the formatted message |
| AeroCheck.NotNullIsArgCondition | core/src/main/java/org/aero/common/core/validate/Check.java:36-59 | the null check is the argument check on `object == null` |
| NatroxCheck.NotNull | src/main/java/de/natrox/common/validate/Check.java:36-40 | a null object fails with NullPointerException carrying the reason |
| NatroxCheck.NotNullFormat | src/main/java/de/natrox/common/validate/Check.java:43-47 | as `notNull`, with the formatted message |
| NatroxCheck.ArgCondition | src/main/java/de/natrox/common/validate/Check.java:50-54 | fails with IllegalArgumentException exactly when the condition holds |
| NatroxCheck.ArgConditionFormat | src/main/java/de/natrox/common/validate/Check.java:57-61 | as `argCondition`, with the formatted message |
| NatroxCheck.Fail | src/main/java/de/natrox/common/validate/Check.java:64-66 | always an IllegalArgumentException with the reason |
| NatroxCheck.StateCondition | src/main/java/de/natrox/common/validate/Check.java:69-73 | fails with IllegalStateException exactly when the condition holds |
| NatroxCheck.StateConditionFormat | src/main/java/de/natrox/common/validate/Check.java:76-80 | as `stateCondition`, with the formatted message |
| NatroxCheck.AgreesWithAeroCheck | src/main/java/de/natrox/common/validate/Check.java:36-80 | both classes agree on every check except the null check, which rejects the same objects with a NullPointerException instead of an IllegalArgumentException |
| Counters.Step | src/main/java/org/conelux/common/counter/CounterImpl.java:72 | the step is 1 exactly when the stop count lies above the start count, -1 otherwise |
| Counters.PauseState | src/main/java/org/conelux/common/counter/CounterImpl.java:93-98 | only a running counter pauses, and only the status changes |
| Counters.ResumeState | src/main/java/org/conelux/common/counter/CounterImpl.java:101-106 | only a paused counter resumes, and only the status changes |
| Counters.CancelState | src/main/java/org/conelux/common/counter/CounterImpl.java:193-204 | the counter idles; a present task is cancelled and cleared, and only then the callback runs |
| Counters.StopState | src/main/java/org/conelux/common/counter/CounterImpl.java:109-114 | an idling counter is left alone; otherwise it is cancelled with the cancel handler |
| Counters.TickedCountIsDistance | src/main/java/org/conelux/common/counter/CounterImpl.java:127-129 | away from overflow the ticked count is the distance moved from the start in the counting direction |
| Counters.Ticks | src/main/java/org/conelux/common/counter/CounterImpl.java:172-177 | `n` calls of the tick handler |
| ConeluxCounter.Create | src/main/java/org/conelux/common/counter/CounterImpl.java:47-73 | a null executor or tick unit, or a tick not positive, is an IllegalArgumentException; otherwise the configuration |
| ConeluxCounter.TickState | src/main/java/org/conelux/common/counter/CounterImpl.java:206-220 | a counter that is not running ignores the tick; the task is present exactly while the counter is active |
| ConeluxCounter.StartState | src/main/java/org/conelux/common/counter/CounterImpl.java:76-90 | starting with a task present is an IllegalStateException; otherwise the start handler runs first |
| ConeluxCounter.StartLandsOnStartCount | src/main/java/org/conelux/common/counter/CounterImpl.java:76-90 | `start` sets the count one step before the start and ticks once: the count is the start count, and when start and stop coincide the run has already finished |
| ConeluxCounter.ReachedIff | src/main/java/org/conelux/common/counter/CounterImpl.java:216 | away from overflow, the finish test holds exactly when the count has reached the stop count in the counting direction |
| ConeluxCounter.TickFrom | src/main/java/org/conelux/common/counter/CounterImpl.java:206-220 | a tick before the stop moves the count one step and calls the tick handler; reaching the stop also calls the finish handler and idles the counter |
| ConeluxCounter.CountsTowardsStop | src/main/java/org/conelux/common/counter/CounterImpl.java:206-220 | until the stop, `k` ticks move the count `k` steps and call the tick handler `k` times |
| ConeluxCounter.FinishesOnStop | src/main/java/org/conelux/common/counter/CounterImpl.java:206-220 | the tick that reaches the stop count finishes the run |
| ConeluxCounter.WholeRun | src/main/java/org/conelux/common/counter/CounterImpl.java:76-220 | a whole run: start, one tick per unit between start and stop, then finish; the counter ends idle on the stop count |
| ConeluxCounter.OperationsKeepTaskWhileActive | src/main/java/org/conelux/common/counter/CounterImpl.java:76-220 | every operation keeps the task present exactly while the counter is active, and `start` succeeds exactly on an idle counter |
| ConeluxCounter.CounterImpl.constructor | src/main/java/org/conelux/common/counter/CounterImpl.java:47-73 | a new counter idles on count 0 without a task |
| ConeluxCounter.CounterImpl.Start | src/main/java/org/conelux/common/counter/CounterImpl.java:76-90 | `start` throws IllegalStateException with a task present, otherwise takes the state `StartState` gives |
| ConeluxCounter.CounterImpl.Pause | src/main/java/org/conelux/common/counter/CounterImpl.java:93-98 | `pause` takes the state `PauseState` gives |
| ConeluxCounter.CounterImpl.Resume | src/main/java/org/conelux/common/counter/CounterImpl.java:101-106 | `resume` takes the state `ResumeState` gives |
| ConeluxCounter.CounterImpl.Stop | src/main/java/org/conelux/common/counter/CounterImpl.java:109-114 | `stop` takes the state `StopState` gives |
| ConeluxCounter.CounterImpl.Cancel | src/main/java/org/conelux/common/counter/CounterImpl.java:193-204 | `cancel` takes the state `CancelState` gives |
| ConeluxCounter.CounterImpl.Tick | src/main/java/org/conelux/common/counter/CounterImpl.java:206-220 | `tick` takes the state `TickState` gives |
| ConeluxCounter.CounterImpl.SetCurrentCount | src/main/java/org/conelux/common/counter/CounterImpl.java:137-139 | `setCurrentCount` changes the count and nothing else |
| ConeluxCounter.CounterImpl.TickedCount | src/main/java/org/conelux/common/counter/CounterImpl.java:127-129 | `tickedCount` is always a `long`, and away from overflow it is how far the count has moved from the start count in the counting direction |
| ConeluxCounter.Build | src/main/java/org/conelux/common/counter/CounterImpl.java:286-298 | `build` fails as `Create` fails, otherwise gives a new idle counter with that configuration |
| ConeluxCoreCounter.Create | core/src/main/java/org/conelux/common/core/counter/CounterImpl.java:47-73 | a null tick unit or a tick not positive is an IllegalArgumentException; otherwise the configuration |
| ConeluxCoreCounter.TickState | core/src/main/java/org/conelux/common/core/counter/CounterImpl.java:206-219 | a counter that is not running ignores the tick; the task is present exactly while the counter is active |
| ConeluxCoreCounter.StartState | core/src/main/java/org/conelux/common/core/counter/CounterImpl.java:76-90 | starting with a task present is an IllegalStateException; otherwise the start handler runs first |
| ConeluxCoreCounter.StartLandsOnStartCount | core/src/main/java/org/conelux/common/core/counter/CounterImpl.java:76-90 | `start` sets the count one step before the start and ticks once, landing on the start count |
| ConeluxCoreCounter.BelowIff | core/src/main/java/org/conelux/common/core/counter/CounterImpl.java:211 | away from overflow, the comparison in `long` arithmetic holds exactly when the count lies before the stop count |
| ConeluxCoreCounter.TickFrom | core/src/main/java/org/conelux/common/core/counter/CounterImpl.java:211-215 | a tick before the stop count moves one step and calls the tick handler |
| ConeluxCoreCounter.CountsTowardsStop | core/src/main/java/org/conelux/common/core/counter/CounterImpl.java:206-219 | up to the stop, `k` ticks move the count `k` steps and call the tick handler `k` times |
| ConeluxCoreCounter.FinishesAfterStop | core/src/main/java/org/conelux/common/core/counter/CounterImpl.java:206-219 | the tick after the one that reaches the stop count finishes the run |
| ConeluxCoreCounter.WholeRun | core/src/main/java/org/conelux/common/core/counter/CounterImpl.java:76-219 | a whole run: start, one tick per unit plus the start tick, then finish one tick after the stop is reached; the counter ends idle on the stop count |
| ConeluxCoreCounter.OperationsKeepTaskWhileActive | core/src/main/java/org/conelux/common/core/counter/CounterImpl.java:76-219 | every operation keeps the task present exactly while the counter is active, and `start` succeeds exactly on an idle counter |
| ConeluxCoreCounter.CounterImpl.constructor | core/src/main/java/org/conelux/common/core/counter/CounterImpl.java:47-73 | a new counter idles on count 0 without a task |
| ConeluxCoreCounter.CounterImpl.Start | core/src/main/java/org/conelux/common/core/counter/CounterImpl.java:76-90 | `start` throws IllegalStateException with a task present, otherwise takes the state `StartState` gives |
| ConeluxCoreCounter.CounterImpl.Pause | core/src/main/java/org/conelux/common/core/counter/CounterImpl.java:93-98 | `pause` takes the state `PauseState` gives |
| ConeluxCoreCounter.CounterImpl.Resume | core/src/main/java/org/conelux/common/core/counter/CounterImpl.java:101-106 | `resume` takes the state `ResumeState` gives |
| ConeluxCoreCounter.CounterImpl.Stop | core/src/main/java/org/conelux/common/core/counter/CounterImpl.java:109-114 | `stop` takes the state `StopState` gives |
| ConeluxCoreCounter.CounterImpl.Cancel | core/src/main/java/org/conelux/common/core/counter/CounterImpl.java:193-204 | `cancel` takes the state `CancelState` gives |
| ConeluxCoreCounter.CounterImpl.Tick | core/src/main/java/org/conelux/common/core/counter/CounterImpl.java:206-219 | `tick` takes the state `TickState` gives |
| ConeluxCoreCounter.CounterImpl.SetCurrentCount | core/src/main/java/org/conelux/common/core/counter/CounterImpl.java:137-139 | `setCurrentCount` changes the count and nothing else |
| ConeluxCoreCounter.CounterImpl.TickedCount | core/src/main/java/org/conelux/common/core/counter/CounterImpl.java:127-129 | `tickedCount` is always a `long`, and away from overflow it is how far the count has moved from the start count in the counting direction |
| ConeluxCoreCounter.Build | core/src/main/java/org/conelux/common/core/counter/CounterImpl.java:284-296 | `build` fails as `Create` fails, otherwise gives a new idle counter with that configuration |
| NatroxCounter.Create | src/main/java/de/natrox/common/counter/CounterImpl.java:47-72 | a null scheduler or tick unit is a NullPointerException; a tick not positive an IllegalArgumentException; otherwise the configuration |
| NatroxCounter.TickState | src/main/java/de/natrox/common/counter/CounterImpl.java:196-209 | a counter that is not running ignores the tick; when a tick removes the task the count is one step past the stop and the finish handler was the last call |
| NatroxCounter.StartState | src/main/java/de/natrox/common/counter/CounterImpl.java:75-89 | starting with a task present is an IllegalStateException; otherwise the counter runs one step before the start count, having called only the start handler |
| NatroxCounter.NotPastIff | src/main/java/de/natrox/common/counter/CounterImpl.java:200 | away from overflow, the tick test holds exactly when the count has not passed the stop count |
| NatroxCounter.TickFrom | src/main/java/de/natrox/common/counter/CounterImpl.java:196-209 | a tick up to the stop count moves one step and calls the tick handler; the tick from the stop count itself also finishes |
| NatroxCounter.CountsTowardsStop | src/main/java/de/natrox/common/counter/CounterImpl.java:196-209 | `k` ticks move the count `k` steps from one step before the start and call the tick handler `k` times |
| NatroxCounter.WholeRun | src/main/java/de/natrox/common/counter/CounterImpl.java:75-209 | a whole run takes two ticks more than the distance and ends idle one step past the stop count |
| NatroxCounter.OperationsKeepTaskWhileActive | src/main/java/de/natrox/common/counter/CounterImpl.java:75-209 | every operation keeps the task present exactly while the counter is active, and `start` succeeds exactly on an idle counter |
| NatroxCounter.CounterImpl.constructor | src/main/java/de/natrox/common/counter/CounterImpl.java:47-72 | a new counter idles on count 0 without a task |
| NatroxCounter.CounterImpl.Start | src/main/java/de/natrox/common/counter/CounterImpl.java:75-89 | `start` throws IllegalStateException with a task present, otherwise takes the state `StartState` gives |
| NatroxCounter.CounterImpl.Pause | src/main/java/de/natrox/common/counter/CounterImpl.java:92-96 | `pause` takes the state `PauseState` gives |
| NatroxCounter.CounterImpl.Resume | src/main/java/de/natrox/common/counter/CounterImpl.java:99-103 | `resume` takes the state `ResumeState` gives |
| NatroxCounter.CounterImpl.Stop | src/main/java/de/natrox/common/counter/CounterImpl.java:106-110 | `stop` takes the state `StopState` gives |
| NatroxCounter.CounterImpl.Cancel | src/main/java/de/natrox/common/counter/CounterImpl.java:185-194 | `cancel` takes the state `CancelState` gives |
| NatroxCounter.CounterImpl.Tick | src/main/java/de/natrox/common/counter/CounterImpl.java:196-209 | `tick` takes the state `TickState` gives |
| NatroxCounter.CounterImpl.SetCurrentCount | src/main/java/de/natrox/common/counter/CounterImpl.java:133-135 | `currentCount(long)` changes the count and nothing else |
| NatroxCounter.CounterImpl.TickedTime | src/main/java/de/natrox/common/counter/CounterImpl.java:123-125 | `tickedTime` is always a `long`, and away from overflow it is how far the count has moved from the start count in the counting direction |
| NatroxCounter.Build | src/main/java/de/natrox/common/counter/CounterImpl.java:47-72 | construction fails as `Create` fails, otherwise gives a new idle counter with that configuration |
| CountingRunnables.Allowed | task/src/main/java/org/aero/common/task/count/AbstractCountingRunnable.java:42 | the number of runs whose condition held, at most the number of runs |
| CountingRunnables.AbstractRun | task/src/main/java/org/aero/common/task/count/AbstractCountingRunnable.java:41-46 | one run: the count grows by the step exactly when the condition holds, and the callback runs every time |
| CountingRunnables.AbstractRunsCount | task/src/main/java/org/aero/common/task/count/AbstractCountingRunnable.java:41-46 | after a series of runs the count has grown by the step once per run whose condition held, in `long` arithmetic, and the callback ran once per run |
| CountingRunnables.AbstractCountingRunnable.constructor | task/src/main/java/org/aero/common/task/count/AbstractCountingRunnable.java:32-37 | a new runnable holds the initial count and has run no callback |
| CountingRunnables.AbstractCountingRunnable.Run | task/src/main/java/org/aero/common/task/count/AbstractCountingRunnable.java:41-46 | `run` takes the state `AbstractRun` gives |
| CountingRunnables.AbstractCountingRunnable.SetCount | task/src/main/java/org/aero/common/task/count/AbstractCountingRunnable.java:59-61 | `count(long)` sets the count and nothing else |
| CountingRunnables.Build | task/src/main/java/org/aero/common/task/CountingRunnable.java:35-40 | a built runnable holds the initial count, with no callback call yet |
| CountingRunnables.RunOnce | task/src/main/java/org/aero/common/task/CountingRunnable.java:49-56 | one run: a holding condition adds the step and skips the callback; a failing one leaves the count and calls the callback with `false` |
| CountingRunnables.Falses | task/src/main/java/org/aero/common/task/CountingRunnable.java:55 | `n` callback calls, each with `false` |
| CountingRunnables.RunAllCounts | task/src/main/java/org/aero/common/task/CountingRunnable.java:49-56 | after a series of runs the count has grown by the step once per holding condition, and the callback was called with `false` once per failing one |
| CountingRunnables.SameCount | task/src/main/java/org/aero/common/task/CountingRunnable.java:49-56 | both runnables count the same way; they differ only in when the callback runs |
| CountingRunnables.CountingRunnable.constructor | task/src/main/java/org/aero/common/task/CountingRunnable.java:35-40 | a new runnable is in the state `Build` gives |
| CountingRunnables.CountingRunnable.Run | task/src/main/java/org/aero/common/task/CountingRunnable.java:49-56 | `run` takes the state `RunOnce` gives |
| CountingRunnables.CountingRunnable.SetCount | task/src/main/java/org/aero/common/task/CountingRunnable.java:69-71 | `count(long)` sets the count and nothing else |
| AeroCounter.Create | task/src/main/java/org/aero/common/task/counter/CounterImpl.java:47-62 | a null tick unit or a tick not positive is an IllegalArgumentException; otherwise the configuration |
| AeroCounter.StartCount | task/src/main/java/org/aero/common/task/counter/CounterImpl.java:60-61 | the stored start count is the builder's start count one step back |
| AeroCounter.StartState | task/src/main/java/org/aero/common/task/counter/CounterImpl.java:65-84 | starting with a task present is an IllegalStateException; otherwise the counter runs on the stored start count having called only the start handler |
| AeroCounter.FinishCheckState | task/src/main/java/org/aero/common/task/counter/CounterImpl.java:209-216 | `tick`: once the count lies beyond the stop count the finish handler runs and the counter is cancelled without the cancel handler; otherwise nothing changes |
| AeroCounter.RunState | task/src/main/java/org/aero/common/task/count/AbstractCountingRunnable.java:41-46 | one run of the scheduled runnable keeps the task present exactly while the counter is active |
| AeroCounter.BeyondIff | task/src/main/java/org/aero/common/task/counter/CounterImpl.java:210 | away from overflow, the finish test holds exactly when the count is at least one step past the stop count |
| AeroCounter.RunFrom | task/src/main/java/org/aero/common/task/counter/CounterImpl.java:200-216 | a run before the stop count moves one step and calls the tick handler; the run from the stop count also finishes |
| AeroCounter.CountsTowardsStop | task/src/main/java/org/aero/common/task/counter/CounterImpl.java:200-216 | `k` runs move the count `k` steps from the stored start count and call the tick handler `k` times |
| AeroCounter.WholeRun | task/src/main/java/org/aero/common/task/counter/CounterImpl.java:65-216 | a whole run takes two runs more than the distance and ends idle one step past the stop count |
| AeroCounter.TickedCount | task/src/main/java/org/aero/common/task/counter/CounterImpl.java:121-123 | `tickedCount` before the first start is a NullPointerException |
| AeroCounter.TickedCountIsDifference | task/src/main/java/org/aero/common/task/counter/CounterImpl.java:121-123 | away from overflow the ticked count is how far the count has moved from the stored start count |
| AeroCounter.LifeCycle | task/src/main/java/org/aero/common/task/counter/CounterImpl.java:65-108 | start, pause, resume and stop pass through running, paused, running and idle, calling the start and then the cancel handler; a second start fails and a start after the stop succeeds |
| AeroCounter.CounterImpl.constructor | task/src/main/java/org/aero/common/task/counter/CounterImpl.java:47-62 | a new counter idles without a runnable or a task |
| AeroCounter.CounterImpl.Start | task/src/main/java/org/aero/common/task/counter/CounterImpl.java:65-84 | `start` throws IllegalStateException with a task present, otherwise builds a fresh runnable and takes the state `StartState` gives |
| AeroCounter.CounterImpl.Pause | task/src/main/java/org/aero/common/task/counter/CounterImpl.java:87-92 | `pause` takes the state `PauseState` gives |
| AeroCounter.CounterImpl.Resume | task/src/main/java/org/aero/common/task/counter/CounterImpl.java:95-100 | `resume` takes the state `ResumeState` gives |
| AeroCounter.CounterImpl.Stop | task/src/main/java/org/aero/common/task/counter/CounterImpl.java:103-108 | `stop` takes the state `StopState` gives |
| AeroCounter.CounterImpl.Cancel | task/src/main/java/org/aero/common/task/counter/CounterImpl.java:187-198 | `cancel` takes the state `CancelState` gives |
| AeroCounter.CounterImpl.Condition | task/src/main/java/org/aero/common/task/counter/CounterImpl.java:200-207 | `condition` holds exactly while the counter runs, and then calls the tick handler |
| AeroCounter.CounterImpl.FinishCheck | task/src/main/java/org/aero/common/task/counter/CounterImpl.java:209-216 | `tick` takes the state `FinishCheckState` gives |
| AeroCounter.CounterImpl.Run | task/src/main/java/org/aero/common/task/count/AbstractCountingRunnable.java:41-46 | the scheduled runnable's `run` takes the state `RunState` gives |
| AeroCounter.CounterImpl.CurrentCount | task/src/main/java/org/aero/common/task/counter/CounterImpl.java:126-128 | `currentCount` is the runnable's count, a NullPointerException before the first start |
| AeroCounter.CounterImpl.SetCurrentCount | task/src/main/java/org/aero/common/task/counter/CounterImpl.java:131-133 | `currentCount(long)` sets the runnable's count, a NullPointerException before the first start |
| AeroCounter.Build | task/src/main/java/org/aero/common/task/counter/CounterImpl.java:281-283 | `build` fails as `Create` fails, otherwise gives a new idle counter with that configuration |
| NatroxCountdown.Create | src/main/java/de/natrox/common/counter/Countdown.java:39-48 | a null scheduler or tick unit is a NullPointerException; otherwise the setup |
| NatroxCountdown.StartState | src/main/java/de/natrox/common/counter/Countdown.java:51-65 | starting with a task present is an IllegalStateException; otherwise the countdown runs one above the start time, having called the start hook |
| NatroxCountdown.StopCountdownState | src/main/java/de/natrox/common/counter/Countdown.java:80-83 | `stop` idles a paused countdown only; a running one goes on running and keeps its task |
| NatroxCountdown.TickBy | src/main/java/de/natrox/common/counter/Countdown.java:155-170 | a countdown not running ignores the tick, and so does one already below the stop time |
| NatroxCountdown.AsWrittenSkipsStop | src/main/java/de/natrox/common/counter/Countdown.java:158-166 | example, as written (`TickStateAsWritten` subtracts the tick period): a countdown from 10 to 0 ticking every 3 goes 11, 8, 5, 2, -1 and then stays running below the stop time for ever |
| NatroxCountdown.StaysBelowStop | src/main/java/de/natrox/common/counter/Countdown.java:158-166 | as written, a running countdown below the stop time never changes again |
| NatroxCountdown.CountsDown | src/main/java/de/natrox/common/counter/Countdown.java:155-161 | corrected (`TickState` subtracts one), `k` ticks take the time down by `k` and call the tick hook `k` times |
| NatroxCountdown.WholeRun | src/main/java/de/natrox/common/counter/Countdown.java:51-170 | corrected, a whole run from start to stop time takes one tick per unit plus one and ends idle on the stop time, calling the finish hook once |
| NatroxCountdown.StopKeepsTask | src/main/java/de/natrox/common/counter/Countdown.java:80-101 | `stop` never cancels the task, so a later `start` still fails with IllegalStateException |
| NatroxCountdown.Countdown.constructor | src/main/java/de/natrox/common/counter/Countdown.java:39-48 | a new countdown idles without a task |
| NatroxCountdown.Countdown.Start | src/main/java/de/natrox/common/counter/Countdown.java:51-65 | `start` throws IllegalStateException with a task present, otherwise takes the state `StartState` gives |
| NatroxCountdown.Countdown.Pause | src/main/java/de/natrox/common/counter/Countdown.java:68-71 | `pause` takes the state `PauseState` gives |
| NatroxCountdown.Countdown.Resume | src/main/java/de/natrox/common/counter/Countdown.java:74-77 | `resume` takes the state `ResumeState` gives |
| NatroxCountdown.Countdown.Stop | src/main/java/de/natrox/common/counter/Countdown.java:80-83 | `stop` takes the state `StopCountdownState` gives |
| NatroxCountdown.Countdown.Cancel | src/main/java/de/natrox/common/counter/Countdown.java:95-101 | `cancel` idles and clears the task without a hook call |
| NatroxCountdown.Countdown.Tick | src/main/java/de/natrox/common/counter/Countdown.java:155-170 | `tick` takes the corrected state `TickState` gives |
| NatroxCountdown.Countdown.SetCurrentTime | src/main/java/de/natrox/common/counter/Countdown.java:111-113 | `currentTime(long)` changes the time and nothing else |
| NotionCountdown.StartState | src/main/java/de/notion/common/counter/Countdown.java:33-60 | with a task present `start` is an IllegalStateException that changes nothing; otherwise `onStart` runs and the time is set one above the start time in `int` arithmetic; a period that is not positive is then an IllegalArgumentException with no task and the flags as they were; any other period leaves the countdown running, unpaused, with a task |
| NotionCountdown.CancelState | src/main/java/de/notion/common/counter/Countdown.java:82-87 | `cancel` stops running and clears the task, leaving the rest |
| NotionCountdown.TickState | src/main/java/de/notion/common/counter/Countdown.java:41-55 | a paused or non-running countdown ignores the tick |
| NotionCountdown.PauseState | src/main/java/de/notion/common/counter/Countdown.java:63-66 | `pause` sets paused and not running, nothing else |
| NotionCountdown.ResumeState | src/main/java/de/notion/common/counter/Countdown.java:69-72 | `resume` clears paused and sets running, nothing else |
| NotionCountdown.StopState | src/main/java/de/notion/common/counter/Countdown.java:75-80 | `stop` acts only while running: it cancels and then calls `onCancel` |
| NotionCountdown.CountsDown | src/main/java/de/notion/common/counter/Countdown.java:44-47 | `k` ticks take the time down by `k` and call `onTick` `k` times |
| NotionCountdown.WholeRun | src/main/java/de/notion/common/counter/Countdown.java:33-60 | with a positive period, a whole run ends on the stop time, not running and without a task, having called `onStart`, one `onTick` per unit plus one, and `onFinish`; it can then be started again |
| NotionCountdown.RejectedPeriodRetries | src/main/java/de/notion/common/counter/Countdown.java:38-56 | with a period that is not positive every start fails alike with IllegalArgumentException, each attempt calling `onStart` again and none leaving a task |
| NotionCountdown.PauseAndResume | src/main/java/de/notion/common/counter/Countdown.java:63-80 | a paused countdown ignores ticks and `stop`; resuming a running countdown after pausing it restores it |
| NotionCountdown.ResumeBeforeStart | src/main/java/de/notion/common/counter/Countdown.java:69-80 | `resume` before any `start` makes the countdown running without a task, and `stop` then calls `onCancel` |
| NotionCountdown.Countdown.constructor | src/main/java/de/notion/common/counter/Countdown.java:24-30 | a new countdown holds its times and has no task |
| NotionCountdown.Countdown.Start | src/main/java/de/notion/common/counter/Countdown.java:33-60 | `start` throws what `StartState` gives (IllegalStateException with a task present, IllegalArgumentException for a period that is not positive) and takes the state it gives |
| NotionCountdown.Countdown.Pause | src/main/java/de/notion/common/counter/Countdown.java:63-66 | `pause` takes the state `PauseState` gives |
| NotionCountdown.Countdown.Resume | src/main/java/de/notion/common/counter/Countdown.java:69-72 | `resume` takes the state `ResumeState` gives |
| NotionCountdown.Countdown.Stop | src/main/java/de/notion/common/counter/Countdown.java:75-80 | `stop` takes the state `StopState` gives |
| NotionCountdown.Countdown.Cancel | src/main/java/de/notion/common/counter/Countdown.java:82-87 | `cancel` takes the state `CancelState` gives |
| NotionCountdown.Countdown.Tick | src/main/java/de/notion/common/counter/Countdown.java:41-55 | the scheduled task takes the state `TickState` gives |
| NotionCountdown.Countdown.SetCurrentTime | src/main/java/de/notion/common/counter/Countdown.java:112-114 | `setCurrentTime` changes the time and nothing else |
| SchedulerTask.Status | task/src/main/java/org/aero/common/task/scheduler/TaskImpl.java:43-53 | FINISHED exactly when done; CANCELLED exactly when not done and not alive; SCHEDULED otherwise |
| SchedulerTask.CancelState | task/src/main/java/org/aero/common/task/scheduler/TaskImpl.java:61-63 | `cancel` makes the task not alive and leaves `done` |
| SchedulerTask.DoneState | task/src/main/java/org/aero/common/task/scheduler/TaskImpl.java:65-68 | `done` marks the task done and cancels it |
| SchedulerTask.Lifecycle | task/src/main/java/org/aero/common/task/scheduler/TaskImpl.java:29-68 | a new task is SCHEDULED; cancelling gives CANCELLED unless already FINISHED; once done it stays FINISHED whatever follows |
| SchedulerTask.Delay | task/src/main/java/org/aero/common/task/scheduler/TaskImpl.java:87-91 | `delay(null)` is an IllegalArgumentException; otherwise only the delay changes |
| SchedulerTask.Repeat | task/src/main/java/org/aero/common/task/scheduler/TaskImpl.java:94-98 | `repeat(null)` is an IllegalArgumentException; otherwise only the repeat schedule changes |
| SchedulerTask.Schedule | task/src/main/java/org/aero/common/task/scheduler/TaskImpl.java:101-117 | the submitted supplier starts on its first call with the builder's delay and repeat schedules and no run yet |
| SchedulerTask.DoneCallbackIgnored | task/src/main/java/org/aero/common/task/scheduler/TaskImpl.java:101-117 | the done callback passed to `schedule` makes no difference |
| SchedulerTask.GetState | task/src/main/java/org/aero/common/task/scheduler/TaskImpl.java:109-116 | the first call answers the delay without running the task; every later call runs it once and answers the repeat schedule |
| SchedulerTask.GetsDelayThenRepeat | task/src/main/java/org/aero/common/task/scheduler/TaskImpl.java:105-117 | `n` calls answer the delay once and then the repeat schedule, having run the task `n - 1` times |
| SchedulerTask.Task.constructor | task/src/main/java/org/aero/common/task/scheduler/TaskImpl.java:29-35 | a new task is alive and not done |
| SchedulerTask.Task.CurrentStatus | task/src/main/java/org/aero/common/task/scheduler/TaskImpl.java:43-53 | `status()` is the status of the current state |
| SchedulerTask.Task.Cancel | task/src/main/java/org/aero/common/task/scheduler/TaskImpl.java:61-63 | `cancel` takes the state `CancelState` gives |
| SchedulerTask.Task.Done | task/src/main/java/org/aero/common/task/scheduler/TaskImpl.java:65-68 | `done` takes the state `DoneState` gives |
| SchedulerTask.ScheduleSupplier.constructor | task/src/main/java/org/aero/common/task/scheduler/TaskImpl.java:105-106 | the supplier starts in the state `Schedule` gives |
| SchedulerTask.ScheduleSupplier.Get | task/src/main/java/org/aero/common/task/scheduler/TaskImpl.java:109-116 | `get` answers and moves as `GetState` says |
| TaskChain.DoneState | src/main/java/de/natrox/common/taskchain/TaskChainImpl.java:184-191 | `done` marks the chain done and reports to the callback when there is one |
| TaskChain.AddState | src/main/java/de/natrox/common/taskchain/TaskChainImpl.java:61-130 | adding a null task is a NullPointerException, adding to an executed chain an IllegalStateException; otherwise the container is appended to the queue |
| TaskChain.DelayState | src/main/java/de/natrox/common/taskchain/TaskChainImpl.java:115-119 | `delay` with a null time unit is a NullPointerException, otherwise a callback task on the current thread |
| TaskChain.AbortState | src/main/java/de/natrox/common/taskchain/TaskChainImpl.java:47-59 | `abort` on an executed chain throws AbortException; otherwise it appends a task that throws it |
| TaskChain.RunState | src/main/java/de/natrox/common/taskchain/TaskChainImpl.java:132-145 | `run` records the callback, throws IllegalStateException on an executed chain, otherwise marks it executed and runs the queue |
| TaskChain.Runs | src/main/java/de/natrox/common/taskchain/TaskChainImpl.java:221-237 | each task of the queue starting, in order |
| TaskChain.RunsInOrder | src/main/java/de/natrox/common/taskchain/TaskChainImpl.java:147-258 | when every task completes, the tasks run in queue order and the callback is told `true` once |
| TaskChain.ThrowStopsChain | src/main/java/de/natrox/common/taskchain/TaskChainImpl.java:221-246 | under `RunNext`, a task that throws stops the chain through `abortExecuted` (`AbortExecutedState`): the tasks after it never run, the queue is cleared and the callback is told `false` |
| TaskChain.AbortBeforeRun | src/main/java/de/natrox/common/taskchain/TaskChainImpl.java:47-59 | a chain aborted before running runs the tasks before the abort, then clears the queue, skips the rest and reports `false` |
| TaskChain.NextTwiceReportsFailure | src/main/java/de/natrox/common/taskchain/TaskChainImpl.java:248-258 | a callback task that calls `next` twice: the chain completes and reports `true`, then the second call reports `false` and its IllegalStateException aborts, reporting `false` again |
| TaskChain.RunOnce | src/main/java/de/natrox/common/taskchain/TaskChainImpl.java:121-145 | once run, a chain refuses further tasks and a second run with IllegalStateException, and `abort` throws AbortException |
| TaskChain.RunNextExecuted | src/main/java/de/natrox/common/taskchain/TaskChainImpl.java:147-182 | `RunNext`, the state `runNextTask` leaves after running the queue, keeps the executed flag and the callback |
| TaskChain.EmptyChainReportsSuccess | src/main/java/de/natrox/common/taskchain/TaskChainImpl.java:147-158 | running an empty chain only reports `true` to the callback |
| TaskChain.Chain.constructor | src/main/java/de/natrox/common/taskchain/TaskChainImpl.java:43-45 | a new chain has an empty queue, is not executed and has no callback |
| TaskChain.Chain.Add | src/main/java/de/natrox/common/taskchain/TaskChainImpl.java:121-130 | `add` fails or changes the state as `AddState` says |
| TaskChain.Chain.Abort | src/main/java/de/natrox/common/taskchain/TaskChainImpl.java:47-55 | `abort` fails or changes the state as `AbortState` says |
| TaskChain.Chain.Done | src/main/java/de/natrox/common/taskchain/TaskChainImpl.java:184-191 | `done` takes the state `DoneState` gives |
| TaskChain.Chain.AbortExecuted | src/main/java/de/natrox/common/taskchain/TaskChainImpl.java:193-196 | `abortExecuted` takes the state `AbortExecutedState` gives: the queue cleared and `false` reported |
| TaskChain.Chain.RunNextTask | src/main/java/de/natrox/common/taskchain/TaskChainImpl.java:147-182 | `runNextTask` takes the state `RunNext` gives |
| TaskChain.Chain.Run | src/main/java/de/natrox/common/taskchain/TaskChainImpl.java:132-145 | `run` answers and moves as `RunState` says |
| TaskChain.Factory.constructor | src/main/java/de/natrox/common/taskchain/TaskChainImpl.java:266-270 | a new factory is open |
| TaskChain.Factory.Create | src/main/java/de/natrox/common/taskchain/TaskChainImpl.java:272-284 | `create` on a shut-down executor closes the factory; a closed factory throws IllegalStateException, an open one gives a fresh chain |
| TaskChain.Factory.Shutdown | src/main/java/de/natrox/common/taskchain/TaskChainImpl.java:286-292 | `shutdown` closes the factory |
| EventListeners.Fire | event/src/main/java/org/aero/common/event/EventListenerImpl.java:69 | the handler is called once on the event, and a cancellable event is cancelled when the handler cancels it |
| EventListeners.Handle | event/src/main/java/org/aero/common/event/EventListenerImpl.java:53-70 | `handle`: a cancelled cancellable event is ignored, the first failing condition ends the call, a null handler does nothing, otherwise the handler runs once; identity, class and cancellability never change and a cancelled event stays cancelled |
| EventListeners.FirstFailing | event/src/main/java/org/aero/common/event/EventListenerImpl.java:58-64 | the condition loop: none fails exactly when all pass; otherwise the first failing one, all before it passing |
| EventListeners.CancellationCheck | src/main/java/de/natrox/eventbus/EventListenerBuilderImpl.java:64-75 | built listeners ignore cancelled events, except the de.natrox.eventbus one, which calls its handler on them when the conditions pass |
| EventListeners.FailingConditionSuppresses | src/main/java/de/natrox/event/EventListenerImpl.java:47-53 | any failing condition suppresses the handler and leaves the event as it was |
| EventListeners.CompareTo | event/src/main/java/org/aero/common/event/EventListenerImpl.java:72-75 | `compareTo` is -1, 0 or 1 as the priority is below, equal to or above the other's |
| EventListeners.CompareToOrder | event/src/main/java/org/aero/common/event/EventListenerImpl.java:72-75 | the comparison is antisymmetric and transitive and sees only priorities |
| EventListeners.ListenerBuilder.constructor | event/src/main/java/org/aero/common/event/EventListenerImpl.java:84-87 | a new builder has no conditions, the default priority 0 and no handler |
| EventListeners.ListenerBuilder.AddCondition | event/src/main/java/org/aero/common/event/EventListenerImpl.java:89-94 | `condition(null)` fails (IllegalArgumentException for aero and conelux, NullPointerException for de.natrox) and changes nothing; otherwise the condition is appended |
| EventListeners.ListenerBuilder.SetPriority | event/src/main/java/org/aero/common/event/EventListenerImpl.java:96-100 | `priority` sets the priority only |
| EventListeners.ListenerBuilder.SetHandler | event/src/main/java/org/aero/common/event/EventListenerImpl.java:102-107 | `handler(null)` fails as above and changes nothing; otherwise the handler is set |
| EventListeners.ListenerBuilder.Build | src/main/java/de/natrox/eventbus/EventListenerBuilderImpl.java:52-77 | `build` gives a listener with a copy of the conditions, the priority and the handler; only the de.natrox.eventbus listener omits the cancellation check |
| TreeEventBus.Insert | event/src/main/java/org/aero/common/event/EventBusImpl.java:40-44 | `TreeSet.add`: the set stays ordered by priority and gains the listener unless one of equal priority is present |
| TreeEventBus.Filter | event/src/main/java/org/aero/common/event/EventBusImpl.java:62-64 | `removeIf` keeps the elements the predicate rejects, in order |
| TreeEventBus.RegisterState | event/src/main/java/org/aero/common/event/EventBusImpl.java:37-45 | `register` makes sure the type has a set, adds the listener to it and leaves the other types alone |
| TreeEventBus.UnregisterState | event/src/main/java/org/aero/common/event/EventBusImpl.java:47-57 | `unregister` touches only the listener's own type and keeps every type |
| TreeEventBus.UnregisterIfState | event/src/main/java/org/aero/common/event/EventBusImpl.java:59-65 | `unregisterIf` keeps every type and their ordering |
| TreeEventBus.RegisterThenHas | event/src/main/java/org/aero/common/event/EventBusImpl.java:37-77 | after `register` the bus has the listener, and registering a listener it has changes nothing |
| TreeEventBus.SamePriorityIsSameListener | event/src/main/java/org/aero/common/event/EventBusImpl.java:67-77 | the bus cannot tell apart two listeners of one type with equal priority, in `has` and `unregister` alike |
| TreeEventBus.UnregisterRemoves | event/src/main/java/org/aero/common/event/EventBusImpl.java:47-57 | after `unregister` the bus no longer has the listener, and listeners of other priorities stay |
| TreeEventBus.UnregisterIfRemoves | event/src/main/java/org/aero/common/event/EventBusImpl.java:59-65 | after `unregisterIf` exactly the listeners the predicate rejects remain |
| TreeEventBus.HandlerCalls | event/src/main/java/org/aero/common/event/EventBusImpl.java:91-97 | each listener's handler called once, in order |
| TreeEventBus.DeliversInOrder | event/src/main/java/org/aero/common/event/EventBusImpl.java:91-97 | under `DeliverAll`, the delivery to one type's set, listeners of a plain event that fire are called in ascending priority order |
| TreeEventBus.CancelledReachesNobody | event/src/main/java/org/aero/common/event/EventBusImpl.java:91-97 | a cancelled event reaches no listener of the bus |
| TreeEventBus.DeliverKeepsEvent | event/src/main/java/org/aero/common/event/EventBusImpl.java:91-97 | delivering a plain event leaves it unchanged |
| TreeEventBus.DeliverReaches | event/src/main/java/org/aero/common/event/EventBusImpl.java:91-97 | every listener of a type's set that fires receives the event |
| TreeEventBus.CallOverKeepsEvent | event/src/main/java/org/aero/common/event/EventBusImpl.java:84-98 | a whole `call` (`CallOver`) leaves a plain event unchanged |
| TreeEventBus.CallReachesSupertypes | event/src/main/java/org/aero/common/event/EventBusImpl.java:84-98 | under `CallOver`, the delivery over every registered type, `call` reaches every listener that fires whose registered type is assignable from the event's class |
| TreeEventBus.Bus.constructor | event/src/main/java/org/aero/common/event/EventBusImpl.java:33-35 | a new bus has no listeners |
| TreeEventBus.Bus.Register | event/src/main/java/org/aero/common/event/EventBusImpl.java:37-45 | `register(null)` is an IllegalArgumentException and changes nothing; otherwise the state `RegisterState` gives |
| TreeEventBus.Bus.Unregister | event/src/main/java/org/aero/common/event/EventBusImpl.java:47-57 | `unregister(null)` is an IllegalArgumentException; otherwise the state `UnregisterState` gives |
| TreeEventBus.Bus.UnregisterIf | event/src/main/java/org/aero/common/event/EventBusImpl.java:59-65 | `unregisterIf(null)` is an IllegalArgumentException; otherwise the state `UnregisterIfState` gives |
| TreeEventBus.Bus.Has | src/main/java/org/conelux/event/EventBusImpl.java:67-75 | `has(null)` is an IllegalArgumentException; otherwise whether a listener of equal priority is registered for the type |
| TreeEventBus.DeliverTo | event/src/main/java/org/aero/common/event/EventBusImpl.java:89-97 | the loop over one type's set delivers to its listeners in set order, skipping foreign ones on the aero bus, with the outcome `DeliverAll` gives |
| TreeEventBus.Bus.Call | src/main/java/org/conelux/event/EventBusImpl.java:83-93 | `call(null)` is an IllegalArgumentException and calls nothing; otherwise the calls `CallOver` gives |
| PairEventBus.RegisterState | src/main/java/de/natrox/eventbus/EventBusImpl.java:36-40 | `register` adds the pair of the listener's type and the listener unless present; the pairs stay distinct |
| PairEventBus.Keep | src/main/java/de/natrox/eventbus/EventBusImpl.java:45 | `removeIf` keeps the pairs the test rejects, in order |
| PairEventBus.UnregisterState | src/main/java/de/natrox/eventbus/EventBusImpl.java:42-46 | `unregister` removes exactly the pairs holding the listener |
| PairEventBus.UnregisterIfState | src/main/java/de/natrox/eventbus/EventBusImpl.java:48-52 | `unregisterIf` removes exactly the pairs whose listener the predicate accepts |
| PairEventBus.RegisterUnregister | src/main/java/de/natrox/eventbus/EventBusImpl.java:36-62 | registering twice is registering once; after `register` the bus has the listener, after `unregister` not, and other pairs stay |
| PairEventBus.PairCalls | src/main/java/de/natrox/eventbus/EventBusImpl.java:68-72 | each pair's handler called once, in order |
| PairEventBus.CallsInRegistrationOrder | src/main/java/de/natrox/eventbus/EventBusImpl.java:64-73 | under `CallPairs`, the delivery over the registered pairs, listeners of a plain event that fire are called in registration order |
| PairEventBus.Bus.constructor | src/main/java/de/natrox/eventbus/EventBusImpl.java:32-34 | a new bus has no pairs |
| PairEventBus.Bus.Register | src/main/java/de/natrox/eventbus/EventBusImpl.java:36-40 | `register(null)` is a NullPointerException; otherwise the state `RegisterState` gives |
| PairEventBus.Bus.Unregister | src/main/java/de/natrox/eventbus/EventBusImpl.java:42-46 | `unregister(null)` is a NullPointerException; otherwise the state `UnregisterState` gives |
| PairEventBus.Bus.UnregisterIf | src/main/java/de/natrox/eventbus/EventBusImpl.java:48-52 | `unregisterIf(null)` is a NullPointerException; otherwise the state `UnregisterIfState` gives |
| PairEventBus.Bus.Has | src/main/java/de/natrox/eventbus/EventBusImpl.java:54-62 | `has(null)` is a NullPointerException; otherwise whether some pair holds the listener |
| PairEventBus.Bus.Call | src/main/java/de/natrox/eventbus/EventBusImpl.java:64-73 | `call(null)` is a NullPointerException; otherwise the calls `CallPairs` gives |
| PairEventBus.CallCancellable | src/main/java/de/natrox/event/EventBus.java:92-100 | a null event or callback is a NullPointerException; otherwise the event is called and the callback runs exactly when the event is not a cancelled cancellable one |
| PairEventBus.CallbackRunsForPlainEvents | src/main/java/de/natrox/event/EventBus.java:92-100 | for a plain event the callback always runs |
| PairEventBus.CallPairsKeepsEvent | src/main/java/de/natrox/eventbus/EventBusImpl.java:66-73 | calling a plain event (`CallPairs`) leaves it unchanged |
| PairEventBus.RegisterHandler | src/main/java/de/natrox/event/EventBus.java:50-54 | `register(type, handler)` with a null argument is a NullPointerException; otherwise it registers the listener made from the two |
| AeroContainers.Pair.Of | core/src/main/java/org/aero/common/core/container/Pair.java:50-52 | `of` holds both values |
| AeroContainers.Pair.Empty | core/src/main/java/org/aero/common/core/container/Pair.java:61-63 | `empty` holds two nulls |
| AeroContainers.Pair.SetFirst | core/src/main/java/org/aero/common/core/container/Pair.java:80-83 | `first(x)` replaces the first value, keeps the second and returns the same pair |
| AeroContainers.Pair.SetSecond | core/src/main/java/org/aero/common/core/container/Pair.java:100-103 | `second(x)` replaces the second value, keeps the first and returns the same pair |
| AeroContainers.Pair.Equals | core/src/main/java/org/aero/common/core/container/Pair.java:105-116 | `equals`: the same pair is equal; anything not a pair is not; another pair is equal exactly when both components are |
| AeroContainers.PairEqualsSymmetric | core/src/main/java/org/aero/common/core/container/Pair.java:105-116 | pair `equals` is symmetric between pairs |
| AeroContainers.Triple.Of | core/src/main/java/org/aero/common/core/container/Triple.java:54-56 | `of` holds the three values |
| AeroContainers.Triple.Empty | core/src/main/java/org/aero/common/core/container/Triple.java:66-68 | `empty` holds three nulls |
| AeroContainers.Triple.SetFirst | core/src/main/java/org/aero/common/core/container/Triple.java:85-88 | `setFirst` replaces the first value only and returns the same triple |
| AeroContainers.Triple.SetSecond | core/src/main/java/org/aero/common/core/container/Triple.java:105-108 | `setSecond` replaces the second value only and returns the same triple |
| AeroContainers.Triple.SetThird | core/src/main/java/org/aero/common/core/container/Triple.java:125-128 | `setThird` replaces the third value only and returns the same triple |
| AeroContainers.Triple.Equals | core/src/main/java/org/aero/common/core/container/Triple.java:130-143 | `equals(null)` throws NullPointerException; the same triple is equal; a non-triple is not; another triple is equal exactly when all three components are |
| AeroContainers.NullComparisons | core/src/main/java/org/aero/common/core/container/Pair.java:105-116 | a pair is not equal to null, while comparing a triple to null throws NullPointerException |
| NatroxContainers.Of | src/main/java/de/natrox/common/container/Pair.java:49-51 | `of` holds both values |
| NatroxContainers.Empty | src/main/java/de/natrox/common/container/Pair.java:60-62 | `empty` holds two nulls |
| NatroxContainers.Equals | src/main/java/de/natrox/common/container/Pair.java:72-79 | `equals` holds exactly for a pair with equal components |
| NatroxContainers.HashCode | src/main/java/de/natrox/common/container/Pair.java:81-84 | the hash code, built from the component hashes (`HashOf`, null hashing to 0), is always a 32-bit `int` |
| NatroxContainers.EqualsAndHashCode | src/main/java/de/natrox/common/container/Pair.java:72-84 | `equals` is reflexive and symmetric, equal pairs have equal hash codes, and the empty pair hashes to 961 |
| NatroxContainers.ToString | src/main/java/de/natrox/common/container/Pair.java:86-91 | `toString` is `Pair[first=…, second=…]`, each value shown by `Show`, with `null` for a missing value |
| NatroxContainers.EmptyToString | src/main/java/de/natrox/common/container/Pair.java:86-91 | the empty pair prints as `Pair[first=null, second=null]` |

## Left out

- Floating point: `Float` and `Double` are not modelled. A Float or Double object is not a well-formed value of the model, so the readers' `instanceof Float` and `instanceof Double` branches, the floating-point conversions and floating-point parsing are left out.
- A Number of any other class (AtomicInteger, AtomicLong, a class of the caller's own) is modelled by one `long` value (`OtherNum`). Its `longValue()`, `intValue()` and the narrowing casts are taken to agree with that value, as those of the JDK's integral classes do.
- `NumericDeserializer` is not part of this model. Its `parseNumber` is taken to be the `NumericParser` one.
- The `org.conelux` `Check` class is not part of this model. The conelux counters and buses are taken to reject null with IllegalArgumentException, as the aero `Check` does.
- The private constructors of both `Check` classes only throw UnsupportedOperationException. They are not modelled.
- `MessageFormat.format` is a parameter of the formatting overloads of `Check`.
- `ConversionBus.get`, `ParserCollection.get` and `SerializerCollection.defaults()` are parameters of the converters and parsers that call them.
- The iteration order of `HashMap`, `HashSet` and `ConcurrentHashMap` is unspecified. Where it matters (the serializer key scan, the tree buses' event types), the order is a parameter.
- `HashMap` and `HashSet` results are modelled as insertion-ordered sequences with distinct keys or elements.
- Object identity is modelled as value equality, or by an `id` field where identity is what the source compares.
- MapToMap.Convert: the test `sourceKey != targetKey || sourceValue != targetValue` compares references. The model compares values.
- Null arguments that a parameter annotated `@NotNull` receives from callers outside the core are not modelled, except where the code checks them explicitly.
- The scheduler and executors are modelled only as "a task is present". Ticks and runs are fired by the caller of `Tick`/`Run`. Thread interleaving, `volatile` and `synchronized` are not modelled.
- Counters and countdowns: the handlers are foreign code. A handler call is recorded by its kind (start, tick, finish, cancel) only, and handlers are taken not to call back into the counter.
- ConeluxCounter.WholeRun, ConeluxCoreCounter.WholeRun, NatroxCounter.WholeRun and their CountsTowardsStop lemmas: stated only for start and stop counts at least two away from the ends of the `long` range, so that no count of the run overflows.
- AeroCounter.WholeRun and AeroCounter.CountsTowardsStop: stated only for start and stop counts within ±2^61, so that `step - count + stopCount` cannot overflow. Runs over more extreme ranges are not characterised.
- AeroCounter: the aero counter's runnable is the `org.aero.common.task.count` one, built by `CountingRunnableImpl` on `AbstractCountingRunnable`. The interface `org.aero.common.task.count.CountingRunnable` is not part of this model.
- `TaskSchedule` values (immediate, stop, durations) are abstract values. The scheduler loop that consumes them is not modelled.
- TaskChain: the executor is synchronous. The async/sync hand-off (`executeAsync`, `executeInMain`) and the `isMainThread` and `async` flags are not modelled, and neither is `delay`'s timer. A task is modelled by its outcome: it completes, throws, stalls, or calls `next` twice.
- `TaskChain.createFactory` and the executor's own `shutdown` are not modelled. `Factory.Create` takes whether the executor is shut down as a parameter.
- Events: conditions and handlers are foreign code. A condition is tested by a parameter. A handler is recorded by its call and by whether it cancels the event.
- Events: listener classes of the caller's own, which the de.natrox buses also accept, are taken to call their handler.
- `EventListener.of` is not part of this model. `PairEventBus.RegisterHandler` takes it as a parameter.
- TreeEventBus.Bus.Call: the event types are visited in an order given as a parameter, because the order of a `ConcurrentHashMap` is unspecified.
- Strings are sequences of Dafny characters. A lone UTF-16 surrogate half in text is not modelled.
- FromString (UuidCodec.FromString): reads the canonical 8-4-4-4-12 form only. `UUID.fromString` also reads text of at most 36 characters with four dashes and hex groups of other lengths, for example 7-5-4-4-12 or shorter groups. The model refuses those, and `UuidCodec.Deserialize` refuses them with it.
- ParseSigned (NumericParsing.ParseSigned), with `DigitOf`: reads ASCII digits and letters only. `Character.digit`, behind `Byte.parseByte`, `Short.parseShort`, `Integer.parseInt` and `Long.parseLong`, also reads every other Unicode decimal digit, so `"١٢"` is 12 in Java and a NumberFormatException here. Literals are taken to be ASCII.
- ParseUnsigned (NumericParsing.ParseUnsigned): the same ASCII-only digit set for `Integer.parseUnsignedInt` and `Long.parseUnsignedLong`.
- ProcessKey (EnumLookup.ProcessKey), with `Lower` and `LowerChar`: folds the ASCII capitals only. `String.toLowerCase` folds every Unicode letter (`Ä` to `ä`, the Kelvin sign to `k`). So the enum keys, the boolean words and the converter copy of `parseNumber` are modelled for ASCII text only.
- RewriteRgb (ConsoleColor.RewriteRgb), with `Find` and `RgbRewrite`: the trigger is matched as a literal character and the colour is the six hex digits after `#`. Java splices the trigger unquoted into the pattern, so a regular-expression operator (`.`, `$`, `\`, …) matches differently. It also removes the trigger from the whole match before `Color.decode`, so a hex-digit or `#` trigger decodes other text (`a#aabbcc` decodes `#bbcc`). The two agree for the triggers `PlainTrigger` admits.
- ToColouredString (ConsoleColor.ToColouredString): inherits the literal trigger of `RewriteRgb`.
- StripColor (ConsoleColor.StripColor): inherits the literal trigger of `RewriteRgb` in its 24-bit pass.
- RegistryBuilder.Build (Registries.RegistryBuilder.Build) and ConeluxConversionBus.BusBuilder.Build: the built registry keeps a copy of the builder's entries. Java keeps `Collections.unmodifiableList` (or `unmodifiableSet`) of the builder's own collection, a live view: a later `register` on the builder would show in every registry built from it. A builder is taken not to be used after `build`.
- NotionCountdown.StartState: the time unit is not modelled, so the NullPointerException that `scheduleAtFixedRate` throws for a null unit, after `onStart` has run, is left out.
- PairEventBus.CallCancellable: `de.natrox.event.EventBus` is sealed and permits only `de.natrox.event.EventBusImpl`, which is not part of this model. Its `callCancellable` default is composed here with the `de.natrox.eventbus` bus, which stands in for that implementation.
- ConsoleColor: the ANSI escape codes are a parameter. The plain accessors (`displayName`, `ansiCode`, `index`, `toString`) are not modelled.
- NatroxContainers.HashCode and NatroxContainers.ToString: the `hashCode` and `toString` of the components are parameters.
- AeroContainers.Pair.Equals and AeroContainers.Triple.Equals: `Arrays.deepEquals` on array components is modelled as value equality of the components.

## Findings

| source | as written | input that shows it | evidently intended | confidence | as-written member | corrected member |
|---|---|---|---|---|---|---|
| src/main/java/de/natrox/serialize/ByteDeserializer.java:40-45 | a Number within the byte range passes the range check, but nothing is returned, so control falls through to the CoercionFailedException | any Number in the byte range, such as the Integer `5` | return the number as a byte | not executed | NumericCoercion.ByteDeserializerDropsInRangeNumber | NumericCoercion.ParserRead |
| src/main/java/de/natrox/serialize/BooleanSerializer.java:65-68 | `deserializeFromNumber` returns `number % 2 == 0`, while `serializeToNumber` maps `true` to 1 | `true` serialized to 1 comes back as `false` | an odd number is `true`, the inverse of `serializeToNumber`'s 1 and 0, so the round trip gives the boolean back | not executed | BooleanCodec.NumberRoundTripInverts | BooleanCodec.NumberRoundTrip |
| src/main/java/de/natrox/serialize/SerializerImpl.java:86-88 | `findDeserializer` tests `serializer.containsKey(type)` and then reads `deserializer.get(type)` | a Boolean serializer with no Boolean deserializer: deserializing `"true"` to Boolean throws NullPointerException, even when a deserializer registered for Object would be found by the scan | test `deserializer.containsKey(type)` | not executed | SerializerOperations.DeserializeAsWrittenThrowsNullPointer | SerializerOperations.Deserialize |
| src/main/java/org/conelux/conversion/converter/MapToMapConverter.java:71-72 | the target value is converted from the target key, with the key's source type | `{1: 2}` under identity conversions becomes `{1: 1}` | convert `sourceValue` from `sourceParams[1]` to `targetParams[1]` | not executed | MapToMap.ConvertAsWrittenLosesValues | MapToMap.FreshMapHoldsConvertedEntries |
| src/main/java/de/natrox/common/counter/Countdown.java:158-166 | each tick subtracts the tick period value, and the countdown only finishes when the time is exactly the stop time | start 10, stop 0, tick 3: the time goes 11, 8, 5, 2, -1, after which a tick changes nothing, so the countdown never finishes and its task is never cancelled | subtract one per tick, as the notion countdown does | not executed | NatroxCountdown.AsWrittenSkipsStop | NatroxCountdown.WholeRun |
| src/main/java/de/natrox/serialize/ParserCollectionImpl.java:70 | the object-array provider is registered with the test `type -> true`, before the primitive-array, map, set, list and object rows | `int[]` gets the object-array parser instead of the `int[]` parser | accept reference array types only | not executed | ParserCollections.AsWrittenIntArrayGetsObjectArrayParser | ParserCollections.PrimitiveArraysReachTheirParsers |
| src/main/java/de/natrox/conversionbus/convert/NumericTypeEnforcerImpl.java:235-240 | the text `0b` is read as a binary prefix with nothing after it, and the substring past its end throws outside the `try` | `"0b"` read as a byte | report a SerializeException, as other malformed text does | not executed | NumericParsing.BinaryPrefixOverruns | NumericParsing.ParseNumberText |
| src/main/java/de/natrox/serialize/util/NumberUtil.java:25-34 | the result is passed to `Class.cast` of the target class, which throws ClassCastException for a primitive class | casting the Integer `1` to `int.class` | cast through the boxed class of the target | not executed | NumberUtil.CastToPrimitiveRefused | NumberUtil.Cast |
