// The numeric-literal reader shared by the integer converters, parsers and
// deserializers: a type suffix, an unsigned marker `u`, a sign, a radix
// prefix, then digits handed to one of Java's `parse…(String, int)` functions.
module NumericParsing {
  import opened JavaLang

  /** `Character.digit(c, 36)` on ASCII: 0-9, then a-z or A-Z as 10-35, else -1. */
  function DigitOf(c: char): (d: int)
    ensures -1 <= d < 36
    ensures '0' <= c <= '9' ==> d == c as int - '0' as int
    ensures d >= 0 <==> ('0' <= c <= '9' || 'a' <= c <= 'z' || 'A' <= c <= 'Z')
  {
    if '0' <= c <= '9' then c as int - '0' as int
    else if 'a' <= c <= 'z' then c as int - 'a' as int + 10
    else if 'A' <= c <= 'Z' then c as int - 'A' as int + 10
    else -1
  }

  predicate AllDigits(s: string, radix: nat) {
    forall i :: 0 <= i < |s| ==> 0 <= DigitOf(s[i]) < radix
  }

  /** The value of a run of digits in a radix, most significant digit first. */
  function DigitsValue(s: string, radix: nat): nat
    requires AllDigits(s, radix)
  {
    if s == [] then 0 else DigitsValue(s[..|s| - 1], radix) * radix + DigitOf(s[|s| - 1])
  }

  /** The `parse…(String, int)` functions that `parseNumber` is handed. */
  datatype ParseFunc = ParseByte | ParseShort | ParseInt | ParseUnsignedInt | ParseLong | ParseUnsignedLong

  /**
   * `Integer.parseInt(s, radix)` and its byte, short and long relatives on the
   * range [lo, hi]: an optional sign, then at least one digit.
   */
  function ParseSigned(s: string, radix: nat, lo: int, hi: int): (r: Result<int>)
    ensures r.Ok? ==> lo <= r.value <= hi
    ensures r.Err? ==> r.error == NumberFormatException
  {
    if |s| == 0 then Err(NumberFormatException)
    else
      var body := if s[0] == '-' || s[0] == '+' then s[1..] else s;
      if |body| == 0 || !AllDigits(body, radix) then Err(NumberFormatException)
      else
        var v: int := if s[0] == '-' then -(DigitsValue(body, radix) as int) else DigitsValue(body, radix);
        if lo <= v <= hi then Ok(v) else Err(NumberFormatException)
  }

  /**
   * `Integer.parseUnsignedInt` and `Long.parseUnsignedLong`: no minus sign, a
   * value below `modulus`, returned in two's complement.
   */
  function ParseUnsigned(s: string, radix: nat, modulus: nat): (r: Result<int>)
    requires modulus >= 2 && modulus % 2 == 0
    ensures r.Ok? ==> r.value + modulus / 2 >= 0 && r.value < modulus / 2
    ensures r.Err? ==> r.error == NumberFormatException
  {
    if |s| == 0 || s[0] == '-' then Err(NumberFormatException)
    else
      var body := if s[0] == '+' then s[1..] else s;
      if |body| == 0 || !AllDigits(body, radix) then Err(NumberFormatException)
      else
        var v := DigitsValue(body, radix);
        if v < modulus then Ok(if v < modulus / 2 then v else v - modulus as int)
        else Err(NumberFormatException)
  }

  /** Runs a parse function; the value it returns fits the width of its type. */
  function Apply(f: ParseFunc, s: string, radix: nat): (r: Result<int>)
    ensures r.Err? ==> r.error == NumberFormatException
    ensures r.Ok? ==> Fits(f, r.value)
  {
    match f
    case ParseByte => ParseSigned(s, radix, -0x80, 0x7F)
    case ParseShort => ParseSigned(s, radix, -0x8000, 0x7FFF)
    case ParseInt => ParseSigned(s, radix, -0x8000_0000, 0x7FFF_FFFF)
    case ParseUnsignedInt => ParseUnsigned(s, radix, 0x1_0000_0000)
    case ParseLong => ParseSigned(s, radix, -0x8000_0000_0000_0000, 0x7FFF_FFFF_FFFF_FFFF)
    case ParseUnsignedLong => ParseUnsigned(s, radix, 0x1_0000_0000_0000_0000)
  }

  /** The values of the primitive type a parse function returns. */
  predicate Fits(f: ParseFunc, v: int)
  {
    match f
    case ParseByte => InByte(v)
    case ParseShort => InShort(v)
    case ParseInt | ParseUnsignedInt => InInt(v)
    case ParseLong | ParseUnsignedLong => InLong(v)
  }

  /** The parse functions of the signed kind. */
  predicate IsSigned(f: ParseFunc) {
    !f.ParseUnsignedInt? && !f.ParseUnsignedLong?
  }

  /** The values a signed parse function accepts. */
  predicate InRangeOf(f: ParseFunc, v: int)
  {
    match f
    case ParseByte => InByte(v)
    case ParseShort => InShort(v)
    case ParseInt => InInt(v)
    case ParseLong => InLong(v)
    case _ => false
  }

  /**
   * The two copies of `parseNumber`: the converter package lower-cases its
   * input first, the parser package reads it as it is.
   */
  datatype Variant = LowerCasing | CaseKeeping

  /** `s.endsWith(c)` for a one-character suffix. */
  predicate EndsWithChar(s: string, c: char) {
    |s| > 0 && s[|s| - 1] == c
  }

  /** `s.startsWith(ab, at)` for a two-character prefix. */
  predicate TwoCharsAt(s: string, at: int, a: char, b: char) {
    0 <= at && at + 2 <= |s| && s[at] == a && s[at + 1] == b
  }

  /** The radix a prefix at `at` selects, and where the digits then start. */
  function RadixPrefix(s: string, at: int): (p: (nat, int))
    ensures p.0 in {2, 10, 16} && at <= p.1 <= at + 2
    ensures TwoCharsAt(s, at, '0', 'x') ==> p == (16, at + 2)
    ensures !TwoCharsAt(s, at, '0', 'x') && 0 <= at < |s| && s[at] == '#' ==> p == (16, at + 1)
    ensures TwoCharsAt(s, at, '0', 'b') ==> p == (2, at + 2)
    ensures p.0 == 10 <==> !TwoCharsAt(s, at, '0', 'x') && !(0 <= at < |s| && s[at] == '#') && !TwoCharsAt(s, at, '0', 'b')
    ensures p.0 == 10 ==> p.1 == at
  {
    if TwoCharsAt(s, at, '0', 'x') then (16, at + 2)
    else if 0 <= at < |s| && s[at] == '#' then (16, at + 1)
    else if TwoCharsAt(s, at, '0', 'b') then (2, at + 2)
    else (10, at)
  }

  /** The text `parseNumber` scans: its input, lower-cased in the converter package's copy. */
  function Source(input: string, variant: Variant): string
  {
    if variant == LowerCasing then Lower(input) else input
  }

  /** Where `parseNumber` finds the parts of a literal: the digits are `s[start..end]`. */
  datatype Shape = Shape(end: int, isUnsigned: bool, minus: bool, radix: nat, start: int)

  /** Where the literal ends once a trailing type suffix (in either case) is dropped. */
  function SuffixEnd(s: string, suffix: char): (e: int)
    ensures |s| - 1 <= e <= |s| && 0 <= e
  {
    if EndsWithChar(s, suffix) || EndsWithChar(s, UpperChar(suffix)) then |s| - 1 else |s|
  }

  /** Whether a `u` precedes position `end0`. */
  predicate UnsignedMarked(s: string, end0: int)
    requires 0 <= end0 <= |s|
  {
    end0 > 0 && s[end0 - 1] == 'u'
  }

  /** Reads the type suffix, the unsigned marker, the sign and the radix prefix of a literal. */
  function ShapeOf(s: string, suffix: char): (sh: Shape)
    ensures 0 <= sh.end <= |s| && 0 <= sh.start
  {
    var end0 := SuffixEnd(s, suffix);
    var isUnsigned := UnsignedMarked(s, end0);
    var end := if isUnsigned then end0 - 1 else end0;
    var minus := end > 0 && s[0] == '-';
    var plus := end > 0 && s[0] == '+';
    var prefix := RadixPrefix(s, if minus || plus then 1 else 0);
    Shape(end, isUnsigned, minus, prefix.0, prefix.1)
  }

  /** The text `parseNumber` hands to the parse function once the shape is known. */
  function DigitText(s: string, sh: Shape): string
    requires 0 <= sh.start <= sh.end <= |s|
  {
    (if sh.minus then "-" else "") + s[sh.start..sh.end]
  }

  /** Whether the radix prefix of a literal runs past the end of its digits, where `substring` throws. */
  predicate PrefixOverrun(input: string, suffix: char, variant: Variant)
  {
    var sh := ShapeOf(Source(input, variant), suffix);
    !(sh.minus && sh.isUnsigned) && sh.start > sh.end
  }

  /**
   * What `parseNumber` makes of a literal. With `checked` false this is the
   * code as written, where a radix prefix that overlaps the type suffix makes
   * `substring` throw; with `checked` true such an input is a malformed number.
   */
  function ReadLiteral(input: string, signed: ParseFunc, unsigned: ParseFunc, suffix: char,
                       variant: Variant, checked: bool): (r: Result<int>)
    ensures r.Ok? ==> Fits(signed, r.value) || Fits(unsigned, r.value)
    ensures r.Err? ==> r.error in {SerializeException, IndexOutOfBoundsException}
    ensures r == Err(IndexOutOfBoundsException) <==> !checked && PrefixOverrun(input, suffix, variant)
  {
    var s := Source(input, variant);
    var sh := ShapeOf(s, suffix);
    if sh.minus && sh.isUnsigned then Err(SerializeException)
    else if sh.start > sh.end then (if checked then Err(SerializeException) else Err(IndexOutOfBoundsException))
    else
      var parsed := Apply(if sh.isUnsigned then unsigned else signed, DigitText(s, sh), sh.radix);
      if parsed.Ok? then parsed else Err(SerializeException)
  }

  /** `parseNumber` as the rest of the model uses it: a malformed literal is always a SerializeException. */
  function ParseNumberText(input: string, signed: ParseFunc, unsigned: ParseFunc, suffix: char,
                           variant: Variant): (r: Result<int>)
    ensures r.Err? ==> r.error == SerializeException
    ensures ReadLiteral(input, signed, unsigned, suffix, variant, false) != Err(IndexOutOfBoundsException)
            ==> r == ReadLiteral(input, signed, unsigned, suffix, variant, false)
    ensures !PrefixOverrun(input, suffix, variant) ==> r == ReadLiteral(input, signed, unsigned, suffix, variant, false)
    ensures PrefixOverrun(input, suffix, variant) ==> r == Err(SerializeException)
  {
    ReadLiteral(input, signed, unsigned, suffix, variant, true)
  }

  /**
   * The scanning half of `parseNumber`: drops the type suffix and the `u`
   * marker from the end, then the sign and the radix prefix from the front.
   */
  method ScanLiteral(input: string, suffix: char) returns (endIdx: int, isUnsigned: bool, negative: bool, radix: nat, startIdx: int)
    ensures Shape(endIdx, isUnsigned, negative, radix, startIdx) == ShapeOf(input, suffix)
  {
    isUnsigned := false;
    negative := false;
    startIdx := 0;
    endIdx := |input|;
    if EndsWithChar(input, suffix) || EndsWithChar(input, UpperChar(suffix)) {
      endIdx := endIdx - 1;
    }
    if endIdx > 0 && input[endIdx - 1] == 'u' {
      isUnsigned := true;
      endIdx := endIdx - 1;
    }
    assert endIdx == ShapeOf(input, suffix).end;
    if endIdx > startIdx && input[startIdx] == '-' {
      negative := true;
      startIdx := startIdx + 1;
    } else if endIdx > startIdx && input[startIdx] == '+' {
      startIdx := startIdx + 1;
    }
    ghost var prefix := RadixPrefix(input, startIdx);
    radix := 10;
    if TwoCharsAt(input, startIdx, '0', 'x') {
      radix := 16;
      startIdx := startIdx + 2;
    } else if |input| > startIdx && input[startIdx] == '#' {
      radix := 16;
      startIdx := startIdx + 1;
    } else if TwoCharsAt(input, startIdx, '0', 'b') {
      radix := 2;
      startIdx := startIdx + 2;
    }
    assert radix == prefix.0 && startIdx == prefix.1;
  }

  /**
   * `parseNumber` as the source writes it (both copies): a minus sign with
   * the `u` marker is refused, and a prefix that overlaps the suffix ends in
   * the `substring` failure.
   */
  method ParseNumber(input0: string, signed: ParseFunc, unsigned: ParseFunc, suffix: char, variant: Variant)
    returns (r: Result<int>)
    ensures r == ReadLiteral(input0, signed, unsigned, suffix, variant, false)
    ensures r.Err? ==> r.error in {SerializeException, IndexOutOfBoundsException}
  {
    var input := input0;
    if variant == LowerCasing {
      input := Lower(input);
    }
    var endIdx, isUnsigned, negative, radix, startIdx := ScanLiteral(input, suffix);
    if negative && isUnsigned {
      return Err(SerializeException);
    }
    if startIdx > endIdx {
      return Err(IndexOutOfBoundsException);
    }
    ghost var whole := input;
    input := input[startIdx..endIdx];
    if negative {
      input := "-" + input;
    }
    assert input == DigitText(whole, ShapeOf(whole, suffix));
    var parsed := Apply(if isUnsigned then unsigned else signed, input, radix);
    if parsed.Ok? {
      r := parsed;
    } else {
      r := Err(SerializeException);
    }
  }

  // ---------------------------------------------------------------------
  // Properties

  /** `Character.digit` reads back each decimal digit. */
  lemma DigitOfDigit(d: nat)
    requires d < 10
    ensures DigitOf(Digit(d)) == d
  {
  }

  /** The decimal digits of a number are digits, and their value is the number. */
  lemma {:induction false} DecimalDigitsValue(n: nat)
    ensures AllDigits(DecimalDigits(n), 10) && DigitsValue(DecimalDigits(n), 10) == n
  {
    var s := DecimalDigits(n);
    if n >= 10 {
      DecimalDigitsValue(n / 10);
      assert s[..|s| - 1] == DecimalDigits(n / 10);
      DigitOfDigit(n % 10);
      assert s[|s| - 1] == Digit(n % 10);
    } else {
      DigitOfDigit(n);
    }
  }

  /** Lower-casing leaves a decimal literal and a lower-case suffix as they are. */
  lemma LowerOfDecimal(v: int, tail: string)
    requires forall i :: 0 <= i < |tail| ==> LowerChar(tail[i]) == tail[i]
    ensures Lower(DecimalString(v) + tail) == DecimalString(v) + tail
  {
    var s := DecimalString(v) + tail;
    assert forall i :: 0 <= i < |s| ==> LowerChar(s[i]) == s[i];
  }

  /** Java's signed parsers read the decimal digits of a value as that value, when it is in range. */
  lemma ParseSignedDigits(n: nat, lo: int, hi: int)
    ensures ParseSigned(DecimalDigits(n), 10, lo, hi) == if lo <= n <= hi then Ok(n) else Err(NumberFormatException)
  {
    DecimalDigitsValue(n);
  }

  /** Java's signed parsers read a minus sign and the digits of a value as its negation. */
  lemma ParseSignedNegative(n: nat, lo: int, hi: int)
    ensures ParseSigned("-" + DecimalDigits(n), 10, lo, hi)
            == if lo <= -(n as int) <= hi then Ok(-(n as int)) else Err(NumberFormatException)
  {
    DecimalDigitsValue(n);
    var s := "-" + DecimalDigits(n);
    assert s[0] == '-' && s[1..] == DecimalDigits(n);
  }

  /** Java's signed parsers read the decimal form of any value in their range, and reject any other. */
  lemma ParseSignedDecimal(v: int, lo: int, hi: int)
    ensures ParseSigned(DecimalString(v), 10, lo, hi) == if lo <= v <= hi then Ok(v) else Err(NumberFormatException)
  {
    if v < 0 {
      var n: nat := -v;
      ParseSignedNegative(n, lo, hi);
      assert DecimalString(v) == "-" + DecimalDigits(n) && -(n as int) == v;
    } else {
      ParseSignedDigits(v, lo, hi);
      assert DecimalString(v) == DecimalDigits(v);
    }
  }

  /** A signed parse function reads the decimal form of any value in its range, and rejects any other. */
  lemma ApplyDecimal(v: int, f: ParseFunc)
    requires IsSigned(f)
    ensures Apply(f, DecimalString(v), 10) == if InRangeOf(f, v) then Ok(v) else Err(NumberFormatException)
  {
    match f
    case ParseByte => ParseSignedDecimal(v, -0x80, 0x7F);
    case ParseShort => ParseSignedDecimal(v, -0x8000, 0x7FFF);
    case ParseInt => ParseSignedDecimal(v, -0x8000_0000, 0x7FFF_FFFF);
    case ParseLong => ParseSignedDecimal(v, -0x8000_0000_0000_0000, 0x7FFF_FFFF_FFFF_FFFF);
  }

  /** The shape of a decimal literal, optionally followed by one letter other than `u`. */
  lemma ShapeOfDecimal(v: int, tail: string, suffix: char)
    requires tail == [] || (|tail| == 1 && (tail[0] == suffix || tail[0] == UpperChar(suffix)))
    requires 'a' <= suffix <= 'z' && suffix != 'u' && suffix != 'x'
    requires suffix == 'b' && tail != [] ==> v != 0
    ensures ShapeOf(DecimalString(v) + tail, suffix)
            == Shape(|DecimalString(v)|, false, v < 0, 10, if v < 0 then 1 else 0)
  {
    var d := DecimalString(v);
    var s := d + tail;
    var at := if v < 0 then 1 else 0;
    var digits := DecimalDigits(if v < 0 then -v else v);
    assert d[at..] == digits;
    assert s[..|d|] == d;
    assert SuffixEnd(s, suffix) == |d|;
    assert !UnsignedMarked(s, |d|);
    assert !TwoCharsAt(s, at, '0', 'x') && !TwoCharsAt(s, at, '0', 'b') by {
      if at + 2 <= |s| {
        assert s[at] == digits[0];
        assert |digits| > 1 ==> s[at + 1] == digits[1];
      }
    }
  }

  /** What `parseNumber` makes of a literal whose shape and parse outcome are known. */
  lemma ReadsOutcome(input: string, f: ParseFunc, signed: ParseFunc, unsigned: ParseFunc, suffix: char,
                     variant: Variant, s: string, sh: Shape, digits: string, parsed: Result<int>)
    requires Source(input, variant) == s && ShapeOf(s, suffix) == sh
    requires !(sh.minus && sh.isUnsigned) && sh.start <= sh.end
    requires f == (if sh.isUnsigned then unsigned else signed)
    requires DigitText(s, sh) == digits && Apply(f, digits, sh.radix) == parsed
    ensures ReadLiteral(input, signed, unsigned, suffix, variant, false)
            == (if parsed.Ok? then parsed else Err(SerializeException))
    ensures ParseNumberText(input, signed, unsigned, suffix, variant)
            == (if parsed.Ok? then parsed else Err(SerializeException))
  {
  }

  /** A literal whose radix prefix runs past its end overruns the digits. */
  lemma Overruns(input: string, signed: ParseFunc, unsigned: ParseFunc, suffix: char, variant: Variant,
                 s: string, sh: Shape)
    requires Source(input, variant) == s && ShapeOf(s, suffix) == sh
    requires !(sh.minus && sh.isUnsigned) && sh.start > sh.end
    ensures ReadLiteral(input, signed, unsigned, suffix, variant, false) == Err(IndexOutOfBoundsException)
    ensures ParseNumberText(input, signed, unsigned, suffix, variant) == Err(SerializeException)
  {
  }

  /** A literal whose shape is known and whose digit text parses reads as that value. */
  lemma ReadsAs(input: string, f: ParseFunc, signed: ParseFunc, unsigned: ParseFunc, suffix: char, variant: Variant,
                s: string, sh: Shape, digits: string, v: int)
    requires Source(input, variant) == s && ShapeOf(s, suffix) == sh
    requires !(sh.minus && sh.isUnsigned) && sh.start <= sh.end
    requires f == (if sh.isUnsigned then unsigned else signed)
    requires DigitText(s, sh) == digits && Apply(f, digits, sh.radix) == Ok(v)
    ensures ParseNumberText(input, signed, unsigned, suffix, variant) == Ok(v)
  {
  }

  /** Lower-casing leaves a decimal literal with a lower-case tail as it is. */
  lemma DecimalSource(v: int, tail: string, variant: Variant)
    requires forall i :: 0 <= i < |tail| ==> (variant == LowerCasing ==> LowerChar(tail[i]) == tail[i])
    ensures Source(DecimalString(v) + tail, variant) == DecimalString(v) + tail
  {
    if variant == LowerCasing { LowerOfDecimal(v, tail); }
  }

  /** The digit text of a decimal literal, with its sign put back, is the literal without its tail. */
  lemma DecimalDigitText(v: int, tail: string)
    ensures var d := DecimalString(v);
            DigitText(d + tail, Shape(|d|, false, v < 0, 10, if v < 0 then 1 else 0)) == d
  {
    var d := DecimalString(v);
    var t := d + tail;
    var at := if v < 0 then 1 else 0;
    assert t[at..|d|] == d[at..];
    if v < 0 { assert "-" + d[1..] == d; } else { assert "" + d == d; }
  }

  /**
   * A decimal literal followed by nothing or by the type suffix reads as its
   * value when the signed parse function's range holds it, and is a malformed
   * number otherwise.
   */
  lemma DecimalWithTail(v: int, tail: string, signed: ParseFunc, unsigned: ParseFunc, suffix: char, variant: Variant)
    requires IsSigned(signed)
    requires 'a' <= suffix <= 'z' && suffix != 'u' && suffix != 'x'
    requires tail == [] || (|tail| == 1 && (tail[0] == suffix || (tail[0] == UpperChar(suffix) && variant == CaseKeeping)))
    requires suffix == 'b' && tail != [] ==> v != 0
    ensures ParseNumberText(DecimalString(v) + tail, signed, unsigned, suffix, variant)
            == if InRangeOf(signed, v) then Ok(v) else Err(SerializeException)
    ensures !PrefixOverrun(DecimalString(v) + tail, suffix, variant)
  {
    var d := DecimalString(v);
    var t := d + tail;
    var sh := Shape(|d|, false, v < 0, 10, if v < 0 then 1 else 0);
    DecimalLiteral(v, tail, suffix, variant);
    ApplyDecimal(v, signed);
    ReadsOutcome(t, signed, signed, unsigned, suffix, variant, t, sh, d, Apply(signed, d, 10));
  }

  /** A decimal literal with its tail is left alone by lower-casing, has the decimal shape, and its digit text is the decimal form. */
  lemma DecimalLiteral(v: int, tail: string, suffix: char, variant: Variant)
    requires 'a' <= suffix <= 'z' && suffix != 'u' && suffix != 'x'
    requires tail == [] || (|tail| == 1 && (tail[0] == suffix || (tail[0] == UpperChar(suffix) && variant == CaseKeeping)))
    requires suffix == 'b' && tail != [] ==> v != 0
    ensures var d := DecimalString(v);
      var sh := Shape(|d|, false, v < 0, 10, if v < 0 then 1 else 0);
      Source(d + tail, variant) == d + tail && ShapeOf(d + tail, suffix) == sh &&
      sh.start <= sh.end && DigitText(d + tail, sh) == d
  {
    DecimalSource(v, tail, variant);
    ShapeOfDecimal(v, tail, suffix);
    DecimalDigitText(v, tail);
  }

  /**
   * The decimal form of a value in a signed parse function's range reads
   * back as that value in both copies of `parseNumber`, also when the type
   * suffix follows, lower-case or (for the case-keeping copy) upper-case.
   */
  lemma DecimalRoundTrip(v: int, signed: ParseFunc, unsigned: ParseFunc, suffix: char, variant: Variant, upper: bool)
    requires InRangeOf(signed, v)
    requires 'a' <= suffix <= 'z' && suffix != 'u' && suffix != 'x'
    requires suffix == 'b' ==> v != 0
    ensures ParseNumberText(DecimalString(v), signed, unsigned, suffix, variant) == Ok(v)
    ensures ParseNumberText(DecimalString(v) + [if upper then UpperChar(suffix) else suffix],
                            signed, unsigned, suffix, if upper then CaseKeeping else variant) == Ok(v)
  {
    DecimalWithTail(v, [], signed, unsigned, suffix, variant);
    assert DecimalString(v) + [] == DecimalString(v);
    DecimalWithTail(v, [if upper then UpperChar(suffix) else suffix], signed, unsigned, suffix,
                    if upper then CaseKeeping else variant);
  }

  /** The shape of an unsigned decimal literal marked `u`. */
  lemma ShapeOfUnsigned(n: nat, suffix: char)
    requires 'a' <= suffix <= 'z' && suffix != 'u'
    ensures ShapeOf(DecimalDigits(n) + "u", suffix) == Shape(|DecimalDigits(n)|, true, false, 10, 0)
  {
    var d := DecimalDigits(n);
    var s := d + "u";
    assert s[..|s| - 1] == d;
    assert SuffixEnd(s, suffix) == |s|;
    assert UnsignedMarked(s, |s|);
    assert !TwoCharsAt(s, 0, '0', 'x') && !TwoCharsAt(s, 0, '0', 'b') by {
      if 2 <= |s| { assert s[0] == d[0]; assert |d| > 1 ==> s[1] == d[1]; }
    }
  }

  /** Java's unsigned parsers read the decimal digits of a value below the modulus in two's complement. */
  lemma ParseUnsignedDigits(n: nat, modulus: nat)
    requires modulus >= 2 && modulus % 2 == 0 && n < modulus
    ensures ParseUnsigned(DecimalDigits(n), 10, modulus) == Ok(if n < modulus / 2 then n else n - modulus as int)
  {
    DecimalDigitsValue(n);
  }

  /** `Integer.parseUnsignedInt` reads the digits of a value below 2^32 as its 32-bit two's complement. */
  lemma UnsignedIntDigits(n: nat)
    requires n < 0x1_0000_0000
    ensures Apply(ParseUnsignedInt, DecimalDigits(n), 10) == Ok(Wrap32(n))
  {
    var d := DecimalDigits(n);
    assert Apply(ParseUnsignedInt, d, 10) == ParseUnsigned(d, 10, 0x1_0000_0000);
    ParseUnsignedDigits(n, 0x1_0000_0000);
    Wrap32Unsigned(n);
  }

  /** The 32-bit two's-complement reading of a value below 2^32. */
  lemma Wrap32Unsigned(n: nat)
    requires n < 0x1_0000_0000
    ensures Wrap32(n) == if n < 0x8000_0000 then n else n - 0x1_0000_0000
  {
  }

  /** An unsigned literal's text is left alone by lower-casing. */
  lemma UnsignedSource(n: nat, variant: Variant)
    ensures Source(DecimalDigits(n) + "u", variant) == DecimalDigits(n) + "u"
  {
    if variant == LowerCasing {
      assert DecimalString(n) == DecimalDigits(n);
      LowerOfDecimal(n, "u");
    }
  }

  /** An unsigned decimal literal below 2^32, marked `u`, reads back as its 32-bit two's-complement value. */
  lemma UnsignedIntRoundTrip(n: nat, variant: Variant)
    requires n < 0x1_0000_0000
    ensures ParseNumberText(DecimalDigits(n) + "u", ParseInt, ParseUnsignedInt, 'i', variant) == Ok(Wrap32(n))
  {
    var d := DecimalDigits(n);
    var s := d + "u";
    UnsignedSource(n, variant);
    ShapeOfUnsigned(n, 'i');
    var sh := Shape(|d|, true, false, 10, 0);
    assert DigitText(s, sh) == d by { assert s[0..|d|] == d; assert "" + d == d; }
    UnsignedIntDigits(n);
    ReadsAs(s, ParseUnsignedInt, ParseInt, ParseUnsignedInt, 'i', variant, s, sh, d, Wrap32(n));
  }

  /** A leading minus together with the unsigned marker and the type suffix is rejected. */
  lemma MinusWithUnsignedRejected(body: string, signed: ParseFunc, unsigned: ParseFunc, suffix: char, variant: Variant)
    requires 'a' <= suffix <= 'z' && suffix != 'u'
    ensures ReadLiteral("-" + body + "u" + [suffix], signed, unsigned, suffix, variant, false) == Err(SerializeException)
  {
    var s := "-" + body + "u" + [suffix];
    var l := Source(s, variant);
    assert l[0] == '-' && l[|s| - 2] == 'u' && l[|s| - 1] == suffix;
    assert SuffixEnd(l, suffix) == |s| - 1;
  }

  /** A leading minus together with the unsigned marker alone is rejected. */
  lemma MinusWithUnsignedMarkerRejected(body: string, signed: ParseFunc, unsigned: ParseFunc, suffix: char, variant: Variant)
    requires 'a' <= suffix <= 'z' && suffix != 'u'
    ensures ReadLiteral("-" + body + "u", signed, unsigned, suffix, variant, false) == Err(SerializeException)
  {
    var t := "-" + body + "u";
    var lt := Source(t, variant);
    assert lt[0] == '-' && lt[|t| - 1] == 'u';
    assert SuffixEnd(lt, suffix) == |t|;
  }

  /** The byte reader drops a trailing `b` as the type suffix, so a hex literal ending in the digit b loses it. */
  lemma ByteSuffixSwallowsHexDigit()
    ensures ReadLiteral("0x1b", ParseByte, ParseByte, 'b', LowerCasing, false) == Ok(1)
  {
    assert Source("0x1b", LowerCasing) == "0x1b";
    var sh := Shape(3, false, false, 16, 2);
    assert SuffixEnd("0x1b", 'b') == 3;
    assert ShapeOf("0x1b", 'b') == sh;
    assert DigitText("0x1b", sh) == "1";
    assert DigitsValue("1", 16) == 1 by { assert "1"[..0] == ""; }
    assert Apply(ParseByte, "1", 16) == Ok(1);
    ReadsOutcome("0x1b", ParseByte, ParseByte, ParseByte, 'b', LowerCasing, "0x1b", sh, "1", Ok(1));
  }

  /** `0b` on its own is taken as a binary prefix followed by the suffix, and overruns its digits. */
  lemma BinaryPrefixOverruns()
    ensures ReadLiteral("0b", ParseByte, ParseByte, 'b', LowerCasing, false) == Err(IndexOutOfBoundsException)
    ensures ParseNumberText("0b", ParseByte, ParseByte, 'b', LowerCasing) == Err(SerializeException)
  {
    assert Source("0b", LowerCasing) == "0b";
    assert SuffixEnd("0b", 'b') == 1;
    assert ShapeOf("0b", 'b') == Shape(1, false, false, 2, 2);
    Overruns("0b", ParseByte, ParseByte, 'b', LowerCasing, "0b", Shape(1, false, false, 2, 2));
  }

  /** The same overrun in the case-keeping copy, after a minus sign. */
  lemma NegativeBinaryPrefixOverruns()
    ensures ReadLiteral("-0b", ParseByte, ParseByte, 'b', CaseKeeping, false) == Err(IndexOutOfBoundsException)
  {
    assert SuffixEnd("-0b", 'b') == 2;
    assert ShapeOf("-0b", 'b') == Shape(2, false, true, 2, 3);
    Overruns("-0b", ParseByte, ParseByte, 'b', CaseKeeping, "-0b", Shape(2, false, true, 2, 3));
  }

  /**
   * Only the byte suffix `b` can end a radix prefix, so a literal of any
   * other type never overruns its digits and both readings agree on it.
   */
  lemma OverrunNeedsBinarySuffix(input: string, suffix: char, variant: Variant)
    requires 'a' <= suffix <= 'z' && suffix != 'u' && suffix != 'x' && suffix != 'b'
    ensures !PrefixOverrun(input, suffix, variant)
  {
    var s := Source(input, variant);
    var end0 := SuffixEnd(s, suffix);
    var isUnsigned := UnsignedMarked(s, end0);
    var end := if isUnsigned then end0 - 1 else end0;
    var at := if (end > 0 && s[0] == '-') || (end > 0 && s[0] == '+') then 1 else 0;
    assert 'A' <= UpperChar(suffix) <= 'Z';
    if TwoCharsAt(s, at, '0', 'x') || TwoCharsAt(s, at, '0', 'b') {
      assert s[at + 1] != suffix && s[at + 1] != UpperChar(suffix) && s[at + 1] != 'u';
      assert at + 2 <= end;
    } else if 0 <= at < |s| && s[at] == '#' {
      assert at + 1 <= end;
    }
  }

  /** `Byte.parseByte("41", 16)`. */
  lemma HexFortyOne()
    ensures Apply(ParseByte, "41", 16) == Ok(65)
  {
    assert DigitsValue("41", 16) == 65 by {
      assert "41"[..1] == "4";
      assert "4"[..0] == "";
    }
  }

  /** The lower-casing copy reads `0X41` and `0x41` as hex. */
  lemma UpperHexPrefixLowered()
    ensures ParseNumberText("0X41", ParseByte, ParseByte, 'b', LowerCasing) == Ok(65)
    ensures ParseNumberText("0x41", ParseByte, ParseByte, 'b', LowerCasing) == Ok(65)
  {
    assert Source("0X41", LowerCasing) == "0x41";
    assert Source("0x41", LowerCasing) == "0x41";
    var sh := Shape(4, false, false, 16, 2);
    assert SuffixEnd("0x41", 'b') == 4;
    assert ShapeOf("0x41", 'b') == sh;
    assert DigitText("0x41", sh) == "41";
    HexFortyOne();
    ReadsAs("0X41", ParseByte, ParseByte, ParseByte, 'b', LowerCasing, "0x41", sh, "41", 65);
    ReadsAs("0x41", ParseByte, ParseByte, ParseByte, 'b', LowerCasing, "0x41", sh, "41", 65);
  }

  /** The case-keeping copy reads `0x41` as hex but rejects `0X41`. */
  lemma UpperHexPrefixKept()
    ensures ParseNumberText("0x41", ParseByte, ParseByte, 'b', CaseKeeping) == Ok(65)
    ensures ParseNumberText("0X41", ParseByte, ParseByte, 'b', CaseKeeping) == Err(SerializeException)
  {
    var sh := Shape(4, false, false, 16, 2);
    assert SuffixEnd("0x41", 'b') == 4;
    assert ShapeOf("0x41", 'b') == sh;
    assert DigitText("0x41", sh) == "41";
    HexFortyOne();
    ReadsAs("0x41", ParseByte, ParseByte, ParseByte, 'b', CaseKeeping, "0x41", sh, "41", 65);
    var sh2 := Shape(4, false, false, 10, 0);
    assert SuffixEnd("0X41", 'b') == 4;
    assert ShapeOf("0X41", 'b') == sh2;
    assert DigitText("0X41", sh2) == "0X41";
    assert !AllDigits("0X41", 10) by { assert DigitOf("0X41"[1]) == 33; }
  }
}
