// Java language facts that every part of the model shares: exceptions as
// results, fixed-width integer wrap-around, classes with their supertypes,
// generic types, and the runtime values the converters dispatch on.
module JavaLang {

  datatype Option<T> = None | Some(value: T)

  /** The exception a Java operation ends with. `Wrapped` is a RuntimeException around a cause. */
  datatype Exception =
    | SerializeException
    | ConversionFailedException
    | CoercionFailedException
    | ConverterNotFoundException
    | SerializerNotFoundException
    | IllegalArgumentException
    | IllegalStateException
    | NullPointerException
    | ClassCastException
    | NumberFormatException
    | IndexOutOfBoundsException
    | AbortException
    | UnsupportedOperationException
    | RuntimeException
    | Wrapped(cause: Exception)

  /** NumberFormatException is a subclass of IllegalArgumentException. */
  predicate IsIllegalArgument(e: Exception) {
    e == IllegalArgumentException || e == NumberFormatException
  }

  datatype Result<T> = Ok(value: T) | Err(error: Exception)

  // ---------------------------------------------------------------------
  // Fixed-width integers

  predicate InByte(v: int) { -0x80 <= v < 0x80 }
  predicate InShort(v: int) { -0x8000 <= v < 0x8000 }
  predicate InInt(v: int) { -0x8000_0000 <= v < 0x8000_0000 }
  predicate InLong(v: int) { -0x8000_0000_0000_0000 <= v < 0x8000_0000_0000_0000 }

  /** A narrowing cast to `byte`: the low 8 bits read as two's complement. */
  function Wrap8(v: int): (r: int)
    ensures InByte(r) && (v - r) % 0x100 == 0
    ensures InByte(v) ==> r == v
  {
    var m := v % 0x100; if m < 0x80 then m else m - 0x100
  }

  /** A narrowing cast to `short`. */
  function Wrap16(v: int): (r: int)
    ensures InShort(r) && (v - r) % 0x1_0000 == 0
    ensures InShort(v) ==> r == v
  {
    var m := v % 0x1_0000; if m < 0x8000 then m else m - 0x1_0000
  }

  /** A narrowing cast to `int`. */
  function Wrap32(v: int): (r: int)
    ensures InInt(r) && (v - r) % 0x1_0000_0000 == 0
    ensures InInt(v) ==> r == v
  {
    var m := v % 0x1_0000_0000; if m < 0x8000_0000 then m else m - 0x1_0000_0000
  }

  /** A narrowing cast to `long`, also the result of `long` arithmetic that overflows. */
  function Wrap64(v: int): (r: int)
    ensures InLong(r) && (v - r) % 0x1_0000_0000_0000_0000 == 0
    ensures InLong(v) ==> r == v
  {
    var m := v % 0x1_0000_0000_0000_0000;
    if m < 0x8000_0000_0000_0000 then m else m - 0x1_0000_0000_0000_0000
  }

  /** A `long` read as an unsigned 64-bit value. */
  function Unsigned64(v: int): (u: nat)
    requires InLong(v)
    ensures u < 0x1_0000_0000_0000_0000 && Wrap64(u) == v
  {
    if v < 0 then v + 0x1_0000_0000_0000_0000 else v
  }

  // ---------------------------------------------------------------------
  // Classes and generic types

  /** A Java class: its name and the names of all its proper supertypes. */
  datatype Cls = Cls(name: string, supers: set<string>)

  /** `target.isAssignableFrom(source)`. */
  predicate IsAssignableFrom(target: Cls, source: Cls) {
    target.name == source.name || target.name in source.supers
  }

  const OBJECT := Cls("java.lang.Object", {})
  const NUMBER := Cls("java.lang.Number", {"java.lang.Object"})
  const CHAR_SEQUENCE := Cls("java.lang.CharSequence", {"java.lang.Object"})
  const BYTE := Cls("java.lang.Byte", {"java.lang.Number", "java.lang.Object"})
  const SHORT := Cls("java.lang.Short", {"java.lang.Number", "java.lang.Object"})
  const INTEGER := Cls("java.lang.Integer", {"java.lang.Number", "java.lang.Object"})
  const LONG := Cls("java.lang.Long", {"java.lang.Number", "java.lang.Object"})
  const FLOAT := Cls("java.lang.Float", {"java.lang.Number", "java.lang.Object"})
  const DOUBLE := Cls("java.lang.Double", {"java.lang.Number", "java.lang.Object"})
  const BIG_INTEGER := Cls("java.math.BigInteger", {"java.lang.Number", "java.lang.Object"})
  const BIG_DECIMAL := Cls("java.math.BigDecimal", {"java.lang.Number", "java.lang.Object"})
  const BOOLEAN := Cls("java.lang.Boolean", {"java.lang.Object"})
  const CHARACTER := Cls("java.lang.Character", {"java.lang.Object"})
  const VOID := Cls("java.lang.Void", {"java.lang.Object"})
  const STRING := Cls("java.lang.String", {"java.lang.CharSequence", "java.lang.Object"})
  const LONG_ARRAY := Cls("long[]", {"java.lang.Object"})
  const ENUM := Cls("java.lang.Enum", {"java.lang.Object"})
  const COLLECTION := Cls("java.util.Collection", {"java.lang.Iterable", "java.lang.Object"})
  const LIST := Cls("java.util.List", {"java.util.Collection", "java.lang.Iterable", "java.lang.Object"})
  const SET := Cls("java.util.Set", {"java.util.Collection", "java.lang.Iterable", "java.lang.Object"})
  const MAP := Cls("java.util.Map", {"java.lang.Object"})
  const STRING_BUILDER := Cls("java.lang.StringBuilder", {"java.lang.CharSequence", "java.lang.Object"})
  const ATOMIC_INTEGER := Cls("java.util.concurrent.atomic.AtomicInteger", {"java.lang.Number", "java.lang.Object"})
  const ATOMIC_LONG := Cls("java.util.concurrent.atomic.AtomicLong", {"java.lang.Number", "java.lang.Object"})

  /** A type as the reflection API sees it: a plain class, a parameterised type or a wildcard. */
  datatype Type =
    | ClassType(cls: Cls)
    | Parameterized(raw: Cls, args: seq<Type>)
    | WildcardType(upper: seq<Type>)

  /** The erasure of a type: the class that represents it at run time. */
  function Erase(t: Type): Cls
  {
    match t
    case ClassType(c) => c
    case Parameterized(c, _) => c
    case WildcardType(upper) => if |upper| == 0 then OBJECT else Erase(upper[0])
  }

  /**
   * `isSuperType(sup, sub)` of the reflection library the source uses. The
   * model compares erasures and makes type arguments invariant.
   */
  predicate IsSuperType(sup: Type, sub: Type)
  {
    match sup
    case ClassType(c) => IsAssignableFrom(c, Erase(sub))
    case Parameterized(c, args) =>
      sub.Parameterized? && IsAssignableFrom(c, sub.raw) && sub.args == args
    case WildcardType(_) => false
  }

  // ---------------------------------------------------------------------
  // Runtime values

  /**
   * The concrete class of an integral `Number`. `OtherNum` is any other
   * Number class whose `longValue()` and `intValue()` narrow one `long`
   * value, such as AtomicInteger, AtomicLong or a class of the application.
   */
  datatype NumKind = ByteNum | ShortNum | IntNum | LongNum | BigIntegerNum | BigDecimalNum | OtherNum(cls: Cls)

  /** The names of the Number classes of the JDK that have a kind or a class of their own. */
  const JDK_NUMBERS: set<string> :=
    {"java.lang.Byte", "java.lang.Short", "java.lang.Integer", "java.lang.Long",
     "java.lang.Float", "java.lang.Double", "java.math.BigInteger", "java.math.BigDecimal"}

  /**
   * A Java object as the converters see it. A number carries its exact value;
   * a BigDecimal has an integral value here. A character is a UTF-16 code
   * unit. Any other object has its class and what its `toString` returns.
   */
  datatype JObject =
    | JNumber(kind: NumKind, value: int)
    | JBoolean(b: bool)
    | JCharacter(unit: int)
    | JText(text: string)
    | JLongArray(elems: seq<int>)
    | JOther(cls: Cls, text: string)

  /**
   * The values a well-formed object of each class can hold. Every Number is
   * a `JNumber`, so a `JOther` is of no Number class, and neither of Boolean,
   * Character, String or `long[]`, which have constructors of their own.
   */
  predicate WellFormed(o: JObject)
  {
    match o
    case JNumber(k, v) =>
      (match k
       case ByteNum => InByte(v)
       case ShortNum => InShort(v)
       case IntNum => InInt(v)
       case LongNum => InLong(v)
       case OtherNum(c) => InLong(v) && IsAssignableFrom(NUMBER, c) && c.name !in JDK_NUMBERS
       case _ => true)
    case JCharacter(u) => 0 <= u < 0x1_0000
    case JLongArray(es) => forall i :: 0 <= i < |es| ==> InLong(es[i])
    case JOther(c, _) =>
      !IsAssignableFrom(NUMBER, c) && !IsAssignableFrom(BOOLEAN, c) && !IsAssignableFrom(CHARACTER, c)
      && !IsAssignableFrom(STRING, c) && !IsAssignableFrom(LONG_ARRAY, c)
    case _ => true
  }

  /** `Number.class.isAssignableFrom(o.getClass())`, that is `o instanceof Number`. */
  predicate IsNumber(o: JObject) {
    IsAssignableFrom(NUMBER, ClassOf(o))
  }

  /** `CharSequence.class.isAssignableFrom(o.getClass())`, that is `o instanceof CharSequence`. */
  predicate IsCharSequence(o: JObject) {
    IsAssignableFrom(CHAR_SEQUENCE, ClassOf(o))
  }

  /**
   * The readers test `o.JNumber?` where the source tests `instanceof Number`:
   * on well-formed objects the two agree. A String is a CharSequence, and so
   * is any `JOther` whose class implements it.
   */
  lemma NumbersAreJNumbers(o: JObject)
    requires WellFormed(o)
    ensures IsNumber(o) <==> o.JNumber?
    ensures o.JText? ==> IsCharSequence(o)
    ensures o.JBoolean? || o.JCharacter? || o.JLongArray? ==> !IsCharSequence(o)
  {
  }

  function KindClass(k: NumKind): Cls
  {
    match k
    case ByteNum => BYTE
    case ShortNum => SHORT
    case IntNum => INTEGER
    case LongNum => LONG
    case BigIntegerNum => BIG_INTEGER
    case BigDecimalNum => BIG_DECIMAL
    case OtherNum(c) => c
  }

  /** `o.getClass()`. */
  function ClassOf(o: JObject): Cls
  {
    match o
    case JNumber(k, _) => KindClass(k)
    case JBoolean(_) => BOOLEAN
    case JCharacter(_) => CHARACTER
    case JText(_) => STRING
    case JLongArray(_) => LONG_ARRAY
    case JOther(c, _) => c
  }

  /** `Number.longValue()`: the value narrowed to 64 bits. */
  function LongValue(o: JObject): (r: int)
    requires o.JNumber?
    ensures InLong(r)
  {
    Wrap64(o.value)
  }

  // ---------------------------------------------------------------------
  // Text

  /** The decimal digits of a natural number, without sign or leading zeros. */
  function DecimalDigits(n: nat): (s: string)
    ensures |s| > 0 && (forall i :: 0 <= i < |s| ==> '0' <= s[i] <= '9')
    ensures s[0] == '0' <==> n == 0
  {
    if n < 10 then [Digit(n)] else DecimalDigits(n / 10) + [Digit(n % 10)]
  }

  function Digit(d: nat): (c: char)
    requires d < 10
    ensures '0' <= c <= '9'
  {
    ['0', '1', '2', '3', '4', '5', '6', '7', '8', '9'][d]
  }

  /** `Long.toString(v)` and friends: the decimal form with a leading `-` for negatives. */
  function DecimalString(v: int): string
  {
    if v < 0 then "-" + DecimalDigits(-v) else DecimalDigits(v)
  }

  /** `o.toString()`. Characters are listed as U+FFFD when the code unit is a surrogate. */
  function ToString(o: JObject): string
  {
    match o
    case JNumber(_, v) => DecimalString(v)
    case JBoolean(b) => if b then "true" else "false"
    case JCharacter(u) => [UnitChar(u)]
    case JText(s) => s
    case JLongArray(_) => "[J@0"
    case JOther(_, s) => s
  }

  /** The character of a BMP code unit that is not a surrogate. */
  function UnitChar(u: int): char
  {
    if 0 <= u < 0xD800 || 0xE000 <= u < 0x1_0000 then u as char else '�'
  }

  /** `toLowerCase(Locale.ROOT)` on ASCII letters; other characters are unchanged. */
  function Lower(s: string): (r: string)
    ensures |r| == |s|
  {
    seq(|s|, i requires 0 <= i < |s| => LowerChar(s[i]))
  }

  function LowerChar(c: char): char
  {
    if 'A' <= c <= 'Z' then (c as int + 32) as char else c
  }

  function UpperChar(c: char): char
  {
    if 'a' <= c <= 'z' then (c as int - 32) as char else c
  }

  /** `s.endsWith(t)`. */
  predicate EndsWith(s: string, t: string) {
    |t| <= |s| && s[|s| - |t|..] == t
  }

  /** `s.startsWith(t, from)`. */
  predicate StartsWithAt(s: string, t: string, from: int) {
    0 <= from && from + |t| <= |s| && s[from..from + |t|] == t
  }

  /** The UTF-16 code units of a string. */
  function Units(s: string): (r: seq<int>)
    ensures forall i :: 0 <= i < |r| ==> 0 <= r[i] < 0x1_0000
  {
    if s == [] then []
    else
      var c := s[0] as int;
      (if c < 0x1_0000 then [c]
       else [0xD800 + (c - 0x1_0000) / 0x400, 0xDC00 + (c - 0x1_0000) % 0x400]) + Units(s[1..])
  }

  /** A hexadecimal digit of either case. */
  predicate IsHexChar(c: char) {
    '0' <= c <= '9' || 'a' <= c <= 'f' || 'A' <= c <= 'F'
  }

  function HexCharValue(c: char): (d: nat)
    requires IsHexChar(c)
    ensures d < 16
  {
    if c <= '9' then c as int - '0' as int
    else if c <= 'F' then c as int - 'A' as int + 10
    else c as int - 'a' as int + 10
  }

  /** The value of a string of hexadecimal digits, most significant first. */
  function HexValue(s: string): (n: nat)
    requires forall i :: 0 <= i < |s| ==> IsHexChar(s[i])
  {
    if s == [] then 0 else HexValue(s[..|s| - 1]) * 16 + HexCharValue(s[|s| - 1])
  }

  function Pow16(k: nat): (p: nat)
    ensures p >= 1
  {
    if k == 0 then 1 else 16 * Pow16(k - 1)
  }

  lemma LowerIdempotent(s: string)
    ensures Lower(Lower(s)) == Lower(s)
  {
  }
}
