// `StringSerializer` of the serializer package. A Java string is a sequence
// of UTF-16 code units (ints in [0, 0x10000)); the numeric form packs them
// sixteen bits at a time into a `long`.
module StringCodec {
  import opened JavaLang

  predicate IsUnits(s: seq<int>) {
    forall i :: 0 <= i < |s| ==> 0 <= s[i] < 0x1_0000
  }

  /**
   * The `long` that `serializeToNumber` accumulates: each step shifts left by
   * sixteen bits and adds the code unit read as a `short`, with `long`
   * wrap-around.
   */
  function Packed(units: seq<int>): (n: int)
    ensures InLong(n)
  {
    if units == [] then 0
    else Wrap64(Wrap64(Packed(units[..|units| - 1]) * 0x1_0000) + Wrap16(units[|units| - 1]))
  }

  /** The code units `deserializeFromNumber` emits for an unsigned 64-bit value, most significant first. */
  function Unpacked(u: nat): (s: seq<int>)
    ensures IsUnits(s)
    ensures |s| == 0 <==> u == 0
  {
    if u == 0 then [] else Unpacked(u / 0x1_0000) + [u % 0x1_0000]
  }

  function Reversed(s: seq<int>): (r: seq<int>)
    ensures |r| == |s|
    ensures forall i :: 0 <= i < |s| ==> r[i] == s[|s| - 1 - i]
  {
    if s == [] then [] else Reversed(s[1..]) + [s[0]]
  }

  predicate IsHighSurrogate(u: int) {
    0xD800 <= u <= 0xDBFF
  }

  predicate IsLowSurrogate(u: int) {
    0xDC00 <= u <= 0xDFFF
  }

  /**
   * The pass `StringBuilder.reverse()` makes after reversing the code units:
   * scanning from the left, a low surrogate followed by a high one is swapped
   * back, so that each surrogate pair keeps its order.
   */
  function PairsRestored(s: seq<int>): (r: seq<int>)
    ensures |r| == |s|
    ensures IsUnits(s) ==> IsUnits(r)
    ensures (forall i :: 0 <= i < |s| ==> !IsLowSurrogate(s[i])) ==> r == s
  {
    if |s| >= 2 && IsLowSurrogate(s[0]) && IsHighSurrogate(s[1]) then [s[1], s[0]] + PairsRestored(s[2..])
    else if s == [] then []
    else [s[0]] + PairsRestored(s[1..])
  }

  /** `StringBuilder.reverse()`: the code units in reverse order, surrogate pairs kept in order. */
  function BuilderReversed(s: seq<int>): (r: seq<int>)
    ensures |r| == |s|
    ensures (forall i :: 0 <= i < |s| ==> !IsLowSurrogate(s[i])) ==> r == Reversed(s)
  {
    PairsRestored(Reversed(s))
  }

  /** `serializeToNumber`. */
  method SerializeToNumber(value: seq<int>) returns (number: int)
    ensures number == Packed(value)
  {
    number := 0;
    var i := 0;
    while i < |value|
      invariant 0 <= i <= |value|
      invariant number == Packed(value[..i])
    {
      assert value[..i + 1][..i] == value[..i];
      number := Wrap64(number * 0x1_0000);
      number := Wrap64(number + Wrap16(value[i]));
      i := i + 1;
    }
    assert value[..|value|] == value;
  }

  /**
   * `deserializeFromNumber`: the low sixteen bits are appended while the
   * value is not zero, with an unsigned shift in between, and the builder is
   * reversed at the end.
   */
  method DeserializeFromNumber(value: int) returns (r: seq<int>)
    ensures r == PairsRestored(Unpacked(Unsigned64(Wrap64(value))))
  {
    var l := Wrap64(value);
    var builder: seq<int> := [];
    while l != 0
      invariant InLong(l)
      invariant Unpacked(Unsigned64(Wrap64(value))) == Unpacked(Unsigned64(l)) + Reversed(builder)
      decreases Unsigned64(l)
    {
      var u := Unsigned64(l);
      builder := builder + [u % 0x1_0000];
      l := u / 0x1_0000;
      assert Unsigned64(l) == u / 0x1_0000;
      assert Reversed(builder) == [u % 0x1_0000] + Reversed(builder[..|builder| - 1]) by {
        assert builder[..|builder| - 1] + [u % 0x1_0000] == builder;
        ReversedSnoc(builder[..|builder| - 1], u % 0x1_0000);
      }
    }
    assert Unpacked(Unsigned64(Wrap64(value))) == Reversed(builder) by {
      assert Unpacked(Unsigned64(l)) + Reversed(builder) == Reversed(builder);
    }
    r := BuilderReversed(builder);
  }

  /**
   * `deserializeFromNumber` as the rest of the model uses it: the units of
   * the number's 64 bits, most significant first, with any low surrogate
   * followed by a high one swapped by the reversal's pair fix-up.
   */
  function NumberText(value: int): (s: seq<int>)
    ensures IsUnits(s)
    ensures |s| == |Unpacked(Unsigned64(Wrap64(value)))|
  {
    PairsRestored(Unpacked(Unsigned64(Wrap64(value))))
  }

  /**
   * `StringSerializer.serialize`: the string itself when String is supported;
   * otherwise, for at most one code unit, the packed number narrowed to the
   * first supported of Short, Integer and Long.
   */
  function Serialize(value: string, supported: set<Cls>): (r: Result<JObject>)
    ensures STRING in supported ==> r == Ok(JText(value))
    ensures r.Err? <==> STRING !in supported && (|Units(value)| > 1 || supported !! {SHORT, INTEGER, LONG})
    ensures r.Err? ==> r.error == SerializeException
    ensures STRING !in supported && |Units(value)| <= 1 && SHORT in supported ==>
              r == Ok(JNumber(ShortNum, Wrap16(Packed(Units(value)))))
    ensures STRING !in supported && |Units(value)| <= 1 && SHORT !in supported && INTEGER in supported ==>
              r == Ok(JNumber(IntNum, Wrap32(Packed(Units(value)))))
    ensures STRING !in supported && |Units(value)| <= 1 && SHORT !in supported && INTEGER !in supported && LONG in supported ==>
              r == Ok(JNumber(LongNum, Packed(Units(value))))
    ensures r.Ok? ==> WellFormed(r.value) && ClassOf(r.value) in supported
  {
    var units := Units(value);
    if STRING in supported then Ok(JText(value))
    else if SHORT in supported && |units| <= 1 then Ok(JNumber(ShortNum, Wrap16(Packed(units))))
    else if INTEGER in supported && |units| <= 1 then Ok(JNumber(IntNum, Wrap32(Packed(units))))
    else if LONG in supported && |units| <= 1 then Ok(JNumber(LongNum, Packed(units)))
    else Err(SerializeException)
  }

  /**
   * `StringSerializer.deserialize`: any CharSequence through its text, then a
   * Number through `deserializeFromNumber`, then a Character as the
   * one-character string; anything else is a SerializeException.
   */
  function Deserialize(o: JObject): (r: Result<seq<int>>)
    ensures IsCharSequence(o) ==> r == Ok(Units(ToString(o)))
    ensures !IsCharSequence(o) && o.JNumber? ==> r == Ok(NumberText(o.value))
    ensures !IsCharSequence(o) && o.JCharacter? ==> r == Ok([o.unit])
    ensures r.Err? <==> !(IsCharSequence(o) || o.JNumber? || o.JCharacter?)
    ensures r.Err? ==> r.error == SerializeException
  {
    if IsCharSequence(o) then Ok(Units(ToString(o)))
    else if o.JNumber? then Ok(NumberText(o.value))
    else if o.JCharacter? then Ok([o.unit])
    else Err(SerializeException)
  }

  // ---------------------------------------------------------------------
  // Properties

  lemma ReversedSnoc(s: seq<int>, x: int)
    ensures Reversed(s + [x]) == [x] + Reversed(s)
  {
  }

  /** The code units of a short string, each in 1..0x7FFF: small enough that nothing wraps. */
  predicate ShortPackable(units: seq<int>) {
    |units| <= 4 && forall i :: 0 <= i < |units| ==> 1 <= units[i] <= 0x7FFF
  }

  /** The exact value `serializeToNumber` computes when nothing wraps. */
  function PositionalValue(units: seq<int>): nat
    requires forall i :: 0 <= i < |units| ==> 0 <= units[i]
  {
    if units == [] then 0 else PositionalValue(units[..|units| - 1]) * 0x1_0000 + units[|units| - 1]
  }

  /** The base-65536 value of small units stays below half the next power, so it fits a signed `long`. */
  lemma {:induction false} PositionalBound(units: seq<int>)
    requires ShortPackable(units)
    ensures 2 * PositionalValue(units) < Pow65536(|units|)
  {
    if units != [] {
      var p := units[..|units| - 1];
      PositionalBound(p);
      var q := PositionalValue(p);
      assert 2 * q + 1 <= Pow65536(|p|);
      assert 2 * q * 0x1_0000 + 0x1_0000 <= Pow65536(|p|) * 0x1_0000;
    }
  }

  function Pow65536(k: nat): (p: nat)
    ensures p >= 1
  {
    if k == 0 then 1 else 0x1_0000 * Pow65536(k - 1)
  }

  lemma PowAtMostFour(k: nat)
    requires k <= 4
    ensures Pow65536(k) <= 0x1_0000_0000_0000_0000
  {
    assert Pow65536(4) == 0x1_0000_0000_0000_0000;
    if k < 4 {
      assert Pow65536(k) <= Pow65536(3) by {
        assert Pow65536(1) <= Pow65536(2) <= Pow65536(3);
      }
    }
  }

  /** For a short string of small units, `serializeToNumber` is the plain base-65536 value. */
  lemma {:induction false} PackedIsPositional(units: seq<int>)
    requires ShortPackable(units)
    ensures Packed(units) == PositionalValue(units)
  {
    if units != [] {
      var p := units[..|units| - 1];
      var c := units[|units| - 1];
      assert ShortPackable(p);
      PackedIsPositional(p);
      PositionalBound(units);
      PowAtMostFour(|units|);
      var q := PositionalValue(p);
      assert q * 0x1_0000 + c == PositionalValue(units);
      assert 0 <= q * 0x1_0000 < 0x8000_0000_0000_0000;
      assert Wrap64(q * 0x1_0000) == q * 0x1_0000;
      assert Wrap16(c) == c;
    }
  }

  /** Unpacking a base-65536 value with a non-zero leading unit gives the units back. */
  lemma {:induction false} UnpackPositional(units: seq<int>)
    requires forall i :: 0 <= i < |units| ==> 1 <= units[i] < 0x1_0000
    ensures Unpacked(PositionalValue(units)) == units
  {
    if units != [] {
      var p := units[..|units| - 1];
      UnpackPositional(p);
      var n := PositionalValue(units);
      assert n / 0x1_0000 == PositionalValue(p);
      assert n % 0x1_0000 == units[|units| - 1];
      assert p + [units[|units| - 1]] == units;
    }
  }

  /** For at most four characters, each in 0x0001..0x7FFF, the number round trip gives the string back. */
  lemma NumberRoundTrip(units: seq<int>)
    requires ShortPackable(units)
    ensures NumberText(Packed(units)) == units
  {
    PackedIsPositional(units);
    UnpackPositional(units);
  }

  /** `x` and `y` agree in their low sixteen bits. */
  predicate SameLowBits(x: int, y: int) {
    (x - y) % 0x1_0000 == 0
  }

  lemma SameLowBitsFrom64(x: int, y: int)
    requires (x - y) % 0x1_0000_0000_0000_0000 == 0
    ensures SameLowBits(x, y)
  {
    var k := (x - y) / 0x1_0000_0000_0000_0000;
    assert x - y == (k * 0x1_0000_0000_0000) * 0x1_0000;
  }

  lemma SameLowBitsTrans(x: int, y: int, z: int)
    requires SameLowBits(x, y) && SameLowBits(y, z)
    ensures SameLowBits(x, z)
  {
    var a := (x - y) / 0x1_0000;
    var b := (y - z) / 0x1_0000;
    assert x - z == (a + b) * 0x1_0000;
  }

  lemma SameLowBitsSym(x: int, y: int)
    requires SameLowBits(x, y)
    ensures SameLowBits(y, x)
  {
    var k := (x - y) / 0x1_0000;
    assert y - x == (-k) * 0x1_0000;
  }

  lemma SameLowBitsAdd(a: int, b: int, w: int)
    requires SameLowBits(a, b)
    ensures SameLowBits(a + w, b + w)
  {
    assert (a + w) - (b + w) == a - b;
  }

  lemma ShiftedHasZeroLowBits(p: int)
    ensures SameLowBits(Wrap64(p * 0x1_0000), 0)
  {
    var x := p * 0x1_0000;
    var w := Wrap64(x);
    var j := (x - w) / 0x1_0000_0000_0000_0000;
    assert x - w == j * 0x1_0000_0000_0000_0000;
    assert w == (p - j * 0x1_0000_0000_0000) * 0x1_0000;
  }

  lemma LowBitsValue(x: int, c: int)
    requires SameLowBits(x, c) && 0 <= c < 0x1_0000
    ensures x % 0x1_0000 == c
  {
    var k := (x - c) / 0x1_0000;
    assert x == k * 0x1_0000 + c;
  }

  /** One step of `serializeToNumber` puts the new unit in the low sixteen bits. */
  lemma StepLowBits(p: int, c: int)
    requires 0 <= c < 0x1_0000
    ensures Unsigned64(Wrap64(Wrap64(p * 0x1_0000) + Wrap16(c))) % 0x1_0000 == c
  {
    var a := Wrap64(p * 0x1_0000);
    var w := Wrap16(c);
    var n := Wrap64(a + w);
    SameLowBitsFrom64(Unsigned64(n), n);
    SameLowBitsFrom64(n, a + w);
    ShiftedHasZeroLowBits(p);
    SameLowBitsAdd(a, 0, w);
    SameLowBitsSym(c, w);
    SameLowBitsTrans(Unsigned64(n), n, a + w);
    SameLowBitsTrans(Unsigned64(n), a + w, w);
    SameLowBitsTrans(Unsigned64(n), w, c);
    LowBitsValue(Unsigned64(n), c);
  }

  /** The last character always lands in the low sixteen bits of the number. */
  lemma LastUnitInLowBits(units: seq<int>)
    requires IsUnits(units) && units != []
    ensures Unsigned64(Packed(units)) % 0x1_0000 == units[|units| - 1]
  {
    StepLowBits(Packed(units[..|units| - 1]), units[|units| - 1]);
  }

  lemma PackedOneToFour()
    ensures Packed([1, 2, 3, 4]) == 0x0001_0002_0003_0004
  {
    assert [1][..0] == [];
    assert Packed([1]) == 1;
    assert [1, 2][..1] == [1];
    assert Packed([1, 2]) == 0x0001_0002;
    assert [1, 2, 3][..2] == [1, 2];
    assert Packed([1, 2, 3]) == 0x0001_0002_0003;
    assert [1, 2, 3, 4][..3] == [1, 2, 3];
  }

  lemma UnpackTwoToFive()
    ensures Unpacked(0x0002_0003_0004_0005) == [2, 3, 4, 5]
  {
    var tail := [2, 3, 4, 5];
    assert tail[..3] == [2, 3, 4];
    assert [2, 3, 4][..2] == [2, 3];
    assert [2, 3][..1] == [2];
    assert [2][..0] == [];
    assert PositionalValue(tail) == 0x0002_0003_0004_0005;
    UnpackPositional(tail);
  }

  /** A fifth character pushes the first one out of the 64 bits. */
  lemma FifthCharacterDropsFirst()
    ensures NumberText(Packed([1, 2, 3, 4, 5])) == [2, 3, 4, 5]
  {
    PackedOneToFour();
    assert [1, 2, 3, 4, 5][..4] == [1, 2, 3, 4];
    assert Wrap64(0x0001_0002_0003_0004 * 0x1_0000) == 0x0002_0003_0004_0000;
    assert Packed([1, 2, 3, 4, 5]) == 0x0002_0003_0004_0005;
    UnpackTwoToFive();
  }

  /** A single character at or above 0x8000 is sign-extended, so it comes back with three 0xFFFF units before it. */
  lemma HighCharacterSignExtends()
    ensures NumberText(Packed([0x8000])) == [0xFFFF, 0xFFFF, 0xFFFF, 0x8000]
  {
    var units := [0xFFFF, 0xFFFF, 0xFFFF, 0x8000];
    assert Packed([0x8000]) == -0x8000 by {
      assert [0x8000][..0] == [];
    }
    assert Unsigned64(Wrap64(-0x8000)) == 0xFFFF_FFFF_FFFF_8000;
    assert Unpacked(0xFFFF_FFFF_FFFF_8000) == units by {
      assert PositionalValue(units) == 0xFFFF_FFFF_FFFF_8000 by {
        assert units[..3] == [0xFFFF, 0xFFFF, 0xFFFF];
        assert [0xFFFF, 0xFFFF, 0xFFFF][..2] == [0xFFFF, 0xFFFF];
        assert [0xFFFF, 0xFFFF][..1] == [0xFFFF];
        assert [0xFFFF][..0] == [];
      }
      UnpackPositional(units);
    }
    assert forall i :: 0 <= i < |units| ==> !IsLowSurrogate(units[i]);
  }

  /** Serializing to text and deserializing gives the code units of the string back. */
  lemma TextRoundTrip(value: string, supported: set<Cls>)
    requires STRING in supported
    ensures Deserialize(Serialize(value, supported).value) == Ok(Units(value))
  {
  }

  /**
   * A number whose units, most significant first, are a low surrogate and
   * then a high one comes back with the two swapped: the reversal keeps what
   * it takes to be a surrogate pair in order.
   */
  lemma SurrogatePairKeptInOrder()
    ensures Unpacked(0xDE00_D83D) == [0xDE00, 0xD83D]
    ensures NumberText(0xDE00_D83D) == [0xD83D, 0xDE00]
  {
    assert Unpacked(0xDE00) == [0xDE00];
    assert Unpacked(0xDE00_D83D) == [0xDE00, 0xD83D];
    assert [0xDE00, 0xD83D][2..] == [];
  }

  /** The empty string packs to 0, and 0 unpacks to the empty string. */
  lemma EmptyString()
    ensures Packed([]) == 0 && NumberText(0) == []
  {
  }

  /**
   * Whatever form `serialize` picks, `deserialize` reads the code units
   * back, provided a number form carries no zero unit and none at or above
   * 0x8000, which the packing drops or sign-extends (`NulCharacterLost`,
   * `HighCharacterSignExtends`).
   */
  lemma SerializeRoundTrip(value: string, supported: set<Cls>)
    requires Serialize(value, supported).Ok?
    requires STRING !in supported ==> forall i :: 0 <= i < |Units(value)| ==> 1 <= Units(value)[i] < 0x8000
    ensures Deserialize(Serialize(value, supported).value) == Ok(Units(value))
  {
    if STRING !in supported {
      var units := Units(value);
      var o := Serialize(value, supported).value;
      if units == [] {
        assert o == JNumber(o.kind, 0);
      } else {
        SmallUnitPacked(units);
        assert o == JNumber(o.kind, units[0]);
      }
      assert !IsCharSequence(o) by {
        assert "java.lang.CharSequence" !in ClassOf(o).supers;
      }
    }
  }

  /** A single code unit in [1, 0x7FFF] packs to itself and comes back from that number. */
  lemma SmallUnitPacked(units: seq<int>)
    requires |units| == 1 && 1 <= units[0] < 0x8000
    ensures Packed(units) == units[0] && NumberText(units[0]) == units
  {
    assert Packed(units) == units[0] by {
      assert units[..0] == [];
    }
    SmallUnitText(units[0]);
    assert units == [units[0]];
  }

  lemma SmallUnitText(u: int)
    requires 1 <= u < 0x8000
    ensures NumberText(u) == [u]
  {
    assert Unsigned64(Wrap64(u)) == u;
    assert Unpacked(u) == [u] by {
      assert u / 0x1_0000 == 0;
    }
  }

  /** The character U+0000 packs to 0, which reads back as the empty string. */
  lemma NulCharacterLost()
    ensures Serialize("\0", {LONG}) == Ok(JNumber(LongNum, 0))
    ensures Deserialize(JNumber(LongNum, 0)) == Ok([])
  {
    assert Units("\0") == [0];
    assert [0][..0] == [];
  }
}
