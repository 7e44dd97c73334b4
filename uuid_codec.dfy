// `UuidDeserializer` of the serializer package: a `long[2]` is the two
// halves of the UUID; anything else is read from its `toString()`, with the
// dashes put in when the text is the 32-digit form without them.
module UuidCodec {
  import opened JavaLang

  /** A UUID: its most and least significant 64 bits, as `long`s. */
  datatype Uuid = Uuid(msb: int, lsb: int)

  predicate ValidUuid(u: Uuid) {
    InLong(u.msb) && InLong(u.lsb)
  }

  /** The positions of the four dashes of the canonical form. */
  predicate IsDashPosition(i: int) {
    i == 8 || i == 13 || i == 18 || i == 23
  }

  /** The canonical 36-character form: hex digits in groups of 8, 4, 4, 4 and 12, joined by dashes. */
  predicate Canonical(s: string) {
    |s| == 36 && forall i :: 0 <= i < 36 ==> (if IsDashPosition(i) then s[i] == '-' else IsHexChar(s[i]))
  }

  /** The 32 hex digits of a canonical form, dashes removed. */
  function DigitsOf(s: string): (d: string)
    requires Canonical(s)
    ensures |d| == 32 && forall i :: 0 <= i < 32 ==> IsHexChar(d[i])
  {
    assert forall i :: 0 <= i < 8 ==> IsHexChar(s[i]);
    s[0..8] + s[9..13] + s[14..18] + s[19..23] + s[24..36]
  }

  /**
   * `UUID.fromString` on the canonical form: the first sixteen digits are
   * the most significant half, the rest the least significant one, each
   * taken as a `long`.
   */
  function FromString(s: string): (r: Result<Uuid>)
    ensures r.Ok? <==> Canonical(s)
    ensures r.Ok? ==> ValidUuid(r.value)
    ensures r.Err? ==> r.error == IllegalArgumentException
  {
    if Canonical(s) then
      var d := DigitsOf(s);
      Ok(Uuid(Wrap64(HexValue(d[..16])), Wrap64(HexValue(d[16..]))))
    else Err(IllegalArgumentException)
  }

  /** The dashes `deserialize` puts into 32-character text: after the 8th, 12th, 16th and 20th character. */
  function Dashed(s: string): (r: string)
    requires |s| == 32
    ensures |r| == 36 && forall i :: 0 <= i < 36 && IsDashPosition(i) ==> r[i] == '-'
  {
    s[0..8] + "-" + s[8..12] + "-" + s[12..16] + "-" + s[16..20] + "-" + s[20..32]
  }

  /**
   * `UuidDeserializer.deserialize`. Text that `fromString` refuses is a
   * CoercionFailedException. The length test counts characters; only hex
   * digits can pass `fromString`, and they are one UTF-16 unit each, so
   * this agrees with Java's `length()` on every text that can succeed.
   */
  function Deserialize(o: JObject): (r: Result<Uuid>)
    ensures o.JLongArray? && |o.elems| == 2 ==> r == Ok(Uuid(o.elems[0], o.elems[1]))
    ensures !(o.JLongArray? && |o.elems| == 2) && |ToString(o)| == 36 ==>
              (r.Ok? <==> Canonical(ToString(o)))
    ensures !(o.JLongArray? && |o.elems| == 2) && |ToString(o)| == 32 ==>
              (r.Ok? <==> Canonical(Dashed(ToString(o))))
    ensures !(o.JLongArray? && |o.elems| == 2) && |ToString(o)| != 32 && |ToString(o)| != 36 ==> r.Err?
    ensures r.Err? ==> r.error == CoercionFailedException
  {
    if o.JLongArray? && |o.elems| == 2 then Ok(Uuid(o.elems[0], o.elems[1]))
    else
      var text := ToString(o);
      var uuidStr := if |text| == 32 then Dashed(text) else text;
      match FromString(uuidStr)
      case Ok(u) => Ok(u)
      case Err(_) => Err(CoercionFailedException)
  }

  // ---------------------------------------------------------------------
  // The canonical text, `UUID.toString`, as the partner of the reader

  function HexChar(d: nat): (c: char)
    requires d < 16
    ensures IsHexChar(c) && HexCharValue(c) == d
    ensures !('A' <= c <= 'F')
  {
    "0123456789abcdef"[d]
  }

  /** `w` lower-case hex digits of `n`, most significant first. */
  function HexDigits(n: nat, w: nat): (s: string)
    ensures |s| == w && forall i :: 0 <= i < w ==> IsHexChar(s[i])
  {
    if w == 0 then [] else HexDigits(n / 16, w - 1) + [HexChar(n % 16)]
  }

  /** `UUID.toString`: the 32 digits of the two unsigned halves, in the canonical groups. */
  function UuidString(u: Uuid): (s: string)
    requires ValidUuid(u)
    ensures |s| == 36
  {
    Dashed(HexDigits(Unsigned64(u.msb), 16) + HexDigits(Unsigned64(u.lsb), 16))
  }

  // ---------------------------------------------------------------------
  // Properties

  /** Hex digits read back as the number they were made from, when it fits in them. */
  lemma {:induction false} HexRoundTrip(n: nat, w: nat)
    requires n < Pow16(w)
    ensures HexValue(HexDigits(n, w)) == n
  {
    if w > 0 {
      var s := HexDigits(n, w);
      var q := HexDigits(n / 16, w - 1);
      assert s[..w - 1] == q && s[w - 1] == HexChar(n % 16);
      QuotientBelow(n, Pow16(w - 1));
      HexRoundTrip(n / 16, w - 1);
      assert HexValue(s) == HexValue(q) * 16 + n % 16;
    }
  }

  lemma QuotientBelow(n: nat, p: nat)
    requires n < 16 * p
    ensures n / 16 < p
  {
  }

  lemma Pow16Of16()
    ensures Pow16(16) == 0x1_0000_0000_0000_0000
  {
    assert Pow16(4) == 0x1_0000;
    assert Pow16(8) == 0x1_0000_0000;
    assert Pow16(12) == 0x1_0000_0000_0000;
  }

  /** Dashing 32 hex digits gives the canonical form, and removing the dashes again gives the digits. */
  lemma DashedIsCanonical(d: string)
    requires |d| == 32 && forall i :: 0 <= i < 32 ==> IsHexChar(d[i])
    ensures Canonical(Dashed(d))
    ensures DigitsOf(Dashed(d)) == d
  {
    var s := Dashed(d);
    assert s[0..8] == d[0..8];
    assert s[9..13] == d[8..12];
    assert s[14..18] == d[12..16];
    assert s[19..23] == d[16..20];
    assert s[24..36] == d[20..32];
    assert d[0..8] + d[8..12] + d[12..16] + d[16..20] + d[20..32] == d;
    forall i | 0 <= i < 36 && !IsDashPosition(i)
      ensures IsHexChar(s[i])
    {
      if i < 8 { assert s[i] == d[i]; }
      else if i < 13 { assert s[i] == d[i - 1]; }
      else if i < 18 { assert s[i] == d[i - 2]; }
      else if i < 23 { assert s[i] == d[i - 3]; }
      else { assert s[i] == d[i - 4]; }
    }
  }

  /** `fromString` reads back every UUID from its canonical text. */
  lemma StringRoundTrip(u: Uuid)
    requires ValidUuid(u)
    ensures FromString(UuidString(u)) == Ok(u)
  {
    var hi := HexDigits(Unsigned64(u.msb), 16);
    var lo := HexDigits(Unsigned64(u.lsb), 16);
    DashedIsCanonical(hi + lo);
    assert (hi + lo)[..16] == hi && (hi + lo)[16..] == lo;
    Pow16Of16();
    HexRoundTrip(Unsigned64(u.msb), 16);
    HexRoundTrip(Unsigned64(u.lsb), 16);
  }

  /** The deserializer reads a UUID back from its text, with or without the dashes, and from its two halves. */
  lemma DeserializeRoundTrip(u: Uuid)
    requires ValidUuid(u)
    ensures Deserialize(JText(UuidString(u))) == Ok(u)
    ensures Canonical(UuidString(u)) && Deserialize(JText(DigitsOf(UuidString(u)))) == Ok(u)
    ensures Deserialize(JLongArray([u.msb, u.lsb])) == Ok(u)
  {
    DashedTextRoundTrip(u);
    UndashedTextRoundTrip(u);
  }

  /** Text is read by `fromString`, after the dashes are put into 32 characters. */
  lemma TextDeserialized(s: string, u: Uuid)
    requires FromString(if |s| == 32 then Dashed(s) else s) == Ok(u)
    ensures Deserialize(JText(s)) == Ok(u)
  {
  }

  lemma DashedTextRoundTrip(u: Uuid)
    requires ValidUuid(u)
    ensures Canonical(UuidString(u))
    ensures Deserialize(JText(UuidString(u))) == Ok(u)
  {
    StringRoundTrip(u);
    TextDeserialized(UuidString(u), u);
  }

  lemma UndashedTextRoundTrip(u: Uuid)
    requires ValidUuid(u)
    ensures Canonical(UuidString(u)) && Deserialize(JText(DigitsOf(UuidString(u)))) == Ok(u)
  {
    var hi := HexDigits(Unsigned64(u.msb), 16);
    var lo := HexDigits(Unsigned64(u.lsb), 16);
    DashedIsCanonical(hi + lo);
    StringRoundTrip(u);
    var d := DigitsOf(UuidString(u));
    assert d == hi + lo;
    TextDeserialized(d, u);
  }

  /** A `long[]` of another length is read from its `toString()`, which is never a UUID. */
  lemma OtherLongArraysRefused(elems: seq<int>)
    requires |elems| != 2
    ensures Deserialize(JLongArray(elems)) == Err(CoercionFailedException)
  {
  }

  /**
   * The model reads the canonical 8-4-4-4-12 grouping only: a 7-5-4-4-12
   * grouping of the same length is refused, although `UUID.fromString`
   * itself is lenient about group lengths.
   */
  lemma NonCanonicalGroupingRefused()
    ensures Deserialize(JText("0000000-00000-0000-0000-000000000000")) == Err(CoercionFailedException)
  {
    var s := "0000000-00000-0000-0000-000000000000";
    assert s[7] == '-' && !IsHexChar(s[7]);
    assert !Canonical(s);
  }
}
