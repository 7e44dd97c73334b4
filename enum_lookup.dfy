// `EnumParserImpl` of the parser package and `EnumConverterImpl` of the
// converter package. Both fill a per-class cache from the enum's constants,
// keyed by each constant's name and by its processed key, and look a key up
// by exact name first and by processed key second. A constant is identified
// by its ordinal, its position in the declaration order.
module EnumLookup {
  import opened JavaLang

  /** The prefix that keeps processed keys apart from constant names. */
  const FLOWER: char := '🌸'

  predicate StartsWithFlower(k: string) {
    |k| > 0 && k[0] == FLOWER
  }

  /** Enum constant names are Java identifiers, which cannot contain the flower. */
  predicate NoFlowers(names: seq<string>) {
    forall i :: 0 <= i < |names| ==> !StartsWithFlower(names[i])
  }

  function RemoveUnderscores(s: string): (r: string)
    ensures |r| <= |s|
    ensures forall i :: 0 <= i < |r| ==> r[i] != '_'
  {
    if s == [] then [] else (if s[0] == '_' then [] else [s[0]]) + RemoveUnderscores(s[1..])
  }

  /** `processKey`: the flower, then the key lower-cased with its underscores removed. */
  function ProcessKey(key: string): (k: string)
    ensures StartsWithFlower(k)
  {
    [FLOWER] + RemoveUnderscores(Lower(key))
  }

  /** One round of the cache-filling loop: `put(name)`, then `putIfAbsent(processKey(name))`. */
  function AddConstant(m: map<string, nat>, name: string, ordinal: nat): (r: map<string, nat>)
    ensures name in r && r[name] == ordinal
    ensures ProcessKey(name) in r
    ensures ProcessKey(name) in m && ProcessKey(name) != name ==> r[ProcessKey(name)] == m[ProcessKey(name)]
    ensures forall k :: k in r <==> k in m || k == name || k == ProcessKey(name)
    ensures forall k :: k in m && k != name && k != ProcessKey(name) ==> r[k] == m[k]
  {
    var put := m[name := ordinal];
    if ProcessKey(name) in put then put else put[ProcessKey(name) := ordinal]
  }

  /** The map the cache holds after the loop has gone over the given constants. */
  function CacheOf(names: seq<string>): map<string, nat>
  {
    if names == [] then map[]
    else AddConstant(CacheOf(names[..|names| - 1]), names[|names| - 1], |names| - 1)
  }

  /** The cache-filling loop of `lookupEnum`. */
  method BuildCache(names: seq<string>) returns (cache: map<string, nat>)
    ensures cache == CacheOf(names)
  {
    cache := map[];
    var i := 0;
    while i < |names|
      invariant 0 <= i <= |names|
      invariant cache == CacheOf(names[..i])
    {
      assert names[..i + 1][..i] == names[..i];
      cache := cache[names[i] := i];
      if ProcessKey(names[i]) !in cache {
        cache := cache[ProcessKey(names[i]) := i];
      }
      i := i + 1;
    }
    assert names[..|names|] == names;
  }

  function Get(m: map<string, nat>, k: string): Option<nat>
  {
    if k in m then Some(m[k]) else None
  }

  /** `lookupEnum` on a filled cache: the key itself, else its processed key. */
  function Lookup(cache: map<string, nat>, key: string): (r: Option<nat>)
    ensures key in cache ==> r == Some(cache[key])
    ensures key !in cache ==> r == Get(cache, ProcessKey(key))
  {
    if key in cache then Some(cache[key]) else Get(cache, ProcessKey(key))
  }

  /** `EnumParserImpl.parse`: the constant named by `toString()`; a miss is a CoercionFailedException. */
  function Parse(names: seq<string>, o: JObject): (r: Result<nat>)
    ensures r.Ok? ==> r.value < |names|
    ensures r.Err? ==> r.error == CoercionFailedException
    ensures r.Ok? <==> Lookup(CacheOf(names), ToString(o)).Some?
  {
    CacheBounded(names);
    match Lookup(CacheOf(names), ToString(o))
    case Some(i) => Ok(i)
    case None => Err(CoercionFailedException)
  }

  /** `EnumConverterImpl.read`: the same lookup; a miss is a ConversionFailedException. */
  function Read(names: seq<string>, o: JObject): (r: Result<nat>)
    ensures r.Ok? ==> r.value < |names|
    ensures r.Err? ==> r.error == ConversionFailedException
    ensures r.Ok? <==> Lookup(CacheOf(names), ToString(o)).Some?
  {
    CacheBounded(names);
    match Lookup(CacheOf(names), ToString(o))
    case Some(i) => Ok(i)
    case None => Err(ConversionFailedException)
  }

  // ---------------------------------------------------------------------
  // The reference definition of the cache

  /** The last constant with this name; enum names are unique, so it is the only one. */
  function NamedAt(names: seq<string>, k: string): (r: Option<nat>)
    ensures r.Some? ==> r.value < |names| && names[r.value] == k
    ensures r.None? ==> forall i :: 0 <= i < |names| ==> names[i] != k
  {
    if names == [] then None
    else if names[|names| - 1] == k then Some(|names| - 1)
    else NamedAt(names[..|names| - 1], k)
  }

  /** The first declared constant whose processed key is `k`. */
  function FirstProcessed(names: seq<string>, k: string): (r: Option<nat>)
    ensures r.Some? ==> r.value < |names| && ProcessKey(names[r.value]) == k
    ensures r.Some? ==> forall i :: 0 <= i < r.value ==> ProcessKey(names[i]) != k
    ensures r.None? ==> forall i :: 0 <= i < |names| ==> ProcessKey(names[i]) != k
    ensures forall i :: 0 <= i < |names| && ProcessKey(names[i]) == k ==> r.Some? && r.value <= i
  {
    if names == [] then None
    else
      match FirstProcessed(names[..|names| - 1], k)
      case Some(i) => Some(i)
      case None => if ProcessKey(names[|names| - 1]) == k then Some(|names| - 1) else None
  }

  // ---------------------------------------------------------------------
  // Properties

  lemma CacheBounded(names: seq<string>)
    ensures forall k :: k in CacheOf(names) ==> CacheOf(names)[k] < |names|
  {
    if names != [] {
      CacheBounded(names[..|names| - 1]);
    }
  }

  /**
   * The cache maps every constant name to its constant and every processed
   * key to the first declared constant it comes from, and holds nothing else.
   */
  lemma {:induction false} CacheContents(names: seq<string>, k: string)
    requires NoFlowers(names)
    ensures Get(CacheOf(names), k) == if StartsWithFlower(k) then FirstProcessed(names, k) else NamedAt(names, k)
  {
    if names != [] {
      var p := names[..|names| - 1];
      var name := names[|names| - 1];
      assert NoFlowers(p);
      CacheContents(p, k);
      if StartsWithFlower(k) {
        assert k != name;
        CacheContents(p, ProcessKey(name));
      } else {
        assert k != ProcessKey(name);
      }
    }
  }

  /** `lookupEnum` finds the constant of that exact name, else the first declared constant with the same processed key. */
  lemma LookupSpec(names: seq<string>, key: string)
    requires NoFlowers(names)
    requires !StartsWithFlower(key)
    ensures Lookup(CacheOf(names), key) ==
              if NamedAt(names, key).Some? then NamedAt(names, key)
              else FirstProcessed(names, ProcessKey(key))
  {
    CacheContents(names, key);
    CacheContents(names, ProcessKey(key));
  }

  /** An exact constant name always finds its own constant, whatever the other constants are called. */
  lemma ExactNameWins(names: seq<string>, i: nat)
    requires NoFlowers(names)
    requires i < |names|
    requires forall j :: 0 <= j < |names| && j != i ==> names[j] != names[i]
    ensures Lookup(CacheOf(names), names[i]) == Some(i)
  {
    LookupSpec(names, names[i]);
  }

  /** Keys that differ only in case and underscores find the same constant, unless one of them is an exact name. */
  lemma ProcessedKeyIgnoresCase(names: seq<string>, a: string, b: string)
    requires NoFlowers(names)
    requires !StartsWithFlower(a) && !StartsWithFlower(b)
    requires NamedAt(names, a).None? && NamedAt(names, b).None?
    requires ProcessKey(a) == ProcessKey(b)
    ensures Lookup(CacheOf(names), a) == Lookup(CacheOf(names), b)
  {
    LookupSpec(names, a);
    LookupSpec(names, b);
  }

  lemma LowerThenProcess(key: string)
    ensures ProcessKey(Lower(key)) == ProcessKey(key)
  {
    LowerIdempotent(key);
  }

  /** A key that names no constant finds the first declared constant sharing its processed key. */
  lemma ProcessedSpellingFinds(names: seq<string>, key: string, i: nat)
    requires NoFlowers(names) && !StartsWithFlower(key)
    requires forall j :: 0 <= j < |names| ==> names[j] != key
    requires i < |names| && ProcessKey(names[i]) == ProcessKey(key)
    requires forall j :: 0 <= j < i ==> ProcessKey(names[j]) != ProcessKey(key)
    ensures Lookup(CacheOf(names), key) == Some(i)
  {
    LookupSpec(names, key);
  }

  /** What the lookup finds is what the parser and the converter return. */
  lemma FoundIsParsed(names: seq<string>, o: JObject, i: nat)
    requires Lookup(CacheOf(names), ToString(o)) == Some(i)
    ensures Parse(names, o) == Ok(i) && Read(names, o) == Ok(i)
  {
  }

  /** A key whose processed key no constant shares names no constant at all. */
  lemma UnknownKeyMisses(names: seq<string>, key: string)
    requires NoFlowers(names) && !StartsWithFlower(key)
    requires forall j :: 0 <= j < |names| ==> names[j] != key && ProcessKey(names[j]) != ProcessKey(key)
    ensures Lookup(CacheOf(names), key).None?
  {
    LookupSpec(names, key);
  }

  /** The constants of the parser's test enum, in declaration order. */
  predicate IsTestEnum(names: seq<string>) {
    |names| == 5 && names[0] == "FIRST" && names[1] == "SECOND" && names[2] == "third"
    && names[3] == "FOURTH" && names[4] == "fourth"
  }

  lemma TestEnumNoFlowers(names: seq<string>)
    requires IsTestEnum(names)
    ensures NoFlowers(names)
  {
    assert forall i :: 0 <= i < |names| ==> names[i][0] != FLOWER;
  }

  lemma TestEnumExactName(names: seq<string>, i: nat)
    requires IsTestEnum(names) && i < 5
    ensures Parse(names, JText(names[i])) == Ok(i)
  {
    TestEnumNoFlowers(names);
    ExactNameWins(names, i);
  }

  /** The test enum's names are matched exactly, and a constant is parsed through its `toString()`. */
  lemma TestEnumExactNames(names: seq<string>)
    requires IsTestEnum(names)
    ensures Parse(names, JText("SECOND")) == Ok(1)
    ensures Parse(names, JText("third")) == Ok(2)
    ensures Parse(names, JText("FOURTH")) == Ok(3)
    ensures Parse(names, JText("fourth")) == Ok(4)
    ensures Parse(names, JOther(OBJECT, "FIRST")) == Ok(0)
  {
    TestEnumExactName(names, 0);
    TestEnumExactName(names, 1);
    TestEnumExactName(names, 2);
    TestEnumExactName(names, 3);
    TestEnumExactName(names, 4);
  }

  lemma KeyFirst()
    ensures ProcessKey("FIRST") == ProcessKey("first") == [FLOWER] + "first"
    ensures ProcessKey("FIRST")[1] == 'f' && ProcessKey("FIRST")[2] == 'i'
  {
    assert Lower("FIRST") == "first" == Lower("first");
    assert RemoveUnderscores("first") == "first";
  }

  lemma KeySecond()
    ensures ProcessKey("SECOND") == ProcessKey("sEcOnD") == [FLOWER] + "second"
    ensures ProcessKey("SECOND")[1] == 's'
  {
    assert Lower("SECOND") == "second" == Lower("sEcOnD");
    assert RemoveUnderscores("second") == "second";
  }

  lemma KeyThird()
    ensures ProcessKey("third") == ProcessKey("THIRD") == [FLOWER] + "third"
    ensures ProcessKey("third")[1] == 't'
  {
    assert Lower("third") == "third" == Lower("THIRD");
    assert RemoveUnderscores("third") == "third";
  }

  lemma KeyFourth()
    ensures ProcessKey("FOURTH") == ProcessKey("fourth") == [FLOWER] + "fourth"
    ensures ProcessKey("FOURTH")[1] == 'f' && ProcessKey("FOURTH")[2] == 'o'
  {
    assert Lower("FOURTH") == "fourth" == Lower("fourth");
    assert RemoveUnderscores("fourth") == "fourth";
  }

  lemma KeyFourthCapitalised()
    ensures ProcessKey("Fourth") == [FLOWER] + "fourth"
  {
    assert Lower("Fourth") == "fourth";
    assert RemoveUnderscores("fourth") == "fourth";
  }

  lemma KeyFourUnderscoreTh()
    ensures ProcessKey("FOUR_TH") == [FLOWER] + "fourth"
  {
    assert Lower("FOUR_TH") == "four_th";
    assert RemoveUnderscores("four_th") == "fourth";
  }

  lemma KeyThirdDigits()
    ensures ProcessKey("3rd") == [FLOWER] + "3rd"
    ensures ProcessKey("3rd")[1] == '3'
  {
    assert Lower("3rd") == "3rd";
    assert RemoveUnderscores("3rd") == "3rd";
  }

  /** None of the given spellings is the name of a test enum constant. */
  lemma NotTestNames(names: seq<string>)
    requires IsTestEnum(names)
    ensures forall j :: 0 <= j < |names| ==> names[j] != "first" && names[j] != "sEcOnD"
    ensures forall j :: 0 <= j < |names| ==> names[j] != "THIRD" && names[j] != "3rd"
    ensures forall j :: 0 <= j < |names| ==> names[j] != "Fourth" && names[j] != "FOUR_TH"
  {
  }

  /** Lower-case input finds the upper-case constant. */
  lemma TestEnumLowerCaseInput(names: seq<string>)
    requires IsTestEnum(names)
    ensures Parse(names, JText("first")) == Ok(0)
  {
    TestEnumNoFlowers(names);
    NotTestNames(names);
    KeyFirst();
    ProcessedSpellingFinds(names, "first", 0);
    FoundIsParsed(names, JText("first"), 0);
  }

  lemma SecondKeyIsNew(names: seq<string>)
    requires IsTestEnum(names)
    ensures forall j :: 0 <= j < 1 ==> ProcessKey(names[j]) != ProcessKey("sEcOnD")
  {
    KeySecond();
    forall j | 0 <= j < 1 ensures ProcessKey(names[j])[1] != 's' {
      KeyFirst();
    }
  }

  /** Mixed-case input finds the upper-case constant. */
  lemma TestEnumMixedCaseInput(names: seq<string>)
    requires IsTestEnum(names)
    ensures Parse(names, JText("sEcOnD")) == Ok(1)
  {
    TestEnumNoFlowers(names);
    NotTestNames(names);
    KeySecond();
    SecondKeyIsNew(names);
    ProcessedSpellingFinds(names, "sEcOnD", 1);
    FoundIsParsed(names, JText("sEcOnD"), 1);
  }

  lemma ThirdKeyIsNew(names: seq<string>)
    requires IsTestEnum(names)
    ensures forall j :: 0 <= j < 2 ==> ProcessKey(names[j]) != ProcessKey("THIRD")
  {
    KeyThird();
    forall j | 0 <= j < 2 ensures ProcessKey(names[j])[1] != 't' {
      if j == 0 { KeyFirst(); } else { KeySecond(); }
    }
  }

  /** Upper-case input finds the lower-case constant. */
  lemma TestEnumUpperCaseInput(names: seq<string>)
    requires IsTestEnum(names)
    ensures Parse(names, JText("THIRD")) == Ok(2)
  {
    TestEnumNoFlowers(names);
    NotTestNames(names);
    KeyThird();
    ThirdKeyIsNew(names);
    ProcessedSpellingFinds(names, "THIRD", 2);
    FoundIsParsed(names, JText("THIRD"), 2);
  }

  lemma DigitsKeyIsNew(names: seq<string>)
    requires IsTestEnum(names)
    ensures forall j :: 0 <= j < |names| ==> ProcessKey(names[j]) != ProcessKey("3rd")
  {
    KeyThirdDigits();
    forall j | 0 <= j < |names| ensures ProcessKey(names[j])[1] != '3' {
      if j == 0 { KeyFirst(); }
      else if j == 1 { KeySecond(); }
      else if j == 2 { KeyThird(); }
      else { KeyFourth(); }
    }
  }

  /** `3rd` names no constant, under any spelling. */
  lemma TestEnumInvalidInput(names: seq<string>)
    requires IsTestEnum(names)
    ensures Parse(names, JText("3rd")) == Err(CoercionFailedException)
  {
    TestEnumNoFlowers(names);
    NotTestNames(names);
    DigitsKeyIsNew(names);
    UnknownKeyMisses(names, "3rd");
  }

  lemma FourthKeyIsNew(names: seq<string>)
    requires IsTestEnum(names)
    ensures forall j :: 0 <= j < 3 ==> ProcessKey(names[j]) != [FLOWER] + "fourth"
  {
    KeyFourth();
    forall j | 0 <= j < 3
      ensures ProcessKey(names[j])[1] != 'f' || (|ProcessKey(names[j])| > 2 && ProcessKey(names[j])[2] != 'o')
    {
      if j == 0 { KeyFirst(); }
      else if j == 1 { KeySecond(); }
      else { KeyThird(); }
    }
  }

  /** When processed keys collide, the first declared constant owns the processed key. */
  lemma FirstDeclaredOwnsProcessedKey(names: seq<string>)
    requires IsTestEnum(names)
    ensures Read(names, JText("Fourth")) == Ok(3)
  {
    TestEnumNoFlowers(names);
    NotTestNames(names);
    KeyFourth();
    KeyFourthCapitalised();
    FourthKeyIsNew(names);
    ProcessedSpellingFinds(names, "Fourth", 3);
    FoundIsParsed(names, JText("Fourth"), 3);
  }

  /** Underscores are dropped before the processed key is looked up. */
  lemma UnderscoresIgnored(names: seq<string>)
    requires IsTestEnum(names)
    ensures Read(names, JText("FOUR_TH")) == Ok(3)
  {
    TestEnumNoFlowers(names);
    NotTestNames(names);
    KeyFourth();
    KeyFourUnderscoreTh();
    FourthKeyIsNew(names);
    ProcessedSpellingFinds(names, "FOUR_TH", 3);
    FoundIsParsed(names, JText("FOUR_TH"), 3);
  }

  /** A key that already carries the flower is looked up as it is: it reaches a processed entry directly. */
  lemma FlowerKeyReachesProcessedEntry(names: seq<string>)
    requires IsTestEnum(names)
    ensures Read(names, JText([FLOWER] + "first")) == Ok(0)
  {
    var k := [FLOWER] + "first";
    TestEnumNoFlowers(names);
    KeyFirst();
    assert ProcessKey(names[0]) == k;
    assert FirstProcessed(names, k) == Some(0);
    CacheContents(names, k);
    assert Get(CacheOf(names), k) == Some(0);
  }
}
