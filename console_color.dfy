// `ConsoleColor` of the console package: a trigger character followed by a
// colour code becomes that colour's ANSI escape, a trigger followed by `#`
// and six hex digits becomes a 24-bit colour escape, and `stripColor` takes
// both kinds of code out again. The ANSI escapes of the 22 colours come from
// Jansi; they are a parameter here.
module ConsoleColor {
  import opened JavaLang

  /** The colours' display names, in declaration order. */
  const NAMES: seq<string> := ["black", "dark_blue", "green", "cyan", "dark_red", "purple", "orange", "gray",
                               "dark_gray", "blue", "light_green", "aqua", "red", "pink", "yellow", "white",
                               "obfuscated", "bold", "strikethrough", "underline", "italic", "default"]

  /** The colours' index characters, as their constructors are given them. */
  const INDEXES: seq<char> := ['0', '1', '2', '3', '4', '5', '6', '7', '8', '9', 'a', 'b', 'c', 'd', 'e', 'f',
                               'k', 'l', 'm', 'n', 'o', 'r']

  /** `LOOKUP`: position i of this string selects `VALUES[i]`. */
  const LOOKUP: string := "0123456789abcdefklmnor"

  const ESC: char := '\U{1B}'

  /** The escape sequences of the 22 colours: non-empty, and free of the trigger character. */
  predicate ValidCodes(trigger: char, codes: seq<string>) {
    |codes| == 22 && forall i :: 0 <= i < 22 ==> codes[i] != [] && trigger !in codes[i]
  }

  /**
   * The trigger is spliced unquoted into a regular expression and removed
   * from the match before `Color.decode`: it must be neither a regular
   * expression operator nor a character of the colour code itself.
   */
  predicate PlainTrigger(t: char) {
    t !in ".$|()[]{}^?*+\\#" && !IsHexChar(t)
  }

  /** `String.indexOf(char)`: the first position of `c`, or -1. */
  function IndexOf(s: string, c: char): (r: int)
    ensures -1 <= r < |s|
    ensures r == -1 <==> c !in s
    ensures r >= 0 ==> s[r] == c && c !in s[..r]
  {
    if s == [] then -1
    else if s[0] == c then 0
    else
      var r := IndexOf(s[1..], c);
      if r == -1 then -1
      else
        assert s[..r + 1] == [s[0]] + s[1..][..r];
        r + 1
  }

  /** The colour code characters: the characters of `LOOKUP`. */
  predicate IsCode(c: char) {
    '0' <= c <= '9' || 'a' <= c <= 'f' || c == 'k' || c == 'l' || c == 'm' || c == 'n' || c == 'o' || c == 'r'
  }

  /** `LOOKUP.indexOf(c)`, spelled out by the ranges of `LOOKUP`. */
  function Format(c: char): (r: int)
    ensures -1 <= r < 22
    ensures r == -1 <==> !IsCode(c)
  {
    if '0' <= c <= '9' then c as int - '0' as int
    else if 'a' <= c <= 'f' then c as int - 'a' as int + 10
    else if c == 'k' then 16
    else if c == 'l' then 17
    else if c == 'm' then 18
    else if c == 'n' then 19
    else if c == 'o' then 20
    else if c == 'r' then 21
    else -1
  }

  // ---------------------------------------------------------------------
  // The 24-bit colour escapes

  /** A trigger, `#` and six hex digits start at position i of s. */
  predicate RgbAt(t: char, s: string, i: int) {
    0 <= i && i + 8 <= |s| && s[i] == t && s[i + 1] == '#' && AllHex(s[i + 2..i + 8])
  }

  /** Hex digits only. */
  predicate AllHex(h: string)
    decreases |h|
  {
    h == [] || (IsHexChar(h[0]) && AllHex(h[1..]))
  }

  lemma {:induction false} AllHexDigits(h: string)
    ensures AllHex(h) <==> forall j :: 0 <= j < |h| ==> IsHexChar(h[j])
    decreases |h|
  {
    if h != [] {
      AllHexDigits(h[1..]);
      assert forall j :: 1 <= j < |h| ==> h[j] == h[1..][j - 1];
    }
  }

  /** `String.format(RGB_ANSI, r, g, b)`. */
  function RgbEscape(r: nat, g: nat, b: nat): string {
    [ESC] + "[38;2;" + DecimalDigits(r) + ";" + DecimalDigits(g) + ";" + DecimalDigits(b) + "m"
  }

  /**
   * `convertRGBColors`' replacement for a match with the six digits `hex`:
   * `Color.decode` of `#RRGGBB` gives red, green and blue as the values of
   * the three pairs of digits (`ChannelsAreHexPairs` relates them to the
   * 24-bit value). Only called on six hex digits.
   */
  function Escape(hex: string): (r: string)
  {
    if |hex| == 6 && AllHex(hex) then
      AllHexDigits(hex);
      RgbEscape(HexValue(hex[0..2]), HexValue(hex[2..4]), HexValue(hex[4..6]))
    else []
  }

  /** `stripRGBColors`' replacement: nothing. */
  function Erased(hex: string): (r: string)
  {
    []
  }

  /** `matcher.find()` from position `from`: the first match there or later. */
  function Find(t: char, s: string, from: nat): (r: Option<nat>)
    requires from <= |s|
    ensures r.Some? ==> from <= r.value && RgbAt(t, s, r.value)
    ensures r.Some? ==> forall j :: from <= j < r.value ==> !RgbAt(t, s, j)
    ensures r.None? ==> forall j :: from <= j < |s| ==> !RgbAt(t, s, j)
    decreases |s| - from
  {
    if from == |s| then None
    else if RgbAt(t, s, from) then Some(from)
    else Find(t, s, from + 1)
  }

  /**
   * The text from position i on with every match replaced, scanning left to
   * right: a match where the scan stands, else the character kept.
   */
  function RewriteFrom(t: char, s: string, i: nat, repl: string -> string): (r: string)
    decreases |s| - i
  {
    if i >= |s| then []
    else if RgbAt(t, s, i) then repl(s[i + 2..i + 8]) + RewriteFrom(t, s, i + 8, repl)
    else [s[i]] + RewriteFrom(t, s, i + 1, repl)
  }

  /** The whole text with every match replaced. */
  function RgbRewrite(t: char, s: string, repl: string -> string): string {
    RewriteFrom(t, s, 0, repl)
  }

  /** Text before the first match at or after `from` is kept, and the match is replaced. */
  lemma {:induction false} RewriteUpToMatch(t: char, s: string, from: nat, m: nat, repl: string -> string)
    requires from <= |s| && Find(t, s, from) == Some(m)
    ensures RewriteFrom(t, s, from, repl) == s[from..m] + repl(s[m + 2..m + 8]) + RewriteFrom(t, s, m + 8, repl)
    decreases m - from
  {
    var x := repl(s[m + 2..m + 8]) + RewriteFrom(t, s, m + 8, repl);
    if from < m {
      RewriteUpToMatch(t, s, from + 1, m, repl);
      calc {
        RewriteFrom(t, s, from, repl);
        [s[from]] + RewriteFrom(t, s, from + 1, repl);
        [s[from]] + (s[from + 1..m] + x);
        ([s[from]] + s[from + 1..m]) + x;
        { assert s[from..m] == [s[from]] + s[from + 1..m]; }
        s[from..m] + x;
      }
    } else {
      assert s[from..m] == [];
    }
  }

  /** Text with no match at or after `from` is kept as it is. */
  lemma {:induction false} RewriteWithoutMatch(t: char, s: string, from: nat, repl: string -> string)
    requires from <= |s| && Find(t, s, from).None?
    ensures RewriteFrom(t, s, from, repl) == s[from..]
    decreases |s| - from
  {
    if from < |s| {
      RewriteWithoutMatch(t, s, from + 1, repl);
      assert s[from..] == [s[from]] + s[from + 1..];
    }
  }

  /** `find` comes back empty where no match starts. */
  lemma {:induction false} NoMatchFound(t: char, s: string, from: nat)
    requires from <= |s| && forall j :: from <= j < |s| ==> !RgbAt(t, s, j)
    ensures Find(t, s, from).None?
    decreases |s| - from
  {
    if from < |s| {
      NoMatchFound(t, s, from + 1);
    }
  }

  /**
   * `convertRGBColors` (with `Escape`) and `stripRGBColors` (with
   * `Erased`): the `find` / `appendReplacement` / `appendTail` loop.
   */
  method RewriteRgb(t: char, input: string, repl: string -> string) returns (buffer: string)
    ensures buffer == RgbRewrite(t, input, repl)
  {
    buffer := [];
    var pos := 0;
    var m := Find(t, input, pos);
    while m.Some?
      invariant pos <= |input|
      invariant m == Find(t, input, pos)
      invariant RgbRewrite(t, input, repl) == buffer + RewriteFrom(t, input, pos, repl)
      decreases |input| - pos
    {
      var start := m.value;
      AppendReplacementStep(t, input, pos, start, repl, buffer);
      buffer := buffer + input[pos..start] + repl(input[start + 2..start + 8]);
      pos := start + 8;
      m := Find(t, input, pos);
    }
    RewriteWithoutMatch(t, input, pos, repl);
    buffer := buffer + input[pos..];
  }

  /** `appendReplacement` keeps what the buffer and the rest of the text rewrite to. */
  lemma AppendReplacementStep(t: char, input: string, pos: nat, m: nat, repl: string -> string, buffer: string)
    requires pos <= |input| && Find(t, input, pos) == Some(m)
    ensures m + 8 <= |input|
    ensures buffer + RewriteFrom(t, input, pos, repl)
              == (buffer + input[pos..m] + repl(input[m + 2..m + 8])) + RewriteFrom(t, input, m + 8, repl)
  {
    RewriteUpToMatch(t, input, pos, m, repl);
  }

  // ---------------------------------------------------------------------
  // Colour codes

  /** A trigger followed by a colour code starts s. */
  predicate CodeAt(t: char, s: string, i: int) {
    0 <= i && i + 1 < |s| && s[i] == t && IsCode(s[i + 1])
  }

  /** Every trigger and code replaced by the colour's escape, left to right. */
  function Coloured(t: char, codes: seq<string>, s: string): (r: string)
    requires |codes| == 22
    decreases |s|
  {
    if s == [] then []
    else if CodeAt(t, s, 0) then codes[Format(s[1])] + Coloured(t, codes, s[2..])
    else [s[0]] + Coloured(t, codes, s[1..])
  }

  /** `toColouredString`: the 24-bit codes first, then the colour codes. */
  function ColouredString(t: char, codes: seq<string>, text: string): string
    requires |codes| == 22
  {
    Coloured(t, codes, RgbRewrite(t, text, Escape))
  }

  /** `StringBuffer.delete(from, to)`. */
  function Delete(s: string, from: nat, to: nat): (r: string)
    requires from <= to <= |s|
  {
    s[..from] + s[to..]
  }

  /** `StringBuffer.insert(at, x)`. */
  function Insert(s: string, at: nat, x: string): (r: string)
    requires at <= |s|
  {
    s[..at] + x + s[at..]
  }

  /** The finished part before position k, and the coloured rest from k on. */
  function ColourProgress(t: char, codes: seq<string>, content: string, k: nat): string
    requires |codes| == 22 && k <= |content|
  {
    content[..k] + Coloured(t, codes, content[k..])
  }

  /** Replacing a trigger and code at k by the colour's escape moves the finished part past the escape. */
  lemma ColourReplaceStep(t: char, codes: seq<string>, content: string, k: nat)
    requires ValidCodes(t, codes) && CodeAt(t, content, k)
    ensures var code := codes[Format(content[k + 1])];
            var after := Insert(Delete(content, k, k + 2), k, code);
            k + |code| <= |after| && |after| == |content| + |code| - 2
            && ColourProgress(t, codes, content, k) == ColourProgress(t, codes, after, k + |code|)
            && forall j :: k <= j < k + |code| ==> after[j] != t
  {
    var code := codes[Format(content[k + 1])];
    var deleted := Delete(content, k, k + 2);
    var after := Insert(deleted, k, code);
    var rest := content[k + 2..];
    assert deleted[..k] == content[..k] && deleted[k..] == rest;
    assert after == content[..k] + code + rest;
    assert CodeAt(t, content[k..], 0) && content[k..][2..] == rest;
    assert after[..k + |code|] == content[..k] + code && after[k + |code|..] == rest;
    assert forall j :: k <= j < k + |code| ==> after[j] == code[j - k];
  }

  /** Moving past a character that does not start a code moves the finished part by one. */
  lemma ColourKeepStep(t: char, codes: seq<string>, content: string, k: nat)
    requires |codes| == 22 && k < |content| && !CodeAt(t, content, k)
    ensures ColourProgress(t, codes, content, k) == ColourProgress(t, codes, content, k + 1)
  {
    assert !CodeAt(t, content[k..], 0) && content[k..][1..] == content[k + 1..];
    assert content[..k + 1] == content[..k] + [content[k]];
  }

  /**
   * `toColouredString`. After a replacement the scan goes on inside the
   * inserted escape, which holds no trigger, so it rewrites the text as
   * `Coloured` does.
   */
  method ToColouredString(t: char, codes: seq<string>, text: string) returns (r: string)
    requires ValidCodes(t, codes)
    ensures r == ColouredString(t, codes, text)
  {
    var content := RewriteRgb(t, text, Escape);
    ghost var original := content;
    // content[..k] is the finished part; the scan index i trails it only inside an inserted escape
    ghost var k := 0;
    var breakIndex := |content| - 1;
    var i := 0;
    while i < breakIndex
      invariant breakIndex == |content| - 1
      invariant 0 <= i <= k <= |content|
      invariant forall j :: i <= j < k ==> content[j] != t
      invariant Coloured(t, codes, original) == ColourProgress(t, codes, content, k)
      decreases |content| - k, k - i
    {
      if content[i] == t {
        var format := Format(content[i + 1]);
        if format != -1 {
          var ansiCode := codes[format];
          ColourReplaceStep(t, codes, content, i);
          content := Delete(content, i, i + 2);
          content := Insert(content, i, ansiCode);
          breakIndex := breakIndex + |ansiCode| - 2;
          k := i + |ansiCode|;
        } else {
          ColourKeepStep(t, codes, content, k);
          k := k + 1;
        }
      } else if i == k {
        ColourKeepStep(t, codes, content, k);
        k := k + 1;
      }
      i := i + 1;
    }
    if k < |content| {
      assert content[k..] == [content[k]] && content[..k] + [content[k]] == content;
      assert [content[k]][1..] == [] && Coloured(t, codes, []) == [];
    } else {
      assert content[..k] == content && content[k..] == [];
    }
    r := content;
  }

  /**
   * What `stripColor`'s loop leaves: a trigger and code are deleted, and the
   * character after them is kept without being looked at, since the index
   * moves on after the deletion.
   */
  function Stripped(t: char, s: string): (r: string)
    ensures |r| <= |s|
    decreases |s|
  {
    if |s| < 2 then s
    else if CodeAt(t, s, 0) then (if |s| == 2 then [] else [s[2]] + Stripped(t, s[3..]))
    else [s[0]] + Stripped(t, s[1..])
  }

  /** `stripColor`: the 24-bit codes first, then the colour codes. */
  function StrippedString(t: char, text: string): string {
    Stripped(t, RgbRewrite(t, text, Erased))
  }

  /** The text before position i, and the stripped rest from i on. */
  function StripProgress(t: char, content: string, i: nat): string {
    var n := if i <= |content| then i else |content|;
    content[..n] + Stripped(t, content[n..])
  }

  /** Deleting a trigger and code at i, then moving past the character after them, keeps the result. */
  lemma StripDeleteStep(t: char, content: string, i: nat)
    requires CodeAt(t, content, i)
    ensures StripProgress(t, content, i) == StripProgress(t, Delete(content, i, i + 2), i + 1)
  {
    var after := Delete(content, i, i + 2);
    var rest := content[i..];
    assert CodeAt(t, rest, 0);
    if |rest| == 2 {
      assert after == content[..i];
    } else {
      assert rest[2] == after[i] && rest[3..] == after[i + 1..];
      assert after[..i + 1] == content[..i] + [after[i]];
    }
  }

  /** Moving past a character that does not start a code keeps the result. */
  lemma StripKeepStep(t: char, content: string, i: nat)
    requires i + 1 < |content| && !CodeAt(t, content, i)
    ensures StripProgress(t, content, i) == StripProgress(t, content, i + 1)
  {
    var rest := content[i..];
    assert !CodeAt(t, rest, 0) && rest[1..] == content[i + 1..];
    assert content[..i + 1] == content[..i] + [content[i]];
  }

  /** `stripColor`. */
  method StripColor(t: char, input: string) returns (r: string)
    ensures r == StrippedString(t, input)
  {
    var content := RewriteRgb(t, input, Erased);
    ghost var original := content;
    var breakIndex := |content| - 1;
    var i := 0;
    while i < breakIndex
      invariant breakIndex == |content| - 1
      invariant 0 <= i
      invariant Stripped(t, original) == StripProgress(t, content, i)
      decreases |content| - i + 2
    {
      if content[i] == t && Format(content[i + 1]) != -1 {
        StripDeleteStep(t, content, i);
        content := Delete(content, i, i + 2);
        breakIndex := breakIndex - 2;
      } else {
        StripKeepStep(t, content, i);
      }
      i := i + 1;
    }
    if i < |content| {
      assert content[i..] == [content[i]] && content[..i] + [content[i]] == content;
    } else {
      assert content[..|content|] == content;
    }
    r := content;
  }

  // ---------------------------------------------------------------------
  // Looking colours up

  /** `byChar`: the first colour whose index is c, as its position in `VALUES`. */
  method ByChar(c: char) returns (r: Option<nat>)
    ensures r.Some? <==> c in INDEXES
    ensures r.Some? ==> r.value < 22 && INDEXES[r.value] == c
  {
    var i := 0;
    while i < |INDEXES|
      invariant 0 <= i <= |INDEXES|
      invariant c !in INDEXES[..i]
    {
      if INDEXES[i] == c {
        return Some(i);
      }
      assert INDEXES[..i + 1] == INDEXES[..i] + [INDEXES[i]];
      i := i + 1;
    }
    assert INDEXES[..i] == INDEXES;
    return None;
  }

  /** `String.trim`: the text without the characters up to U+0020 at either end. */
  function Trim(s: string): (r: string)
    ensures |r| <= |s|
    ensures r != [] ==> r[0] > ' ' && r[|r| - 1] > ' '
    decreases |s|
  {
    if s != [] && s[0] <= ' ' then Trim(s[1..])
    else if s != [] && s[|s| - 1] <= ' ' then Trim(s[..|s| - 1])
    else s
  }

  /** `lastColor`: the colour of a code that ends the trimmed text, if one does. */
  method LastColor(t: char, text: string) returns (r: Option<nat>)
    ensures var s := Trim(text);
            r.Some? <==> |s| > 2 && s[|s| - 2] == t && s[|s| - 1] in INDEXES
    ensures var s := Trim(text);
            r.Some? ==> r.value < 22 && INDEXES[r.value] == s[|s| - 1]
  {
    var s := Trim(text);
    if |s| > 2 && s[|s| - 2] == t {
      r := ByChar(s[|s| - 1]);
    } else {
      r := None;
    }
  }

  // ---------------------------------------------------------------------
  // Properties

  /**
   * `Format` is `LOOKUP.indexOf`: the code characters are those of `LOOKUP`,
   * and `Format` gives the position of each (the characters of `LOOKUP` are
   * distinct, so that is the first one). The index characters of the
   * colours are `LOOKUP` too, so a code selects the colour with that index.
   */
  lemma FormatIsLookupIndex(c: char)
    ensures IsCode(c) <==> c in LOOKUP
    ensures IsCode(c) ==> LOOKUP[Format(c)] == c && INDEXES[Format(c)] == c
    ensures INDEXES == LOOKUP
  {
    IndexesAreLookup();
    if c in LOOKUP {
      LookupCharsAreCodes(c);
    }
    if IsCode(c) {
      FormatFindsCode(c);
    }
  }

  lemma IndexesAreLookup()
    ensures INDEXES == LOOKUP
  {
  }

  lemma LookupCharsAreCodes(c: char)
    requires c in LOOKUP
    ensures IsCode(c)
  {
    var i :| 0 <= i < |LOOKUP| && LOOKUP[i] == c;
  }

  lemma FormatFindsCode(c: char)
    requires IsCode(c)
    ensures LOOKUP[Format(c)] == c
  {
    if '0' <= c <= '9' {
      DigitInLookup(c);
    } else if 'a' <= c <= 'f' {
      LetterInLookup(c);
    }
  }

  lemma DigitInLookup(c: char)
    requires '0' <= c <= '9'
    ensures LOOKUP[c as int - '0' as int] == c
  {
    var s := LOOKUP[..10];
    assert s == "0123456789";
    assert forall i :: 0 <= i < 10 ==> s[i] == ('0' as int + i) as char;
  }

  lemma LetterInLookup(c: char)
    requires 'a' <= c <= 'f'
    ensures LOOKUP[c as int - 'a' as int + 10] == c
  {
    var s := LOOKUP[10..16];
    assert s == "abcdef";
    assert forall i :: 0 <= i < 6 ==> s[i] == ('a' as int + i) as char;
  }

  /** One more digit: the value of a prefix times sixteen, plus the next digit. */
  lemma HexPrefixDigit(s: string, k: nat)
    requires k < |s| && forall j :: 0 <= j < |s| ==> IsHexChar(s[j])
    ensures HexValue(s[..k + 1]) == HexValue(s[..k]) * 16 + HexCharValue(s[k])
  {
    assert s[..k + 1][..k] == s[..k];
  }

  /** Two more digits: the value of a prefix times 0x100, plus the value of the pair. */
  lemma HexPrefixPair(s: string, k: nat)
    requires k + 2 <= |s| && forall j :: 0 <= j < |s| ==> IsHexChar(s[j])
    ensures HexValue(s[..k + 2]) == HexValue(s[..k]) * 0x100 + HexValue(s[k..k + 2])
    ensures HexValue(s[k..k + 2]) < 0x100
  {
    HexPrefixDigit(s, k);
    HexPrefixDigit(s, k + 1);
    HexPair(s[k..k + 2]);
  }

  /** Four leading digits are the two pairs' values in base 0x100. */
  lemma HexFour(s: string)
    requires |s| >= 4 && forall j :: 0 <= j < |s| ==> IsHexChar(s[j])
    ensures HexValue(s[..4]) == HexValue(s[0..2]) * 0x100 + HexValue(s[2..4])
    ensures HexValue(s[0..2]) < 0x100 && HexValue(s[2..4]) < 0x100
  {
    assert s[..0] == [];
    HexPrefixPair(s, 0);
    HexPrefixPair(s, 2);
  }

  /** Six digits are the three pairs' values in base 0x100. */
  lemma HexSix(s: string)
    requires |s| == 6 && forall j :: 0 <= j < |s| ==> IsHexChar(s[j])
    ensures HexValue(s) == HexValue(s[0..2]) * 0x1_0000 + HexValue(s[2..4]) * 0x100 + HexValue(s[4..6])
    ensures HexValue(s[0..2]) < 0x100 && HexValue(s[2..4]) < 0x100 && HexValue(s[4..6]) < 0x100
  {
    HexFour(s);
    HexPrefixPair(s, 4);
    assert s[..6] == s;
  }

  /** The bytes of a number written in base 0x100 with three digits. */
  lemma ThreeBytes(v: int, a: int, b: int, c: int)
    requires 0 <= a < 0x100 && 0 <= b < 0x100 && 0 <= c < 0x100
    requires v == a * 0x1_0000 + b * 0x100 + c
    ensures v / 0x1_0000 % 0x100 == a && v / 0x100 % 0x100 == b && v % 0x100 == c
  {
    DivModByte(v, a * 0x100 + b, c);
    DivModByte(a * 0x100 + b, a, b);
    DivModByte(a, 0, a);
    DivModShort(v, a, b * 0x100 + c);
  }

  /** `#RRGGBB` decodes channel by channel: each colour is the value of its own two digits. */
  lemma ChannelsAreHexPairs(s: string)
    requires |s| == 6 && forall j :: 0 <= j < |s| ==> IsHexChar(s[j])
    ensures HexValue(s) / 0x1_0000 % 0x100 == HexValue(s[0..2])
    ensures HexValue(s) / 0x100 % 0x100 == HexValue(s[2..4])
    ensures HexValue(s) % 0x100 == HexValue(s[4..6])
  {
    HexSix(s);
    ThreeBytes(HexValue(s), HexValue(s[0..2]), HexValue(s[2..4]), HexValue(s[4..6]));
  }

  lemma DivModByte(v: int, q: int, r: int)
    requires 0 <= r < 0x100 && v == q * 0x100 + r
    ensures v / 0x100 == q && v % 0x100 == r
  {
  }

  lemma DivModShort(v: int, q: int, r: int)
    requires 0 <= r < 0x1_0000 && v == q * 0x1_0000 + r
    ensures v / 0x1_0000 == q
  {
  }

  lemma HexPair(p: string)
    requires |p| == 2 && IsHexChar(p[0]) && IsHexChar(p[1])
    ensures HexValue(p) == HexCharValue(p[0]) * 16 + HexCharValue(p[1])
  {
    assert p[..1][..0] == [] && p[..1][0] == p[0];
    assert HexValue(p[..1]) == HexCharValue(p[0]);
  }

  /** A match in a text's tail, from where the tail starts, is a match in the tail alone. */
  lemma RgbAtShift(t: char, p: string, q: string, j: nat)
    requires j < |q|
    ensures RgbAt(t, p + q, |p| + j) <==> RgbAt(t, q, j)
    ensures RgbAt(t, q, j) ==> (p + q)[|p| + j + 2..|p| + j + 8] == q[j + 2..j + 8]
  {
    var s := p + q;
    assert s[|p| + j] == q[j];
    if |p| + j + 8 <= |s| {
      assert s[|p| + j + 1] == q[j + 1];
      assert s[|p| + j + 2..|p| + j + 8] == q[j + 2..j + 8];
    }
  }

  /** The rewrite of a text's tail, from where the tail starts, is the rewrite of the tail alone. */
  lemma {:induction false} RewriteShift(t: char, p: string, q: string, j: nat, repl: string -> string)
    ensures RewriteFrom(t, p + q, |p| + j, repl) == RewriteFrom(t, q, j, repl)
    decreases |q| - j
  {
    if j < |q| {
      RgbAtShift(t, p, q, j);
      assert (p + q)[|p| + j] == q[j];
      if RgbAt(t, q, j) {
        RewriteShift(t, p, q, j + 8, repl);
      } else {
        RewriteShift(t, p, q, j + 1, repl);
      }
    }
  }

  /** A trigger, `#` and six hex digits become the 24-bit escape with the decimal channel values, or nothing when stripped. */
  lemma RgbCodeBecomesEscape(t: char, hex: string, tail: string)
    requires PlainTrigger(t)
    requires |hex| == 6 && forall j :: 0 <= j < 6 ==> IsHexChar(hex[j])
    ensures RgbRewrite(t, [t, '#'] + hex + tail, Escape)
              == RgbEscape(HexValue(hex[0..2]), HexValue(hex[2..4]), HexValue(hex[4..6])) + RgbRewrite(t, tail, Escape)
    ensures RgbRewrite(t, [t, '#'] + hex + tail, Erased) == RgbRewrite(t, tail, Erased)
  {
    var p := [t, '#'] + hex;
    var s := p + tail;
    AllHexDigits(hex);
    assert s[2..8] == hex;
    assert RgbAt(t, s, 0);
    RewriteShift(t, p, tail, 0, Escape);
    RewriteShift(t, p, tail, 0, Erased);
  }

  /** Text without the trigger is left as it is by every rewrite. */
  lemma {:induction false} NoTriggerUnchanged(t: char, codes: seq<string>, s: string, repl: string -> string)
    requires |codes| == 22 && t !in s
    ensures RgbRewrite(t, s, repl) == s
    ensures Coloured(t, codes, s) == s && Stripped(t, s) == s
    decreases |s|
  {
    NoMatchFound(t, s, 0);
    RewriteWithoutMatch(t, s, 0, repl);
    if s != [] {
      assert t !in s[1..];
      NoTriggerUnchanged(t, codes, s[1..], repl);
      if |s| >= 2 {
        assert s[1..][1..] == s[2..];
      }
    }
  }

  /** A trigger and a code become the colour's escape; a trigger before anything else stays. */
  lemma CodeBecomesEscape(t: char, codes: seq<string>, c: char, tail: string)
    requires |codes| == 22
    ensures IsCode(c) ==> Coloured(t, codes, [t, c] + tail) == codes[Format(c)] + Coloured(t, codes, tail)
    ensures !IsCode(c) ==> Coloured(t, codes, [t, c] + tail) == [t] + Coloured(t, codes, [c] + tail)
  {
    var s := [t, c] + tail;
    assert s[2..] == tail && s[1..] == [c] + tail;
  }

  /** Colouring works piece by piece when the first piece does not end in the trigger. */
  lemma {:induction false} ColouredAppend(t: char, codes: seq<string>, a: string, b: string)
    requires |codes| == 22
    requires a == [] || a[|a| - 1] != t
    ensures Coloured(t, codes, a + b) == Coloured(t, codes, a) + Coloured(t, codes, b)
    decreases |a|, 1
  {
    if a == [] {
      assert a + b == b;
    } else if CodeAt(t, a, 0) {
      ColouredAppendAfterCode(t, codes, a, b);
    } else {
      ColouredAppendAfterChar(t, codes, a, b);
    }
  }

  lemma {:induction false} ColouredAppendAfterCode(t: char, codes: seq<string>, a: string, b: string)
    requires |codes| == 22 && CodeAt(t, a, 0) && a[|a| - 1] != t
    ensures Coloured(t, codes, a + b) == Coloured(t, codes, a) + Coloured(t, codes, b)
    decreases |a|, 0
  {
    var s := a + b;
    var x := codes[Format(a[1])];
    assert a[2..] == [] || a[2..][|a| - 3] == a[|a| - 1];
    ColouredAppend(t, codes, a[2..], b);
    calc {
      Coloured(t, codes, s);
      { assert CodeAt(t, s, 0) && s[1] == a[1] && s[2..] == a[2..] + b; }
      x + Coloured(t, codes, a[2..] + b);
      x + (Coloured(t, codes, a[2..]) + Coloured(t, codes, b));
      (x + Coloured(t, codes, a[2..])) + Coloured(t, codes, b);
    }
  }

  lemma {:induction false} ColouredAppendAfterChar(t: char, codes: seq<string>, a: string, b: string)
    requires |codes| == 22 && a != [] && !CodeAt(t, a, 0) && a[|a| - 1] != t
    ensures Coloured(t, codes, a + b) == Coloured(t, codes, a) + Coloured(t, codes, b)
    decreases |a|, 0
  {
    var s := a + b;
    assert a[1..] == [] || a[1..][|a| - 2] == a[|a| - 1];
    ColouredAppend(t, codes, a[1..], b);
    calc {
      Coloured(t, codes, s);
      { assert |a| == 1 ==> a[0] != t;
        assert !CodeAt(t, s, 0) && s[0] == a[0] && s[1..] == a[1..] + b; }
      [a[0]] + Coloured(t, codes, a[1..] + b);
      [a[0]] + (Coloured(t, codes, a[1..]) + Coloured(t, codes, b));
      ([a[0]] + Coloured(t, codes, a[1..])) + Coloured(t, codes, b);
    }
  }

  /** A last character that is not a code, such as a trigger in the last position, ends the coloured text. */
  lemma {:induction false} ColouredKeepsLast(t: char, codes: seq<string>, s: string)
    requires |codes| == 22 && s != [] && !IsCode(s[|s| - 1])
    ensures var r := Coloured(t, codes, s); r != [] && r[|r| - 1] == s[|s| - 1]
    decreases |s|
  {
    if |s| >= 2 {
      var n := if CodeAt(t, s, 0) then 2 else 1;
      var tail := s[n..];
      assert tail != [] && tail[|tail| - 1] == s[|s| - 1];
      ColouredKeepsLast(t, codes, tail);
    }
  }

  /** A last character that is not a code, such as a trigger in the last position, ends the stripped text. */
  lemma {:induction false} StrippedKeepsLast(t: char, s: string)
    requires s != [] && !IsCode(s[|s| - 1])
    ensures var r := Stripped(t, s); r != [] && r[|r| - 1] == s[|s| - 1]
    decreases |s|
  {
    if |s| >= 2 {
      if !CodeAt(t, s, 0) {
        var tail := s[1..];
        assert tail[|tail| - 1] == s[|s| - 1];
        StrippedKeepsLast(t, tail);
      } else if |s| > 3 {
        var tail := s[3..];
        assert tail[|tail| - 1] == s[|s| - 1];
        StrippedKeepsLast(t, tail);
      }
    }
  }

  /** A trigger and a code are stripped, and the character after them is kept unexamined. */
  lemma CodeStripped(t: char, c: char, x: char, tail: string)
    requires IsCode(c)
    ensures Stripped(t, [t, c]) == []
    ensures Stripped(t, [t, c, x] + tail) == [x] + Stripped(t, tail)
  {
    var s := [t, c, x] + tail;
    assert CodeAt(t, s, 0) && s[3..] == tail;
  }

  /** After a stripped code the next code survives: `&a&b` becomes `&b`. */
  lemma AdjacentCodeSurvives(t: char, a: char, b: char)
    requires PlainTrigger(t) && IsCode(a) && IsCode(b)
    ensures StrippedString(t, [t, a, t, b]) == [t, b]
  {
    var s := [t, a, t, b];
    NoMatchFound(t, s, 0);
    RewriteWithoutMatch(t, s, 0, Erased);
    assert s[0..] == s;
    assert RgbRewrite(t, s, Erased) == s;
    assert CodeAt(t, s, 0) && s[3..] == [b];
    assert Stripped(t, s) == [t] + Stripped(t, [b]);
  }

  /** A lone trigger, or one before a character that is not a code, is left in the text. */
  lemma NonCodeKept(t: char, codes: seq<string>, c: char)
    requires |codes| == 22 && !IsCode(c)
    ensures Coloured(t, codes, [t]) == [t] && Stripped(t, [t]) == [t]
    ensures Coloured(t, codes, [t, c]) == [t, c] && Stripped(t, [t, c]) == [t, c]
  {
    assert [t, c][1..] == [c] && [c][1..] == [] && [t][1..] == [];
    assert Coloured(t, codes, []) == [];
    assert Coloured(t, codes, [c]) == [c] && Stripped(t, [c]) == [c];
  }

  /** `lastColor` finds the colour of a code at the end, after trailing blanks. */
  lemma TrimDropsBlanks(s: string)
    requires s != [] && s[0] > ' ' && s[|s| - 1] > ' '
    ensures Trim(" " + s + "  ") == s
  {
    assert (" " + s + "  ")[1..] == s + "  ";
    assert (s + "  ")[..|s| + 1] == s + " ";
    assert (s + " ")[..|s|] == s;
    assert Trim(s) == s;
    assert Trim(s + " ") == s;
    assert Trim(s + "  ") == s;
  }
}
