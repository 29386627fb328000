// Reading and writing the text of headers, kept as UTF-8 bytes: white space,
// decimal numbers, ASCII letters.
module Text {
  import opened Bytes
  import opened Decimals
  import opened Sequences
  import opened Utf8

  const CR: byte := '\r' as byte
  const LF: byte := '\n' as byte
  const SPACE: byte := ' ' as byte
  const COLON: byte := ':' as byte

  // -- White space --------------------------------------------------------------

  // A character of the Unicode property White_Space, which Rust's `trim` removes,
  // is encoded in the `n` bytes of `s` from `i` on.
  predicate IsSpace(s: seq<byte>, i: nat, n: nat)
    requires i + n <= |s|
  {
    match n
    case 1 => 0x09 <= s[i] <= 0x0D || s[i] == 0x20
    case 2 => s[i] == 0xC2 && (s[i + 1] == 0x85 || s[i + 1] == 0xA0)
    case 3 =>
      || (s[i] == 0xE1 && s[i + 1] == 0x9A && s[i + 2] == 0x80)
      || (s[i] == 0xE2 && s[i + 1] == 0x80
          && (0x80 <= s[i + 2] <= 0x8A || s[i + 2] == 0xA8 || s[i + 2] == 0xA9 || s[i + 2] == 0xAF))
      || (s[i] == 0xE2 && s[i + 1] == 0x81 && s[i + 2] == 0x9F)
      || (s[i] == 0xE3 && s[i + 1] == 0x80 && s[i + 2] == 0x80)
    case _ => false
  }

  // The length of the white space character that begins `s`; 0 for none.
  function SpaceFirst(s: seq<byte>): (n: nat)
    ensures n <= |s|
  {
    if |s| >= 1 && IsSpace(s, 0, 1) then 1
    else if |s| >= 2 && IsSpace(s, 0, 2) then 2
    else if |s| >= 3 && IsSpace(s, 0, 3) then 3
    else 0
  }

  function SpaceLast(s: seq<byte>): (n: nat)
    ensures n <= |s|
  {
    if |s| >= 1 && IsSpace(s, |s| - 1, 1) then 1
    else if |s| >= 2 && IsSpace(s, |s| - 2, 2) then 2
    else if |s| >= 3 && IsSpace(s, |s| - 3, 3) then 3
    else 0
  }

  function TrimStart(s: seq<byte>): seq<byte> {
    if SpaceFirst(s) == 0 then s else TrimStart(s[SpaceFirst(s)..])
  }

  function TrimEnd(s: seq<byte>): seq<byte> {
    if SpaceLast(s) == 0 then s else TrimEnd(s[..|s| - SpaceLast(s)])
  }

  function Trim(s: seq<byte>): seq<byte> {
    TrimEnd(TrimStart(s))
  }

  // Rust's `trim_end_matches` with a set of ASCII characters.
  function TrimEndMatches(s: seq<byte>, characters: set<byte>): seq<byte> {
    if s != [] && s[|s| - 1] in characters then TrimEndMatches(s[..|s| - 1], characters) else s
  }

  // A visible ASCII character.
  predicate IsGraphic(b: byte) {
    0x21 <= b <= 0x7E
  }

  lemma TrimStartStops(s: seq<byte>)
    requires s != [] && IsGraphic(s[0])
    ensures TrimStart(s) == s
  {
  }

  lemma TrimEndStops(s: seq<byte>)
    requires s != [] && IsGraphic(s[|s| - 1])
    ensures TrimEnd(s) == s
  {
  }

  // A word keeps its ends.
  lemma TrimOfWord(s: seq<byte>)
    requires s != [] && IsGraphic(s[0]) && IsGraphic(s[|s| - 1])
    ensures Trim(s) == s
  {
    TrimStartStops(s);
    TrimEndStops(s);
  }

  // The characters of the property by code point (section 4.10 of the Unicode Standard
  // and its file PropList).
  predicate IsWhite(c: int) {
    || 0x09 <= c <= 0x0D || c == 0x20 || c == 0x85 || c == 0xA0 || c == 0x1680
    || 0x2000 <= c <= 0x200A || c == 0x2028 || c == 0x2029 || c == 0x202F || c == 0x205F || c == 0x3000
  }

  // Exactly these are taken for white space.
  lemma SpaceIffWhite(c: nat)
    requires c < 0x1_0000
    ensures IsSpace(Encoded(c), 0, |Encoded(c)|) <==> IsWhite(c)
  {
  }

  ghost predicate AreWhite(characters: seq<seq<byte>>) {
    forall i :: 0 <= i < |characters| ==> IsWhiteCharacter(characters[i])
  }

  ghost predicate IsWhiteCharacter(bytes: seq<byte>) {
    exists c: nat :: c < 0x1_0000 && IsWhite(c) && bytes == Encoded(c)
  }

  lemma WhiteFirst(bytes: seq<byte>, rest: seq<byte>)
    requires IsWhiteCharacter(bytes)
    ensures SpaceFirst(bytes + rest) == |bytes| && (bytes + rest)[|bytes|..] == rest
  {
    var c: nat :| c < 0x1_0000 && IsWhite(c) && bytes == Encoded(c);
    SpaceIffWhite(c);
    var s := bytes + rest;
    assert forall i :: 0 <= i < |bytes| ==> s[i] == bytes[i];
  }

  lemma WhiteLast(rest: seq<byte>, bytes: seq<byte>)
    requires IsWhiteCharacter(bytes)
    ensures SpaceLast(rest + bytes) == |bytes| && (rest + bytes)[..|rest|] == rest
  {
    var c: nat :| c < 0x1_0000 && IsWhite(c) && bytes == Encoded(c);
    SpaceIffWhite(c);
    var s := rest + bytes;
    assert forall i :: 0 <= i < |bytes| ==> s[|rest| + i] == bytes[i];
  }

  lemma {:induction false} TrimStartDrops(white: seq<seq<byte>>, core: seq<byte>)
    requires AreWhite(white)
    ensures TrimStart(Flatten(white) + core) == TrimStart(core)
  {
    if white == [] {
      assert Flatten(white) + core == core;
    } else {
      Regrouped(white[0], Flatten(white[1..]), core);
      WhiteFirst(white[0], Flatten(white[1..]) + core);
      TrimStartDrops(white[1..], core);
    }
  }

  lemma {:induction false} TrimEndDrops(core: seq<byte>, white: seq<seq<byte>>)
    requires AreWhite(white)
    ensures TrimEnd(core + Flatten(white)) == TrimEnd(core)
  {
    if white == [] {
      assert core + Flatten(white) == core;
    } else {
      var front, last := white[..|white| - 1], white[|white| - 1];
      assert white == front + [last];
      FlattenSnoc(front, last);
      Regrouped(core, Flatten(front), last);
      WhiteLast(core + Flatten(front), last);
      TrimEndDrops(core, front);
    }
  }

  // Trimming takes all white space around a word and nothing of the word.
  lemma TrimLeavesWord(before: seq<seq<byte>>, word: seq<byte>, after: seq<seq<byte>>)
    requires AreWhite(before) && AreWhite(after)
    requires word != [] && IsGraphic(word[0]) && IsGraphic(word[|word| - 1])
    ensures Trim(Flatten(before) + word + Flatten(after)) == word
  {
    Regrouped(Flatten(before), word, Flatten(after));
    TrimStartDrops(before, word + Flatten(after));
    TrimStartStops(word + Flatten(after));
    TrimEndDrops(word, after);
    TrimEndStops(word);
  }

  // Of nothing but white space it leaves nothing.
  lemma TrimLeavesNothing(white: seq<seq<byte>>)
    requires AreWhite(white)
    ensures Trim(Flatten(white)) == []
  {
    assert Flatten(white) + [] == Flatten(white);
    TrimStartDrops(white, []);
  }

  // -- ASCII ----------------------------------------------------------------------

  ghost predicate IsAscii(s: seq<byte>) {
    forall i :: 0 <= i < |s| ==> s[i] < 0x80
  }

  lemma {:induction false} AsciiIsText(s: seq<byte>)
    requires IsAscii(s)
    ensures FromUtf8(s).Valid?
  {
    if s != [] {
      AsciiIsText(s[1..]);
    }
  }

  // The bytes of ASCII text.
  function Ascii(text: string): (bytes: seq<byte>)
    requires forall i :: 0 <= i < |text| ==> text[i] < 128 as char
    ensures |bytes| == |text| && forall i :: 0 <= i < |text| ==> bytes[i] as int == text[i] as int
  {
    seq(|text|, i requires 0 <= i < |text| => text[i] as byte)
  }

  function Lower(b: byte): byte {
    if 0x41 <= b <= 0x5A then b + 0x20 else b
  }

  predicate EqIgnoreCase(a: seq<byte>, b: seq<byte>) {
    |a| == |b| && forall i :: 0 <= i < |a| ==> Lower(a[i]) == Lower(b[i])
  }

  // -- Decimal numbers ----------------------------------------------------------------

  predicate IsDigit(b: byte) {
    IsDigitCode(b as int)
  }

  predicate AllDigits(s: seq<byte>) {
    forall i :: 0 <= i < |s| ==> IsDigit(s[i])
  }

  function Codes(s: seq<byte>): (codes: seq<int>)
    ensures |codes| == |s| && forall i :: 0 <= i < |s| ==> codes[i] == s[i] as int
  {
    seq(|s|, i requires 0 <= i < |s| => s[i] as int)
  }

  // A number as its decimal digits, and back.
  function Decimal(n: nat): (s: seq<byte>)
    ensures s != [] && AllDigits(s)
  {
    seq(|DecimalCodes(n)|, i requires 0 <= i < |DecimalCodes(n)| => DecimalCodes(n)[i] as byte)
  }

  function ParseUnsigned(s: seq<byte>, max: nat): (n: Option<nat>)
    ensures n.Some? ==> n.value <= max
  {
    ParseCodes(Codes(s), max)
  }

  lemma ParseDecimal(n: nat, max: nat)
    requires n <= max
    ensures ParseUnsigned(Decimal(n), max) == Some(n)
  {
    assert Codes(Decimal(n)) == DecimalCodes(n);
    CodesReadBack(n, max);
  }
}
