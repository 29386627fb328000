// UTF-8 as section 4 of RFC 3629 defines it, and the validation Rust's
// `std::str::from_utf8` does: how much of a byte sequence is well-formed, and
// whether what follows is truncated or broken (one maximal subpart, section 3.9
// of the Unicode Standard).
module Utf8 {
  import opened Bytes
  import opened Sequences

  // -- What UTF-8 is ----------------------------------------------------------

  predicate IsTail(b: byte) {
    0x80 <= b <= 0xBF
  }

  // One character: UTF8-1, UTF8-2, UTF8-3 or UTF8-4 of the grammar.
  predicate IsCharacter(s: seq<byte>) {
    match |s|
    case 1 => s[0] <= 0x7F
    case 2 => 0xC2 <= s[0] <= 0xDF && IsTail(s[1])
    case 3 =>
      && IsTail(s[2])
      && (|| (s[0] == 0xE0 && 0xA0 <= s[1] <= 0xBF)
          || (0xE1 <= s[0] <= 0xEC && IsTail(s[1]))
          || (s[0] == 0xED && 0x80 <= s[1] <= 0x9F)
          || (0xEE <= s[0] <= 0xEF && IsTail(s[1])))
    case 4 =>
      && IsTail(s[2])
      && IsTail(s[3])
      && (|| (s[0] == 0xF0 && 0x90 <= s[1] <= 0xBF)
          || (0xF1 <= s[0] <= 0xF3 && IsTail(s[1]))
          || (s[0] == 0xF4 && 0x80 <= s[1] <= 0x8F))
    case _ => false
  }

  // The code points characters have: all but the surrogates.
  predicate IsScalar(c: nat) {
    c <= 0xD7FF || 0xE000 <= c <= 0x10_FFFF
  }

  // A code point in UTF-8, its bits six by six (section 3 of RFC 3629).
  function Encoded(c: nat): (bytes: seq<byte>)
    requires c <= 0x10_FFFF
    ensures 1 <= |bytes| <= 4
  {
    if c < 0x80 then [c as byte]
    else if c < 0x800 then [(0xC0 + c / 0x40) as byte, (0x80 + c % 0x40) as byte]
    else if c < 0x1_0000 then
      [(0xE0 + c / 0x1000) as byte, (0x80 + c / 0x40 % 0x40) as byte, (0x80 + c % 0x40) as byte]
    else
      [(0xF0 + c / 0x4_0000) as byte, (0x80 + c / 0x1000 % 0x40) as byte,
       (0x80 + c / 0x40 % 0x40) as byte, (0x80 + c % 0x40) as byte]
  }

  // The grammar's characters are the encodings of these code points, each of one.
  lemma EncodedIsCharacter(c: nat)
    requires c <= 0x10_FFFF
    ensures IsCharacter(Encoded(c)) <==> IsScalar(c)
  {
  }

  lemma SixBits(high: nat, low: nat)
    requires low < 0x40
    ensures (high * 0x40 + low) / 0x40 == high && (high * 0x40 + low) % 0x40 == low
  {
  }

  // Three times six bits above the last six.
  lemma Parts(a: nat, b: nat, c: nat, d: nat)
    requires b < 0x40 && c < 0x40 && d < 0x40
    ensures var point := ((a * 0x40 + b) * 0x40 + c) * 0x40 + d;
            && point / 0x40 == (a * 0x40 + b) * 0x40 + c && point % 0x40 == d
            && point / 0x1000 == a * 0x40 + b && point / 0x40 % 0x40 == c
            && point / 0x4_0000 == a && point / 0x1000 % 0x40 == b
  {
    SixBits((a * 0x40 + b) * 0x40 + c, d);
    SixBits(a * 0x40 + b, c);
    SixBits(a, b);
  }

  lemma CharacterIsEncoded(s: seq<byte>) returns (c: nat)
    requires IsCharacter(s)
    ensures IsScalar(c) && Encoded(c) == s
  {
    if |s| == 1 {
      c := s[0] as int;
    } else if |s| == 2 {
      var high, low := s[0] as int - 0xC0, s[1] as int - 0x80;
      SixBits(high, low);
      c := high * 0x40 + low;
    } else if |s| == 3 {
      c := ThreeAreEncoded(s);
    } else {
      c := FourAreEncoded(s);
    }
  }

  lemma ThreeAreEncoded(s: seq<byte>) returns (c: nat)
    requires IsCharacter(s) && |s| == 3
    ensures IsScalar(c) && Encoded(c) == s
  {
    var x, y, z := s[0] as int - 0xE0, s[1] as int - 0x80, s[2] as int - 0x80;
    Parts(0, x, y, z);
    c := (x * 0x40 + y) * 0x40 + z;
    assert 0x800 <= c < 0x1_0000;
  }

  lemma FourAreEncoded(s: seq<byte>) returns (c: nat)
    requires IsCharacter(s) && |s| == 4
    ensures IsScalar(c) && Encoded(c) == s
  {
    var w, x, y, z := s[0] as int - 0xF0, s[1] as int - 0x80, s[2] as int - 0x80, s[3] as int - 0x80;
    Parts(w, x, y, z);
    c := ((w * 0x40 + x) * 0x40 + y) * 0x40 + z;
    assert 0x1_0000 <= c <= 0x10_FFFF;
  }

  // The start of a character, not yet all of it.
  ghost predicate IsTruncated(s: seq<byte>) {
    s != [] && exists character: seq<byte> :: IsCharacter(character) && s < character
  }

  ghost predicate IsText(s: seq<byte>, characters: seq<seq<byte>>) {
    Flatten(characters) == s && forall i :: 0 <= i < |characters| ==> IsCharacter(characters[i])
  }

  ghost predicate WellFormed(s: seq<byte>) {
    exists characters :: IsText(s, characters)
  }

  // The broken sequence `s` starts with: the longest prefix of `s` that starts
  // a character, or a single byte when none does.
  ghost predicate IsMaximalSubpart(s: seq<byte>, n: nat) {
    && 1 <= n <= |s|
    && (n == 1 || IsTruncated(s[..n]))
    && (forall m :: 1 <= m <= |s| ==> !IsCharacter(s[..m]))
    && (forall m :: n < m <= |s| ==> !IsTruncated(s[..m]))
  }

  // -- Validation -------------------------------------------------------------

  // How many bytes a character starting with `first` takes, 0 if none does.
  function Width(first: byte): nat {
    if first <= 0x7F then 1
    else if first < 0xC2 then 0
    else if first <= 0xDF then 2
    else if first <= 0xEF then 3
    else if first <= 0xF4 then 4
    else 0
  }

  predicate SecondFits(first: byte, second: byte) {
    match first
    case 0xE0 => 0xA0 <= second <= 0xBF
    case 0xED => 0x80 <= second <= 0x9F
    case 0xF0 => 0x90 <= second <= 0xBF
    case 0xF4 => 0x80 <= second <= 0x8F
    case _ => IsTail(second)
  }

  // What a byte sequence starts with.
  datatype Head = Character(length: nat) | Broken(length: nat) | Truncated

  function HeadOf(s: seq<byte>): (head: Head)
    requires s != []
    ensures head.Character? ==> 1 <= head.length <= |s|
    ensures head.Broken? ==> 1 <= head.length <= |s|
    ensures head.Truncated? ==> |s| <= 3
  {
    var width := Width(s[0]);
    if width == 0 then Broken(1)
    else if width == 1 then Character(1)
    else if |s| < 2 then Truncated
    else if !SecondFits(s[0], s[1]) then Broken(1)
    else if width == 2 then Character(2)
    else if |s| < 3 then Truncated
    else if !IsTail(s[2]) then Broken(2)
    else if width == 3 then Character(3)
    else if |s| < 4 then Truncated
    else if !IsTail(s[3]) then Broken(3)
    else Character(4)
  }

  // `Utf8Error`'s `valid_up_to` and `error_len`.
  datatype Validation = Valid | Invalid(validUpTo: nat, errorLen: Option<nat>)

  function FromUtf8(s: seq<byte>): (v: Validation)
    ensures v.Invalid? ==> v.validUpTo < |s|
    ensures v.Invalid? && v.errorLen.Some? ==> 1 <= v.errorLen.value <= |s| - v.validUpTo
  {
    if s == [] then Valid
    else match HeadOf(s)
      case Character(n) =>
        (match FromUtf8(s[n..])
         case Valid => Valid
         case Invalid(upTo, len) => Invalid(n + upTo, len))
      case Broken(n) => Invalid(0, Some(n))
      case Truncated => Invalid(0, None)
  }

  // -- Validation agrees with the grammar ---------------------------------------

  lemma HeadIsCharacter(s: seq<byte>, n: nat)
    requires 1 <= n <= |s|
    ensures IsCharacter(s[..n]) <==> HeadOf(s) == Character(n)
  {
  }

  // A character that the truncated sequence `s` starts.
  function Completion(s: seq<byte>): (character: seq<byte>)
    requires s != [] && HeadOf(s) == Truncated
    ensures IsCharacter(character) && s < character
  {
    var second := if |s| >= 2 then s[1]
                  else if s[0] == 0xE0 then 0xA0
                  else if s[0] == 0xF0 then 0x90
                  else 0x80;
    var third := if |s| >= 3 then s[2] else 0x80;
    var all := [s[0], second, third, 0x80];
    assert s < all;
    all[..Width(s[0])]
  }

  lemma TruncatedHead(s: seq<byte>)
    requires s != []
    ensures IsTruncated(s) <==> HeadOf(s) == Truncated
  {
    if HeadOf(s) == Truncated {
      assert s < Completion(s);
    }
    if IsTruncated(s) {
      var character :| IsCharacter(character) && s < character;
      HeadIsCharacter(character, |character|);
      assert character[..|character|] == character;
      assert s == character[..|s|];
    }
  }

  lemma BrokenHead(s: seq<byte>)
    requires s != [] && HeadOf(s).Broken?
    ensures IsMaximalSubpart(s, HeadOf(s).length)
  {
    var n := HeadOf(s).length;
    TruncatedHead(s[..n]);
    forall m | 1 <= m <= |s|
      ensures !IsCharacter(s[..m]) && (m > n ==> !IsTruncated(s[..m]))
    {
      HeadIsCharacter(s, m);
      TruncatedHead(s[..m]);
    }
  }

  lemma WellFormedPrepend(character: seq<byte>, rest: seq<byte>)
    requires IsCharacter(character) && WellFormed(rest)
    ensures WellFormed(character + rest)
  {
    var characters :| IsText(rest, characters);
    var all := [character] + characters;
    assert all[1..] == characters;
    assert IsText(character + rest, all);
  }

  // The first character of a text is its head, whatever follows.
  lemma WellFormedHead(s: seq<byte>)
    requires WellFormed(s) && s != []
    ensures HeadOf(s).Character? && WellFormed(s[HeadOf(s).length..])
  {
    var characters :| IsText(s, characters);
    assert characters != [];
    var first := characters[0];
    assert s == first + Flatten(characters[1..]);
    assert s[..|first|] == first;
    HeadIsCharacter(s, |first|);
    assert IsText(s[|first|..], characters[1..]);
  }

  lemma EmptyIsWellFormed()
    ensures WellFormed([])
  {
    assert IsText([], []);
  }

  // `from_utf8` accepts exactly the well-formed sequences.
  lemma {:induction false} ValidIffWellFormed(s: seq<byte>)
    ensures FromUtf8(s).Valid? <==> WellFormed(s)
  {
    if s == [] {
      EmptyIsWellFormed();
    } else {
      if WellFormed(s) {
        WellFormedHead(s);
      }
      if HeadOf(s).Character? {
        var n := HeadOf(s).length;
        ValidIffWellFormed(s[n..]);
        HeadIsCharacter(s, n);
        assert s == s[..n] + s[n..];
        if WellFormed(s[n..]) {
          WellFormedPrepend(s[..n], s[n..]);
        }
      }
    }
  }

  // The two numbers of a refusal: everything before `validUpTo` is text and no
  // longer prefix is; what follows is a truncated character when `errorLen` is
  // missing, else it starts with one maximal subpart `errorLen` long.
  lemma {:induction false} InvalidMeans(s: seq<byte>)
    requires FromUtf8(s).Invalid?
    ensures var e := FromUtf8(s);
            && WellFormed(s[..e.validUpTo])
            && (forall m :: e.validUpTo < m <= |s| ==> !WellFormed(s[..m]))
            && (e.errorLen == None <==> IsTruncated(s[e.validUpTo..]))
            && (e.errorLen.Some? ==> IsMaximalSubpart(s[e.validUpTo..], e.errorLen.value))
  {
    var e := FromUtf8(s);
    match HeadOf(s)
    case Character(n) =>
      InvalidMeans(s[n..]);
      var up := e.validUpTo - n;
      assert s[n..][up..] == s[e.validUpTo..];
      forall m | n <= m <= |s|
        ensures WellFormed(s[..m]) <==> WellFormed(s[n..][..m - n])
      {
        WellFormedAfter(s, n, m);
      }
      forall m | e.validUpTo < m <= |s|
        ensures !WellFormed(s[..m])
      {
        assert !WellFormed(s[n..][..m - n]);
      }
    case Broken(n) =>
      EmptyIsWellFormed();
      assert s[..0] == [] && s[0..] == s;
      BrokenHead(s);
      TruncatedHead(s);
      NoTextWithoutCharacter(s);
    case Truncated =>
      EmptyIsWellFormed();
      assert s[..0] == [] && s[0..] == s;
      TruncatedHead(s);
      NoTextWithoutCharacter(s);
  }

  // Past a leading character, a prefix is text exactly when its rest is.
  lemma WellFormedAfter(s: seq<byte>, n: nat, m: nat)
    requires s != [] && HeadOf(s) == Character(n) && n <= m <= |s|
    ensures WellFormed(s[..m]) <==> WellFormed(s[n..][..m - n])
  {
    HeadIsCharacter(s, n);
    Slices(s, n, m);
    HeadIsCharacter(s[..m], n);
    if WellFormed(s[..m]) {
      WellFormedHead(s[..m]);
    }
    if WellFormed(s[n..][..m - n]) {
      WellFormedPrepend(s[..n], s[n..][..m - n]);
    }
  }

  lemma NoTextWithoutCharacter(s: seq<byte>)
    requires s != [] && !HeadOf(s).Character?
    ensures forall m :: 0 < m <= |s| ==> !WellFormed(s[..m])
  {
    forall m | 0 < m <= |s|
      ensures !WellFormed(s[..m])
    {
      if WellFormed(s[..m]) {
        WellFormedHead(s[..m]);
        assert false;
      }
    }
  }

  // Validating a prefix that is text.
  lemma ValidPrefix(s: seq<byte>)
    requires FromUtf8(s).Invalid?
    ensures FromUtf8(s[..FromUtf8(s).validUpTo]).Valid?
  {
    InvalidMeans(s);
    ValidIffWellFormed(s[..FromUtf8(s).validUpTo]);
  }

  // -- Lossy decoding -----------------------------------------------------------

  // U+FFFD, as a Rust `String` keeps it.
  const REPLACEMENT: seq<byte> := [0xEF, 0xBF, 0xBD]

  lemma ReplacementIsEncoded()
    ensures REPLACEMENT == Encoded(0xFFFD)
  {
  }

  // `String::from_utf8_lossy`: every maximal subpart becomes one U+FFFD.
  function Lossy(s: seq<byte>): seq<byte> {
    if s == [] then []
    else match HeadOf(s)
      case Character(n) => s[..n] + Lossy(s[n..])
      case Broken(n) => REPLACEMENT + Lossy(s[n..])
      case Truncated => REPLACEMENT
  }

  // How `parts` cut `s` and what each part reads as: a character as itself, a
  // maximal subpart (a truncated character at the very end is one) as U+FFFD.
  ghost predicate IsLossyReading(s: seq<byte>, parts: seq<seq<byte>>, text: seq<byte>)
    decreases |parts|
  {
    if parts == [] then s == [] && text == []
    else
      && parts[0] <= s
      && var rest := s[|parts[0]|..];
         || (&& IsCharacter(parts[0])
             && parts[0] <= text
             && IsLossyReading(rest, parts[1..], text[|parts[0]|..]))
         || (&& (IsMaximalSubpart(s, |parts[0]|) || (IsTruncated(s) && rest == []))
             && REPLACEMENT <= text
             && IsLossyReading(rest, parts[1..], text[|REPLACEMENT|..]))
  }

  // The one-shot decoding reads every byte, each maximal subpart as one U+FFFD.
  lemma {:induction false} LossyReads(s: seq<byte>) returns (parts: seq<seq<byte>>)
    ensures IsLossyReading(s, parts, Lossy(s))
  {
    if s == [] {
      parts := [];
    } else {
      match HeadOf(s)
      case Character(n) =>
        var rest := LossyReads(s[n..]);
        HeadIsCharacter(s, n);
        parts := [s[..n]] + rest;
        assert parts[1..] == rest;
        assert Lossy(s)[n..] == Lossy(s[n..]);
      case Broken(n) =>
        var rest := LossyReads(s[n..]);
        BrokenHead(s);
        parts := [s[..n]] + rest;
        assert parts[1..] == rest;
        assert Lossy(s)[3..] == Lossy(s[n..]);
      case Truncated =>
        TruncatedHead(s);
        parts := [s];
        assert s[|s|..] == [];
        assert REPLACEMENT[|REPLACEMENT|..] == [];
        assert parts[1..] == [];
        assert IsLossyReading([], [], []);
    }
  }

  // Text is its own decoding.
  lemma {:induction false} LossyOfText(s: seq<byte>)
    requires WellFormed(s)
    ensures Lossy(s) == s
  {
    if s != [] {
      WellFormedHead(s);
      LossyOfText(s[HeadOf(s).length..]);
    }
  }
}
