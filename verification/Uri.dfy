// `file://` URIs, as the host and the editor name documents. Paths and URIs are
// UTF-8 bytes.
module Uris {
  import opened Bytes
  import opened Sequences
  import opened Text
  import opened Utf8

  const SLASH: byte := '/' as byte
  const BACKSLASH: byte := '\\' as byte
  const PERCENT: byte := '%' as byte
  const PLUS: byte := '+' as byte

  // "file://"
  const SCHEME: seq<byte> := [0x66, 0x69, 0x6C, 0x65, 0x3A, 0x2F, 0x2F]
  // "localhost"
  const LOCALHOST: seq<byte> := [0x6C, 0x6F, 0x63, 0x61, 0x6C, 0x68, 0x6F, 0x73, 0x74]

  // -- Bytes ----------------------------------------------------------------------

  predicate IsLetter(b: byte) {
    0x41 <= b <= 0x5A || 0x61 <= b <= 0x7A
  }

  // What a path keeps as it is: the unreserved characters of section 2.3 of
  // RFC 3986, `/` and `:`.
  predicate Unreserved(b: byte) {
    IsLetter(b) || 0x30 <= b <= 0x39 || b in {0x2D, 0x2E, 0x5F, 0x7E, SLASH, COLON}
  }

  function HexDigit(n: int): byte
    requires 0 <= n < 16
  {
    if n < 10 then (0x30 + n) as byte else (0x37 + n) as byte
  }

  function HexValue(b: byte): Option<int> {
    if 0x30 <= b <= 0x39 then Some(b as int - 0x30)
    else if 0x41 <= b <= 0x46 then Some(b as int - 0x37)
    else if 0x61 <= b <= 0x66 then Some(b as int - 0x57)
    else None
  }

  function Replace(s: seq<byte>, from: byte, to: byte): (r: seq<byte>)
    ensures |r| == |s|
    ensures forall i :: 0 <= i < |s| ==> r[i] == if s[i] == from then to else s[i]
  {
    seq(|s|, i requires 0 <= i < |s| => if s[i] == from then to else s[i])
  }

  // -- What they are -----------------------------------------------------------------

  lemma PartsAreSpelled()
    ensures SCHEME == Ascii("file://") && LOCALHOST == Ascii("localhost")
    ensures [SLASH, BACKSLASH, COLON, PERCENT, PLUS] == Ascii("/\\:%+")
  {
  }

  lemma LetterIff(b: byte)
    ensures IsLetter(b) <==> 'A' <= b as char <= 'Z' || 'a' <= b as char <= 'z'
  {
  }

  lemma UnreservedIff(b: byte)
    ensures Unreserved(b) <==> IsLetter(b) || '0' <= b as char <= '9' || b as char in {'-', '.', '_', '~', '/', ':'}
  {
  }

  // `b` is the digit of value `n`, small or a capital.
  predicate IsDigitOf(b: byte, n: int) {
    0 <= n < 16 && (b as char == "0123456789ABCDEF"[n] || b as char == "0123456789abcdef"[n])
  }

  lemma HexValueIff(b: byte, n: int)
    ensures HexValue(b) == Some(n) <==> IsDigitOf(b, n)
  {
    var capitals, small := "0123456789ABCDEF", "0123456789abcdef";
    if 0 <= n < 10 {
      assert capitals[n] == small[n] == '0' + n as char;
    } else if n < 16 && n >= 10 {
      assert capitals[n] == 'A' + (n - 10) as char && small[n] == 'a' + (n - 10) as char;
    }
  }

  lemma HexDigitIs(n: int)
    requires 0 <= n < 16
    ensures HexDigit(n) as char == "0123456789ABCDEF"[n]
  {
    var capitals := "0123456789ABCDEF";
    assert n < 10 ==> capitals[n] == '0' + n as char;
    assert n >= 10 ==> capitals[n] == 'A' + (n - 10) as char;
  }

  // -- The host's side ---------------------------------------------------------------

  function EncodeByte(b: byte): seq<byte> {
    if Unreserved(b) then [b] else [PERCENT, HexDigit(b as int / 16), HexDigit(b as int % 16)]
  }

  function Encode(s: seq<byte>): seq<byte> {
    if s == [] then [] else EncodeByte(s[0]) + Encode(s[1..])
  }

  // A path with `/` between its names and before the first.
  function Slashed(path: seq<byte>): seq<byte> {
    var slashed := Replace(path, BACKSLASH, SLASH);
    if slashed != [] && slashed[0] == SLASH then slashed else [SLASH] + slashed
  }

  function UriOf(path: seq<byte>): seq<byte> {
    SCHEME + Encode(Slashed(path))
  }

  method FromPath(path: seq<byte>) returns (out: seq<byte>)
    ensures out == UriOf(path)
  {
    var slashed := Replace(path, BACKSLASH, SLASH);
    if !([SLASH] <= slashed) {
      slashed := [SLASH] + slashed;
    }
    out := SCHEME;
    for i := 0 to |slashed|
      invariant out + Encode(slashed[i..]) == SCHEME + Encode(slashed)
    {
      var b := slashed[i];
      assert slashed[i..][1..] == slashed[i + 1..];
      Regrouped(out, EncodeByte(b), Encode(slashed[i + 1..]));
      if Unreserved(b) {
        out := out + [b];
      } else {
        out := out + [PERCENT, HexDigit(b as int / 16), HexDigit(b as int % 16)];
      }
    }
  }

  // Two hexadecimal digits as Rust's `from_str_radix` reads them: a `+` may
  // stand for the first.
  function RadixPair(a: byte, b: byte): (n: Option<byte>) {
    match HexValue(b)
    case None => None
    case Some(low) =>
      if a == PLUS then Some(low as byte)
      else match HexValue(a)
        case None => None
        case Some(high) => Some((16 * high + low) as byte)
  }

  function Unescape(s: seq<byte>): Option<seq<byte>> {
    if s == [] then Some([])
    else if s[0] == PERCENT then
      if |s| < 3 || RadixPair(s[1], s[2]).None? then None
      else Before([RadixPair(s[1], s[2]).value], Unescape(s[3..]))
    else Before([s[0]], Unescape(s[1..]))
  }

  function Before(front: seq<byte>, rest: Option<seq<byte>>): Option<seq<byte>> {
    if rest.Some? then Some(front + rest.value) else None
  }

  lemma BeforeNothing(rest: Option<seq<byte>>)
    ensures Before([], rest) == rest
  {
    if rest.Some? {
      assert [] + rest.value == rest.value;
    }
  }

  lemma BeforeSnoc(front: seq<byte>, b: byte, rest: Option<seq<byte>>)
    ensures Before(front, Before([b], rest)) == Before(front + [b], rest)
  {
    if rest.Some? {
      Regrouped(front, [b], rest.value);
    }
  }

  function AsText(s: Option<seq<byte>>): Option<seq<byte>> {
    if s.Some? && FromUtf8(s.value).Valid? then s else None
  }

  method Decode(bytes: seq<byte>) returns (decoded: Option<seq<byte>>)
    ensures decoded == AsText(Unescape(bytes))
  {
    var out: seq<byte> := [];
    var i := 0;
    assert bytes[0..] == bytes;
    BeforeNothing(Unescape(bytes));
    while i < |bytes|
      invariant 0 <= i <= |bytes|
      invariant Unescape(bytes) == Before(out, Unescape(bytes[i..]))
    {
      if bytes[i] == PERCENT {
        if i + 3 > |bytes| {
          return None;
        }
        assert bytes[i..][3..] == bytes[i + 3..];
        var b := RadixPair(bytes[i + 1], bytes[i + 2]);
        if b.None? {
          return None;
        }
        BeforeSnoc(out, b.value, Unescape(bytes[i + 3..]));
        out := out + [b.value];
        i := i + 3;
      } else {
        assert bytes[i..][1..] == bytes[i + 1..];
        BeforeSnoc(out, bytes[i], Unescape(bytes[i + 1..]));
        out := out + [bytes[i]];
        i := i + 1;
      }
    }
    assert bytes[i..] == [];
    assert out + bytes[i..] == out;
    return if FromUtf8(out).Valid? then Some(out) else None;
  }

  // `/X:`, then anything.
  predicate IsDrive(s: seq<byte>) {
    |s| >= 3 && s[2] == COLON && IsLetter(s[1])
  }

  // A decoded path, on Windows without its first `/` and with `\`.
  function Local(decoded: seq<byte>): seq<byte> {
    if IsDrive(decoded) then Replace(decoded[1..], SLASH, BACKSLASH) else decoded
  }

  // What stands after the scheme, and after a host that is this one.
  function AfterHost(uri: seq<byte>): Option<seq<byte>> {
    if !(SCHEME <= uri) then None
    else
      var rest := uri[|SCHEME|..];
      var local := if LOCALHOST <= rest then rest[|LOCALHOST|..] else rest;
      if local != [] && local[0] == SLASH then Some(local) else None
  }

  function PathOf(uri: seq<byte>): Option<seq<byte>> {
    var rest := AfterHost(uri);
    if rest.None? then None
    else match AsText(Unescape(rest.value))
      case Some(decoded) => Some(Local(decoded))
      case None => None
  }

  method ToPath(uri: seq<byte>) returns (path: Option<seq<byte>>)
    ensures path == PathOf(uri)
  {
    var rest := AfterHost(uri);
    if rest.None? {
      return None;
    }
    var decoded := Decode(rest.value);
    if decoded.None? {
      return None;
    }
    return Some(Local(decoded.value));
  }

  // -- The editor's side -------------------------------------------------------------

  // The byte in base sixteen with capitals, a zero before a single digit.
  function PaddedHex(b: byte): seq<byte> {
    var n := b as int;
    var digits := if n < 16 then [HexDigit(n)] else [HexDigit(n / 16), HexDigit(n % 16)];
    if |digits| < 2 then [0x30] + digits else digits
  }

  function EditorByte(b: byte): seq<byte> {
    if b < 0x80 && Unreserved(b) then [b] else [PERCENT] + PaddedHex(b)
  }

  // The editor writes each byte as the host does.
  lemma EditorByteIsHosts(b: byte)
    ensures EditorByte(b) == EncodeByte(b)
  {
    var n := b as int;
    assert n < 16 ==> n / 16 == 0 && n % 16 == n;
    assert PaddedHex(b) == [HexDigit(n / 16), HexDigit(n % 16)];
  }

  // The editor's URI of a path is the host's.
  method UriFromPath(path: seq<byte>) returns (out: seq<byte>)
    ensures out == UriOf(path)
  {
    var slashed := Replace(path, BACKSLASH, SLASH);
    if !([SLASH] <= slashed) {
      slashed := [SLASH] + slashed;
    }
    out := SCHEME;
    for i := 0 to |slashed|
      invariant out + Encode(slashed[i..]) == SCHEME + Encode(slashed)
    {
      var b := slashed[i];
      assert slashed[i..][1..] == slashed[i + 1..];
      Regrouped(out, EncodeByte(b), Encode(slashed[i + 1..]));
      EditorByteIsHosts(b);
      out := out + EditorByte(b);
    }
  }

  // The standard decoder of JavaScript takes two hexadecimal digits after each `%`,
  // and nothing else.
  function StrictUnescape(s: seq<byte>): Option<seq<byte>> {
    if s == [] then Some([])
    else if s[0] == PERCENT then
      if |s| < 3 || HexValue(s[1]).None? || HexValue(s[2]).None? then None
      else Before([(16 * HexValue(s[1]).value + HexValue(s[2]).value) as byte], StrictUnescape(s[3..]))
    else Before([s[0]], StrictUnescape(s[1..]))
  }

  function PathFromUri(uri: seq<byte>): Option<seq<byte>> {
    var rest := AfterHost(uri);
    if rest.None? then None
    else match AsText(StrictUnescape(rest.value))
      case Some(decoded) => Some(Local(decoded))
      case None => None
  }

  // -- Round trips ----------------------------------------------------------------------

  lemma HexReadsBack(n: int)
    requires 0 <= n < 16
    ensures HexValue(HexDigit(n)) == Some(n) && HexDigit(n) != PLUS
  {
  }

  lemma {:induction false} UnescapeEncode(s: seq<byte>)
    ensures Unescape(Encode(s)) == Some(s) && StrictUnescape(Encode(s)) == Some(s)
  {
    if s != [] {
      UnescapeEncode(s[1..]);
      var b, rest := s[0], Encode(s[1..]);
      assert s == [b] + s[1..];
      if Unreserved(b) {
        assert ([b] + rest)[1..] == rest;
      } else {
        var high, low := b as int / 16, b as int % 16;
        HexReadsBack(high);
        HexReadsBack(low);
        assert ([PERCENT, HexDigit(high), HexDigit(low)] + rest)[3..] == rest;
      }
    }
  }

  lemma {:induction false} ReplaceIsText(s: seq<byte>, from: byte, to: byte)
    requires WellFormed(s) && from < 0x80 && to < 0x80
    ensures WellFormed(Replace(s, from, to))
    decreases |s|
  {
    if s == [] {
      assert Replace(s, from, to) == [];
    } else {
      WellFormedHead(s);
      var n := HeadOf(s).length;
      HeadIsCharacter(s, n);
      ReplaceIsText(s[n..], from, to);
      ReplaceInCharacter(s[..n], from, to);
      WellFormedPrepend(Replace(s[..n], from, to), Replace(s[n..], from, to));
      ReplaceParts(s, n, from, to);
    }
  }

  lemma ReplaceParts(s: seq<byte>, n: nat, from: byte, to: byte)
    requires n <= |s|
    ensures Replace(s, from, to) == Replace(s[..n], from, to) + Replace(s[n..], from, to)
  {
  }

  lemma ReplaceInCharacter(c: seq<byte>, from: byte, to: byte)
    requires IsCharacter(c) && from < 0x80 && to < 0x80
    ensures IsCharacter(Replace(c, from, to))
  {
    if |c| > 1 {
      assert forall i :: 0 <= i < |c| ==> c[i] >= 0x80;
      assert Replace(c, from, to) == c;
    }
  }

  lemma SlashedIsText(path: seq<byte>)
    requires WellFormed(path)
    ensures FromUtf8(Slashed(path)).Valid?
  {
    ReplaceIsText(path, BACKSLASH, SLASH);
    var slashed := Replace(path, BACKSLASH, SLASH);
    assert IsCharacter([SLASH]);
    WellFormedPrepend([SLASH], slashed);
    ValidIffWellFormed(Slashed(path));
  }

  // What a path reads back as, on either side.
  lemma PathReadsBack(path: seq<byte>)
    requires WellFormed(path)
    ensures PathOf(UriOf(path)) == Some(Local(Slashed(path)))
    ensures PathFromUri(UriOf(path)) == Some(Local(Slashed(path)))
  {
    var slashed := Slashed(path);
    var rest := Encode(slashed);
    assert UriOf(path)[|SCHEME|..] == rest;
    assert rest[0] == SLASH;
    assert LOCALHOST[0] != SLASH;
    assert AfterHost(UriOf(path)) == Some(rest);
    UnescapeEncode(slashed);
    SlashedIsText(path);
  }

  // A path that starts with `/`, has no `\` and is not `/X:…`.
  predicate IsPosix(path: seq<byte>) {
    [SLASH] <= path && BACKSLASH !in path && !IsDrive(path)
  }

  // `X:…` without `/`.
  predicate IsWindows(path: seq<byte>) {
    |path| >= 2 && IsLetter(path[0]) && path[1] == COLON && SLASH !in path
  }

  // A path comes back from its URI exactly when it is one of the two kinds.
  lemma RoundTripIff(path: seq<byte>)
    requires WellFormed(path)
    ensures PathOf(UriOf(path)) == Some(path) <==> IsPosix(path) || IsWindows(path)
    ensures PathFromUri(UriOf(path)) == Some(path) <==> IsPosix(path) || IsWindows(path)
  {
    PathReadsBack(path);
    var slashed := Slashed(path);
    if [SLASH] <= path {
      SlashedPosix(path);
    } else if path != [] && path[0] == BACKSLASH {
      assert slashed[0] == SLASH;
      assert |Local(slashed)| < |path| || Local(slashed)[0] == SLASH;
    } else {
      assert slashed == [SLASH] + Replace(path, BACKSLASH, SLASH);
      SlashedWindows(path);
    }
  }

  lemma SlashedPosix(path: seq<byte>)
    requires [SLASH] <= path
    ensures Local(Slashed(path)) == path <==> BACKSLASH !in path && !IsDrive(path)
  {
    var slashed := Slashed(path);
    assert slashed == Replace(path, BACKSLASH, SLASH);
    if BACKSLASH !in path {
      assert slashed == path;
    } else {
      var i :| 0 <= i < |path| && path[i] == BACKSLASH;
      assert slashed[i] == SLASH;
    }
    if IsDrive(slashed) {
      assert |Local(slashed)| == |path| - 1;
    }
  }

  lemma SlashedWindows(path: seq<byte>)
    requires path == [] || (path[0] != SLASH && path[0] != BACKSLASH)
    ensures Local(Slashed(path)) == path <==> IsWindows(path)
  {
    var replaced := Replace(path, BACKSLASH, SLASH);
    var slashed := [SLASH] + replaced;
    assert Slashed(path) == slashed;
    assert slashed[1..] == replaced;
    if IsDrive(slashed) {
      assert IsLetter(path[0]);
      assert path[1] == COLON;
      var local := Replace(replaced, SLASH, BACKSLASH);
      if SLASH in path {
        var i :| 0 <= i < |path| && path[i] == SLASH;
        assert local[i] == BACKSLASH;
      } else {
        assert forall i :: 0 <= i < |path| ==> local[i] == path[i];
        assert local == path;
      }
    }
  }

  // -- What a URI is made of ---------------------------------------------------------------

  predicate IsUpperHex(b: byte) {
    0x30 <= b <= 0x39 || 0x41 <= b <= 0x46
  }

  // Unreserved characters, `/`, `:` and percent triples only.
  predicate IsEncoded(s: seq<byte>) {
    s == []
    || (Unreserved(s[0]) && IsEncoded(s[1..]))
    || (s[0] == PERCENT && |s| >= 3 && IsUpperHex(s[1]) && IsUpperHex(s[2]) && IsEncoded(s[3..]))
  }

  lemma {:induction false} EncodeIsEncoded(s: seq<byte>)
    ensures IsEncoded(Encode(s))
  {
    if s != [] {
      EncodeIsEncoded(s[1..]);
      var rest := Encode(s[1..]);
      if Unreserved(s[0]) {
        assert ([s[0]] + rest)[1..] == rest;
      } else {
        assert (EncodeByte(s[0]) + rest)[3..] == rest;
      }
    }
  }

  // -- The two decoders ----------------------------------------------------------------------

  ghost predicate HasPlusEscape(s: seq<byte>) {
    exists i :: 0 <= i < |s| - 1 && s[i] == PERCENT && s[i + 1] == PLUS
  }

  lemma PlusAfter(s: seq<byte>, n: nat)
    requires n <= |s| && HasPlusEscape(s[n..])
    ensures HasPlusEscape(s)
  {
    var i :| 0 <= i < |s[n..]| - 1 && s[n..][i] == PERCENT && s[n..][i + 1] == PLUS;
    assert s[n + i] == PERCENT && s[n + i + 1] == PLUS;
  }

  // A `%` before a `+` is never part of what the editor undoes; without one both
  // undo the same.
  lemma {:induction false} UnescapersAgree(s: seq<byte>)
    ensures StrictUnescape(s) == if HasPlusEscape(s) then None else Unescape(s)
  {
    if s != [] {
      if s[0] != PERCENT {
        UnescapersAgree(s[1..]);
        PlusIsLater(s, 1);
      } else if |s| >= 3 {
        if HexValue(s[1]).Some? && HexValue(s[2]).Some? {
          UnescapersAgree(s[3..]);
          PlusIsLater(s, 3);
        } else if s[1] == PLUS {
          assert s[0] == PERCENT && s[0 + 1] == PLUS;
        }
      } else if |s| == 2 && s[1] == PLUS {
        assert s[0] == PERCENT && s[0 + 1] == PLUS;
      }
    }
  }

  // Past a character, or past a percent triple, no `%` before a `+` was missed.
  lemma PlusIsLater(s: seq<byte>, n: nat)
    requires n <= |s|
    requires forall i :: 0 <= i < n && i + 1 < |s| ==> s[i] != PERCENT || s[i + 1] != PLUS
    ensures HasPlusEscape(s) <==> HasPlusEscape(s[n..])
  {
    if HasPlusEscape(s[n..]) {
      PlusAfter(s, n);
    }
    if HasPlusEscape(s) {
      var i :| 0 <= i < |s| - 1 && s[i] == PERCENT && s[i + 1] == PLUS;
      assert s[n..][i - n] == PERCENT && s[n..][i - n + 1] == PLUS;
    }
  }

  // Host and editor read a URI alike if and only if the host reads none from it,
  // or there is no `%` before a `+` in its path.
  lemma DecodersAgree(uri: seq<byte>)
    ensures PathOf(uri) == PathFromUri(uri) <==> PathOf(uri) == None || !HasPlusEscape(AfterHost(uri).value)
  {
    var rest := AfterHost(uri);
    if rest.Some? {
      UnescapersAgree(rest.value);
    }
  }

  // `file:///%+1` is a path to the host and none to the editor.
  lemma PlusEscapeDiffers()
    ensures var uri := SCHEME + [SLASH, PERCENT, PLUS, 0x31];
            PathOf(uri) == Some([SLASH, 0x01]) && PathFromUri(uri) == None
  {
    var rest := [SLASH, PERCENT, PLUS, 0x31];
    assert (SCHEME + rest)[|SCHEME|..] == rest;
    assert LOCALHOST[0] != SLASH;
    PlusEscape(rest[1..]);
    var decoded: seq<byte> := [SLASH, 0x01];
    assert [SLASH] + [0x01] == decoded;
    assert Unescape(rest) == Some(decoded);
    assert decoded[1..] == [0x01] && decoded[1..][1..] == [];
    assert FromUtf8(decoded[1..]).Valid?;
  }

  lemma PlusEscape(s: seq<byte>)
    requires s == [PERCENT, PLUS, 0x31]
    ensures Unescape(s) == Some([0x01]) && StrictUnescape(s) == None
  {
    assert s[3..] == [];
    assert Unescape(s[3..]) == Some([]);
    var digit: byte := 0x31;
    assert HexValue(digit) == Some(1);
    assert RadixPair(s[1], s[2]) == Some(0x01);
    var none: seq<byte> := [];
    assert [0x01] + none == [0x01];
  }

  // -- What the host reads ---------------------------------------------------------------------

  // What stands for the byte `b`: itself but for a `%`, or a triple with its value,
  // a `+` standing for a first zero.
  ghost predicate StandsFor(piece: seq<byte>, b: byte) {
    || (piece == [b] && b != PERCENT)
    || (&& |piece| == 3 && piece[0] == PERCENT && IsDigitOf(piece[2], b as int % 16)
        && (IsDigitOf(piece[1], b as int / 16) || (piece[1] == PLUS && b < 16)))
  }

  ghost predicate AllStandFor(pieces: seq<seq<byte>>, bytes: seq<byte>) {
    |pieces| == |bytes| && forall i :: 0 <= i < |bytes| ==> StandsFor(pieces[i], bytes[i])
  }

  ghost predicate Escapes(s: seq<byte>, bytes: seq<byte>) {
    exists pieces :: Flatten(pieces) == s && AllStandFor(pieces, bytes)
  }

  lemma PairIff(a: byte, c: byte, b: byte)
    ensures RadixPair(a, c) == Some(b) <==> StandsFor([PERCENT, a, c], b)
  {
    forall n: int, d: byte
      ensures HexValue(d) == Some(n) <==> IsDigitOf(d, n)
    {
      HexValueIff(d, n);
    }
    assert HexValue(PLUS).None?;
    if HexValue(c).Some? {
      var low := HexValue(c).value;
      assert IsDigitOf(c, low);
      if HexValue(a).Some? {
        var high := HexValue(a).value;
        assert IsDigitOf(a, high);
        assert (16 * high + low) / 16 == high && (16 * high + low) % 16 == low;
      }
    }
  }

  lemma {:induction false} UnescapeHasPieces(s: seq<byte>) returns (pieces: seq<seq<byte>>)
    requires Unescape(s).Some?
    ensures Flatten(pieces) == s && AllStandFor(pieces, Unescape(s).value)
  {
    if s == [] {
      pieces := [];
    } else {
      var n := if s[0] == PERCENT then 3 else 1;
      var rest := UnescapeHasPieces(s[n..]);
      if n == 3 {
        PairIff(s[1], s[2], RadixPair(s[1], s[2]).value);
        assert s[..3] == [PERCENT, s[1], s[2]];
      }
      pieces := [s[..n]] + rest;
      assert s[..n] + s[n..] == s;
    }
  }

  lemma {:induction false} PiecesUnescape(pieces: seq<seq<byte>>, bytes: seq<byte>)
    requires AllStandFor(pieces, bytes)
    ensures Unescape(Flatten(pieces)) == Some(bytes)
    decreases |pieces|
  {
    if pieces != [] {
      var s, rest := Flatten(pieces), Flatten(pieces[1..]);
      PiecesUnescape(pieces[1..], bytes[1..]);
      assert StandsFor(pieces[0], bytes[0]);
      assert s[|pieces[0]|..] == rest;
      if |pieces[0]| == 3 {
        assert pieces[0] == [PERCENT, s[1], s[2]];
        PairIff(s[1], s[2], bytes[0]);
      }
      assert [bytes[0]] + bytes[1..] == bytes;
    }
  }

  // Unescaping gives exactly the bytes the text stands for.
  lemma UnescapeIff(s: seq<byte>, bytes: seq<byte>)
    ensures Unescape(s) == Some(bytes) <==> Escapes(s, bytes)
  {
    if Unescape(s) == Some(bytes) {
      var pieces := UnescapeHasPieces(s);
    }
    if Escapes(s, bytes) {
      var pieces :| Flatten(pieces) == s && AllStandFor(pieces, bytes);
      PiecesUnescape(pieces, bytes);
    }
  }

  lemma AfterHostIff(uri: seq<byte>, local: seq<byte>)
    ensures AfterHost(uri) == Some(local) <==>
            && local != [] && local[0] == SLASH
            && (uri == SCHEME + local || uri == SCHEME + LOCALHOST + local)
  {
    if uri == SCHEME + local {
      assert uri[|SCHEME|..] == local;
    } else if uri == SCHEME + LOCALHOST + local {
      assert uri[|SCHEME|..] == LOCALHOST + local;
      assert (LOCALHOST + local)[|LOCALHOST|..] == local;
    } else if SCHEME <= uri {
      assert uri == SCHEME + uri[|SCHEME|..];
      var rest := uri[|SCHEME|..];
      if LOCALHOST <= rest {
        assert rest == LOCALHOST + rest[|LOCALHOST|..];
        Regrouped(SCHEME, LOCALHOST, rest[|LOCALHOST|..]);
      }
    }
  }

  // The host reads a path from a URI exactly when that is of this scheme, names no
  // other host, and stands for text: the path is the text, or a drive's without the
  // first `/` and with `\`.
  lemma PathOfIff(uri: seq<byte>, path: seq<byte>)
    ensures PathOf(uri) == Some(path) <==> exists local, decoded ::
              && local != [] && local[0] == SLASH
              && (uri == SCHEME + local || uri == SCHEME + LOCALHOST + local)
              && Escapes(local, decoded) && WellFormed(decoded) && path == Local(decoded)
  {
    forall local
      ensures AfterHost(uri) == Some(local) <==>
              && local != [] && local[0] == SLASH
              && (uri == SCHEME + local || uri == SCHEME + LOCALHOST + local)
    {
      AfterHostIff(uri, local);
    }
    var rest := AfterHost(uri);
    if rest.Some? {
      forall decoded
        ensures Unescape(rest.value) == Some(decoded) <==> Escapes(rest.value, decoded)
        ensures FromUtf8(decoded).Valid? <==> WellFormed(decoded)
      {
        UnescapeIff(rest.value, decoded);
        ValidIffWellFormed(decoded);
      }
    }
  }

  // A drive's path is told by its letter and colon; what follows has its `/` made `\`.
  lemma LocalMeans(decoded: seq<byte>)
    ensures var local := Local(decoded);
            if |decoded| >= 3 && IsLetter(decoded[1]) && decoded[2] == COLON
            then && |local| == |decoded| - 1
                 && forall i :: 0 <= i < |local| ==>
                      local[i] == if decoded[i + 1] == SLASH then BACKSLASH else decoded[i + 1]
            else local == decoded
  {
  }
}
