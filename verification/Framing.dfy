// `Content-Length` framing (Language Server Protocol 3.17, "Base Protocol"):
// messages written one after another on a byte stream and read back. A body is
// opaque bytes here; parsing it as JSON is not part of this model.
module Framing {
  import opened Bytes
  import opened Sequences
  import Decimals
  import Strings
  import opened Text
  import opened Utf8

  const USIZE_MAX: nat := 0xFFFF_FFFF_FFFF_FFFF

  // "content-length"
  const CONTENT_LENGTH: seq<byte> :=
    [0x63, 0x6F, 0x6E, 0x74, 0x65, 0x6E, 0x74, 0x2D, 0x6C, 0x65, 0x6E, 0x67, 0x74, 0x68]
  // "Content-Length"
  const HEADER_NAME: seq<byte> :=
    [0x43, 0x6F, 0x6E, 0x74, 0x65, 0x6E, 0x74, 0x2D, 0x4C, 0x65, 0x6E, 0x67, 0x74, 0x68]

  // -- What a stream holds --------------------------------------------------------

  function HeaderLine(length: nat): seq<byte> {
    HEADER_NAME + [COLON] + ([SPACE] + Decimal(length))
  }

  // One message as it is written.
  function Written(body: seq<byte>): seq<byte> {
    HeaderLine(|body|) + [CR, LF] + [CR, LF] + body
  }

  function AllWritten(bodies: seq<seq<byte>>): seq<byte> {
    if bodies == [] then [] else Written(bodies[0]) + AllWritten(bodies[1..])
  }

  datatype Error = UnexpectedEof | InvalidData

  // What reading the headers gives: a length and where the body starts.
  datatype Headers = Length(length: nat, rest: seq<byte>) | NoMore | BadHeaders(error: Error)

  // What reading a frame gives.
  datatype Frame = Body(body: seq<byte>, rest: seq<byte>) | End | Bad(error: Error)

  // What one header line says.
  datatype Line = Blank | LengthIs(length: nat) | Other | BadLine

  // A line's length, its end included.
  function LineLength(data: seq<byte>): (n: nat)
    ensures n <= |data| && (data != [] ==> n > 0)
  {
    var at := IndexOf(data, LF);
    if at < |data| then at + 1 else at
  }

  function ReadHeader(line: seq<byte>): Line {
    if FromUtf8(line) != Valid then BadLine
    else
      var header := TrimEndMatches(line, {CR, LF});
      var colon := IndexOf(header, COLON);
      if header == [] then Blank
      else if colon == |header| then BadLine
      else if EqIgnoreCase(Trim(header[..colon]), CONTENT_LENGTH) then
        match ParseUnsigned(Trim(header[colon + 1..]), USIZE_MAX)
        case Some(n) => LengthIs(n)
        case None => BadLine
      else Other
  }

  function HeadersOf(data: seq<byte>, length: Option<nat>): (headers: Headers)
    ensures headers.Length? ==> |headers.rest| < |data|
    decreases |data|
  {
    if data == [] then (if length.None? then NoMore else BadHeaders(UnexpectedEof))
    else
      var n := LineLength(data);
      match ReadHeader(data[..n])
      case BadLine => BadHeaders(InvalidData)
      case Blank => if length.Some? then Length(length.value, data[n..]) else BadHeaders(InvalidData)
      case LengthIs(value) => HeadersOf(data[n..], Some(value))
      case Other => HeadersOf(data[n..], length)
  }

  function FrameOf(data: seq<byte>): (frame: Frame)
    ensures frame.Body? ==> |frame.rest| < |data|
  {
    match HeadersOf(data, None)
    case NoMore => End
    case BadHeaders(error) => Bad(error)
    case Length(length, rest) =>
      if length <= |rest| then Body(rest[..length], rest[length..]) else Bad(UnexpectedEof)
  }

  // -- The reader and the writer ------------------------------------------------------

  class Stream {
    var data: seq<byte>

    constructor (data: seq<byte>)
      ensures this.data == data
    {
      this.data := data;
    }

    // The next line with its end; empty at the end of the stream.
    method ReadLine() returns (line: seq<byte>)
      modifies this
      ensures line == old(data)[..LineLength(old(data))] && data == old(data)[LineLength(old(data))..]
    {
      var n := LineLength(data);
      line, data := data[..n], data[n..];
    }

    // Exactly `length` bytes, or none when the stream ends before.
    method ReadExact(length: nat) returns (bytes: Option<seq<byte>>)
      modifies this
      ensures if length <= |old(data)|
              then bytes == Some(old(data)[..length]) && data == old(data)[length..]
              else bytes == None
    {
      if length > |data| {
        data := [];
        return None;
      }
      bytes := Some(data[..length]);
      data := data[length..];
    }
  }

  // How much of `n` bytes goes where there is room for `room` more; none given,
  // for any number.
  function Taken(room: Option<nat>, n: nat): (taken: nat)
    ensures taken <= n
  {
    if room.Some? && room.value < n then room.value else n
  }

  function RoomAfter(room: Option<nat>, n: nat): Option<nat>
    requires room.Some? ==> n <= room.value
  {
    if room.Some? then Some(room.value - n) else None
  }

  // A stream written to: it takes so many bytes and then fails, and what it took
  // may still fail to be flushed.
  class Output {
    var data: seq<byte>
    var room: Option<nat>
    const flushes: bool

    constructor (room: Option<nat>, flushes: bool)
      ensures data == [] && this.room == room && this.flushes == flushes
    {
      data, this.room, this.flushes := [], room, flushes;
    }

    method WriteAll(bytes: seq<byte>) returns (ok: bool)
      modifies this
      ensures var n := Taken(old(room), |bytes|);
              && data == old(data) + bytes[..n] && room == RoomAfter(old(room), n)
              && (ok <==> n == |bytes|)
    {
      var n := Taken(room, |bytes|);
      data, room := data + bytes[..n], RoomAfter(room, n);
      ok := n == |bytes|;
    }
  }

  datatype ReadResult<+T> = Got(value: T) | Ended | Failed(error: Error)

  // What the rest of the headers says, given what the line read says.
  function AfterLine(line: Line, length: Option<nat>, rest: seq<byte>): Headers {
    match line
    case BadLine => BadHeaders(InvalidData)
    case Blank => if length.Some? then Length(length.value, rest) else BadHeaders(InvalidData)
    case LengthIs(value) => HeadersOf(rest, Some(value))
    case Other => HeadersOf(rest, length)
  }

  lemma HeadersStep(data: seq<byte>, length: Option<nat>)
    requires data != []
    ensures HeadersOf(data, length) ==
            AfterLine(ReadHeader(data[..LineLength(data)]), length, data[LineLength(data)..])
  {
  }

  // Line by line up to the blank one; the last length named counts.
  method ReadHeaders(input: Stream) returns (result: ReadResult<nat>)
    modifies input
    ensures match HeadersOf(old(input.data), None)
            case NoMore => result == Ended && input.data == []
            case BadHeaders(error) => result == Failed(error)
            case Length(length, rest) => result == Got(length) && input.data == rest
  {
    var length: Option<nat> := None;
    while true
      invariant HeadersOf(input.data, length) == HeadersOf(old(input.data), None)
      decreases |input.data|
    {
      if input.data == [] {
        return if length.None? then Ended else Failed(UnexpectedEof);
      }
      HeadersStep(input.data, length);
      var line := input.ReadLine();
      var header := HearHeader(line);
      match header
      case BadLine => return Failed(InvalidData);
      case Blank => break;
      case LengthIs(value) => length := Some(value);
      case Other =>
    }
    return if length.Some? then Got(length.value) else Failed(InvalidData);
  }

  // One line of them.
  method HearHeader(line: seq<byte>) returns (read: Line)
    ensures read == ReadHeader(line)
  {
    if FromUtf8(line) != Valid {
      return BadLine;
    }
    var header := TrimEndMatches(line, {CR, LF});
    if header == [] {
      return Blank;
    }
    var colon := IndexOf(header, COLON);
    if colon == |header| {
      return BadLine;
    }
    var name, value := header[..colon], header[colon + 1..];
    if !EqIgnoreCase(Trim(name), CONTENT_LENGTH) {
      return Other;
    }
    var parsed := ParseUnsigned(Trim(value), USIZE_MAX);
    return if parsed.Some? then LengthIs(parsed.value) else BadLine;
  }

  // The next frame's body; `Ended` at the end of the stream.
  method ReadFrame(input: Stream) returns (result: ReadResult<seq<byte>>)
    modifies input
    ensures match FrameOf(old(input.data))
            case End => result == Ended && input.data == []
            case Bad(error) => result == Failed(error)
            case Body(body, rest) => result == Got(body) && input.data == rest
  {
    var headers := ReadHeaders(input);
    match headers
    case Ended => return Ended;
    case Failed(error) => return Failed(error);
    case Got(length) =>
      var body := input.ReadExact(length);
      if body.None? {
        return Failed(UnexpectedEof);
      }
      return Got(body.value);
  }

  // A frame's header and body: whatever fails, the stream holds a beginning of them.
  method WriteFrame(out: Output, body: seq<byte>) returns (ok: bool)
    modifies out
    ensures var n := Taken(old(out.room), |Written(body)|);
            && out.data == old(out.data) + Written(body)[..n]
            && out.room == RoomAfter(old(out.room), n)
            && (ok <==> n == |Written(body)| && out.flushes)
  {
    var header := HeaderLine(|body|) + [CR, LF] + [CR, LF];
    ghost var n := Taken(out.room, |Written(body)|);
    ok := out.WriteAll(header);
    if !ok {
      assert Written(body)[..n] == header[..n];
      return;
    }
    ok := out.WriteAll(body);
    assert Written(body)[..n] == header + body[..n - |header|];
    ok := ok && out.flushes;
  }

  lemma NamesAreSpelled()
    ensures CONTENT_LENGTH == Ascii("content-length") && HEADER_NAME == Ascii("Content-Length")
  {
  }

  // A message as it stands on the stream.
  lemma WrittenIs(body: seq<byte>)
    ensures var header := "Content-Length: " + Strings.Decimal(|body|) + "\r\n\r\n";
            && (forall i :: 0 <= i < |header| ==> header[i] < 128 as char)
            && Written(body) == Ascii(header) + body
  {
    var digits := Strings.Decimal(|body|);
    var header := "Content-Length: " + digits + "\r\n\r\n";
    forall i | 0 <= i < |digits|
      ensures digits[i] < 128 as char && digits[i] as int == Decimal(|body|)[i] as int
    {
      assert Decimals.IsDigitCode(Strings.Codes(digits)[i]);
      assert Strings.Codes(digits)[i] == Decimals.DecimalCodes(|body|)[i];
    }
    assert HEADER_NAME == Ascii("Content-Length") by {
      NamesAreSpelled();
    }
    assert Ascii(header) == HeaderLine(|body|) + [CR, LF] + [CR, LF];
  }

  // -- Reading back what was written ------------------------------------------------------

  lemma LineEnds(text: seq<byte>, rest: seq<byte>)
    requires LF !in text
    ensures LineLength(text + [LF] + rest) == |text| + 1
  {
    IndexOfFirst(text, LF, rest);
  }

  // What a header line is made of: no line end, no second colon, only ASCII.
  lemma HeaderLineText(length: nat)
    ensures var line := HeaderLine(length);
            && LF !in line && CR !in line && IsAscii(line + [CR, LF])
            && line[..14] == HEADER_NAME && line[14] == COLON && COLON !in line[..14]
            && line[15..] == [SPACE] + Decimal(length)
            && forall i :: 15 < i < |line| ==> IsDigit(line[i])
  {
    var line := HeaderLine(length);
    assert line[15..] == [SPACE] + Decimal(length);
    forall i | 0 <= i < |line|
      ensures line[i] != LF && line[i] != CR && line[i] < 0x80 && (15 < i ==> IsDigit(line[i]))
    {
      if i > 15 {
        assert line[i] == Decimal(length)[i - 16];
      }
    }
  }

  lemma TrimStops(text: seq<byte>)
    requires text != [] && LF !in text && CR !in text
    ensures TrimEndMatches(text, {CR, LF}) == text
  {
    assert text[|text| - 1] in text;
  }

  lemma TrimOne(text: seq<byte>, end: byte)
    requires end == CR || end == LF
    ensures TrimEndMatches(text + [end], {CR, LF}) == TrimEndMatches(text, {CR, LF})
  {
    assert (text + [end])[..|text|] == text;
  }

  // A line, cut anywhere, with whatever of its line end is left.
  lemma TrimEndOfLine(line: seq<byte>, k: nat)
    requires LF !in line && CR !in line && 0 < k <= |line| + 2
    requires line != []
    ensures TrimEndMatches((line + [CR, LF])[..k], {CR, LF}) == if k <= |line| then line[..k] else line
  {
    var cut := (line + [CR, LF])[..k];
    TrimStops(line);
    TrimOne(line, CR);
    if k <= |line| {
      assert cut == line[..k];
      TrimStops(cut);
    } else if k == |line| + 1 {
      assert cut == line + [CR];
    } else {
      assert cut == (line + [CR]) + [LF];
      TrimOne(line + [CR], LF);
    }
  }

  lemma NoColonIsBad(line: seq<byte>)
    requires TrimEndMatches(line, {CR, LF}) != [] && COLON !in TrimEndMatches(line, {CR, LF})
    ensures ReadHeader(line) == BadLine
  {
    IndexOfNone(TrimEndMatches(line, {CR, LF}), COLON);
  }

  // The name as it is written is the name looked for, but for two capitals.
  lemma SameLetters()
    ensures EqIgnoreCase(HEADER_NAME, CONTENT_LENGTH)
  {
    assert CONTENT_LENGTH == HEADER_NAME[0 := 0x63][8 := 0x6C];
  }

  lemma NameMatches()
    ensures EqIgnoreCase(Trim(HEADER_NAME), CONTENT_LENGTH)
  {
    assert IsGraphic(HEADER_NAME[0]) && IsGraphic(HEADER_NAME[13]);
    assert Trim(HEADER_NAME) == HEADER_NAME by {
      TrimOfWord(HEADER_NAME);
    }
    SameLetters();
  }

  lemma ReadNamed(line: seq<byte>, value: seq<byte>)
    requires FromUtf8(line).Valid?
    requires TrimEndMatches(line, {CR, LF}) == HEADER_NAME + [COLON] + value
    ensures ReadHeader(line) == match ParseUnsigned(Trim(value), USIZE_MAX)
                                case Some(n) => LengthIs(n)
                                case None => BadLine
  {
    var header := HEADER_NAME + [COLON] + value;
    IndexOfFirst(HEADER_NAME, COLON, value);
    assert header[..14] == HEADER_NAME && header[15..] == value;
    NameMatches();
  }

  lemma ValueParses(length: nat)
    requires length <= USIZE_MAX
    ensures ParseUnsigned(Trim([SPACE] + Decimal(length)), USIZE_MAX) == Some(length)
  {
    var digits := Decimal(length);
    var value := [SPACE] + digits;
    assert value[1..] == digits && value[..1] == [SPACE];
    assert IsDigit(digits[0]) && IsDigit(digits[|digits| - 1]);
    TrimStartStops(digits);
    TrimEndStops(digits);
    assert TrimStart(value) == TrimStart(digits);
    ParseDecimal(length, USIZE_MAX);
  }

  // The name looked for, each letter small or a capital.
  predicate IsSpelled(name: seq<byte>) {
    var small, capital := Ascii("content-length"), Ascii("CONTENT-LENGTH");
    |name| == |small| && forall i :: 0 <= i < |name| ==> name[i] == small[i] || name[i] == capital[i]
  }

  lemma SpelledIff(name: seq<byte>)
    ensures EqIgnoreCase(name, CONTENT_LENGTH) <==> IsSpelled(name)
  {
    NamesAreSpelled();
    if |name| == |CONTENT_LENGTH| {
      var capital := Ascii("CONTENT-LENGTH");
      forall i | 0 <= i < |name|
        ensures Lower(name[i]) == Lower(CONTENT_LENGTH[i]) <==> name[i] == CONTENT_LENGTH[i] || name[i] == capital[i]
      {
        assert CONTENT_LENGTH[i] == 0x2D || 0x61 <= CONTENT_LENGTH[i] <= 0x7A;
        assert capital[i] == if CONTENT_LENGTH[i] == 0x2D then 0x2D else CONTENT_LENGTH[i] - 0x20;
      }
    }
  }

  // What a line with a colon says, however its name is spelled and whatever white
  // space stands around name and value.
  lemma HeaderMeans(line: seq<byte>, name: seq<byte>, value: seq<byte>)
    requires FromUtf8(line).Valid? && COLON !in name
    requires TrimEndMatches(line, {CR, LF}) == name + [COLON] + value
    ensures ReadHeader(line) ==
            if !IsSpelled(Trim(name)) then Other
            else match ParseUnsigned(Trim(value), USIZE_MAX)
                 case Some(n) => LengthIs(n)
                 case None => BadLine
  {
    var header := name + [COLON] + value;
    IndexOfFirst(name, COLON, value);
    assert header[..|name|] == name && header[|name| + 1..] == value;
    SpelledIff(Trim(name));
  }

  // A line that is no text, or has no colon, is an error.
  lemma OtherLinesAreBad(line: seq<byte>)
    ensures !FromUtf8(line).Valid? ==> ReadHeader(line) == BadLine
    ensures FromUtf8(line).Valid? && COLON !in TrimEndMatches(line, {CR, LF}) ==>
              ReadHeader(line) == if TrimEndMatches(line, {CR, LF}) == [] then Blank else BadLine
  {
    if FromUtf8(line).Valid? && COLON !in TrimEndMatches(line, {CR, LF}) {
      IndexOfNone(TrimEndMatches(line, {CR, LF}), COLON);
    }
  }

  // A cut header line never reads as a blank line or another header.
  lemma ReadCutHeader(length: nat, k: nat)
    requires 0 < k <= |HeaderLine(length)| + 2
    ensures var read := ReadHeader((HeaderLine(length) + [CR, LF])[..k]);
            read.BadLine? || read.LengthIs?
  {
    var line := HeaderLine(length);
    HeaderLineText(length);
    AsciiIsText((line + [CR, LF])[..k]);
    TrimEndOfLine(line, k);
    var header := if k <= |line| then line[..k] else line;
    if |header| <= 14 {
      assert header == line[..14][..|header|];
      NoColonIsBad((line + [CR, LF])[..k]);
    } else {
      assert header == HEADER_NAME + [COLON] + header[15..];
      ReadNamed((line + [CR, LF])[..k], header[15..]);
    }
  }

  lemma ReadWholeHeader(length: nat)
    requires length <= USIZE_MAX
    ensures ReadHeader(HeaderLine(length) + [CR, LF]) == LengthIs(length)
  {
    var line := HeaderLine(length);
    var whole := line + [CR, LF];
    HeaderLineText(length);
    AsciiIsText(whole);
    assert whole[..|whole|] == whole;
    TrimEndOfLine(line, |whole|);
    assert line == HEADER_NAME + [COLON] + line[15..];
    ReadNamed(whole, line[15..]);
    ValueParses(length);
  }

  lemma ReadBlank(line: seq<byte>)
    requires line == [CR, LF] || line == [CR]
    ensures ReadHeader(line) == Blank
  {
    AsciiIsText(line);
    assert [CR, LF][..1] == [CR] && [CR][..0] == [];
    assert TrimEndMatches([CR], {CR, LF}) == [];
  }

  // The headers of a written message, whatever follows them.
  lemma ReadWrittenHeaders(length: nat, after: seq<byte>)
    requires length <= USIZE_MAX
    ensures HeadersOf(HeaderLine(length) + [CR, LF] + [CR, LF] + after, None) == Length(length, after)
  {
    var line := HeaderLine(length) + [CR, LF];
    var rest := [CR, LF] + after;
    var data := HeaderLine(length) + [CR, LF] + [CR, LF] + after;
    assert data == line + rest;
    HeaderLineText(length);
    assert line + rest == (HeaderLine(length) + [CR]) + [LF] + rest;
    LineEnds(HeaderLine(length) + [CR], rest);
    assert data[..|line|] == line && data[|line|..] == rest;
    ReadWholeHeader(length);
    assert HeadersOf(data, None) == HeadersOf(rest, Some(length));
    assert rest == [CR] + [LF] + after;
    LineEnds([CR], after);
    assert rest[..2] == [CR, LF] && rest[2..] == after;
    ReadBlank([CR, LF]);
  }

  // A written message reads back as its body, whatever bytes it holds.
  lemma ReadWritten(body: seq<byte>, rest: seq<byte>)
    requires |body| <= USIZE_MAX
    ensures FrameOf(Written(body) + rest) == Body(body, rest)
  {
    ReadWrittenHeaders(|body|, body + rest);
    assert Written(body) + rest == HeaderLine(|body|) + [CR, LF] + [CR, LF] + (body + rest);
    assert (body + rest)[..|body|] == body && (body + rest)[|body|..] == rest;
  }

  lemma CutLine(length: nat, n: nat)
    requires 0 < n <= |HeaderLine(length)| + 2
    ensures LineLength((HeaderLine(length) + [CR, LF])[..n]) == n
  {
    var line := HeaderLine(length) + [CR, LF];
    HeaderLineText(length);
    if n < |line| {
      IndexOfNone(line[..n], LF);
    } else {
      assert line[..n] == HeaderLine(length) + [CR] + [LF] + [];
      LineEnds(HeaderLine(length) + [CR], []);
    }
  }

  // The header line alone, or a part of it.
  lemma ReadCutInHeader(length: nat, n: nat)
    requires 0 < n <= |HeaderLine(length)| + 2
    ensures FrameOf((HeaderLine(length) + [CR, LF])[..n]).Bad?
  {
    var cut := (HeaderLine(length) + [CR, LF])[..n];
    ReadCutHeader(length, n);
    CutLine(length, n);
    assert cut[..n] == cut && cut[n..] == [];
    if ReadHeader(cut).LengthIs? {
      assert HeadersOf([], Some(ReadHeader(cut).length)) == BadHeaders(UnexpectedEof);
    }
  }

  // The header line and half of the blank one.
  lemma ReadCutInBlank(length: nat)
    requires 0 < length <= USIZE_MAX
    ensures FrameOf(HeaderLine(length) + [CR, LF] + [CR]).Bad?
  {
    var line, rest := HeaderLine(length) + [CR, LF], [CR];
    HeaderLineText(length);
    assert line + rest == (HeaderLine(length) + [CR]) + [LF] + rest;
    LineEnds(HeaderLine(length) + [CR], rest);
    assert (line + rest)[..|line|] == line && (line + rest)[|line|..] == rest;
    ReadWholeHeader(length);
    assert HeadersOf(rest, Some(length)) == Length(length, []) by {
      IndexOfNone(rest, LF);
      ReadBlank(rest);
      assert rest[..1] == rest && rest[1..] == [];
    }
  }

  // A message cut anywhere inside is an error, never a shorter message and
  // never a clean end.
  lemma ReadCut(body: seq<byte>, n: nat)
    requires body != [] && |body| <= USIZE_MAX
    requires 0 < n < |Written(body)|
    ensures FrameOf(Written(body)[..n]).Bad?
  {
    var line := HeaderLine(|body|) + [CR, LF];
    var cut := Written(body)[..n];
    if n <= |line| {
      assert cut == line[..n];
      ReadCutInHeader(|body|, n);
    } else if n == |line| + 1 {
      assert cut == line + [CR];
      ReadCutInBlank(|body|);
    } else {
      var part := body[..n - |line| - 2];
      assert cut == line + [CR, LF] + part;
      ReadWrittenHeaders(|body|, part);
    }
  }

  // What a writer leaves that fails inside a body is made up from what is written
  // next: the reader takes the beginning of that for the rest of the body.
  lemma ReadAfterCut(body: seq<byte>, n: nat, next: seq<byte>)
    requires n <= |body| <= USIZE_MAX
    ensures var cut := Written(body)[..|Written(body)| - (|body| - n)];
            var missing := |body| - n;
            FrameOf(cut + next) ==
            if missing <= |next| then Body(body[..n] + next[..missing], next[missing..]) else Bad(UnexpectedEof)
  {
    var header := HeaderLine(|body|) + [CR, LF] + [CR, LF];
    var part, missing := body[..n], |body| - n;
    assert Written(body)[..|Written(body)| - missing] == header + part;
    assert header + part + next == header + (part + next);
    ReadAfterHeader(|body|, part + next);
    if missing <= |next| {
      assert (part + next)[..|body|] == part + next[..missing];
      assert (part + next)[|body|..] == next[missing..];
    }
  }

  lemma ReadAfterHeader(length: nat, after: seq<byte>)
    requires length <= USIZE_MAX
    ensures FrameOf(HeaderLine(length) + [CR, LF] + [CR, LF] + after) ==
            if length <= |after| then Body(after[..length], after[length..]) else Bad(UnexpectedEof)
  {
    ReadWrittenHeaders(length, after);
  }

  // -- Whole streams -------------------------------------------------------------------------

  // The bodies read until the stream ends or fails, and whether it ended cleanly.
  datatype Reading = Reading(bodies: seq<seq<byte>>, clean: bool)

  function ReadStream(data: seq<byte>): Reading
    decreases |data|
  {
    match FrameOf(data)
    case End => Reading([], true)
    case Bad(_) => Reading([], false)
    case Body(body, rest) =>
      var after := ReadStream(rest);
      Reading([body] + after.bodies, after.clean)
  }

  method ReadLoop(input: Stream) returns (bodies: seq<seq<byte>>, clean: bool)
    modifies input
    ensures Reading(bodies, clean) == ReadStream(old(input.data))
  {
    bodies := [];
    while true
      invariant ReadStream(old(input.data)) ==
                Reading(bodies + ReadStream(input.data).bodies, ReadStream(input.data).clean)
      decreases |input.data|
    {
      var frame := ReadFrame(input);
      match frame
      case Ended => return bodies, true;
      case Failed(_) => return bodies, false;
      case Got(body) => bodies := bodies + [body];
    }
  }

  ghost predicate Sendable(bodies: seq<seq<byte>>) {
    forall i :: 0 <= i < |bodies| ==> bodies[i] != [] && |bodies[i]| <= USIZE_MAX
  }

  // How many whole messages the first `n` bytes hold.
  function WholeFrames(bodies: seq<seq<byte>>, n: nat): (k: nat)
    ensures k <= |bodies|
  {
    if bodies == [] || n < |Written(bodies[0])| then 0
    else 1 + WholeFrames(bodies[1..], n - |Written(bodies[0])|)
  }

  lemma ReadFirst(body: seq<byte>, rest: seq<byte>)
    requires |body| <= USIZE_MAX
    ensures ReadStream(Written(body) + rest) ==
            Reading([body] + ReadStream(rest).bodies, ReadStream(rest).clean)
  {
    ReadWritten(body, rest);
  }

  // Reading a stream cut anywhere gives the whole messages before the cut, in
  // order; it ends cleanly exactly when the cut is between two messages.
  lemma {:induction false} ReadStreamCut(bodies: seq<seq<byte>>, n: nat)
    requires Sendable(bodies) && n <= |AllWritten(bodies)|
    ensures var k := WholeFrames(bodies, n);
            ReadStream(AllWritten(bodies)[..n]) ==
            Reading(bodies[..k], n == |AllWritten(bodies[..k])|)
  {
    var k := WholeFrames(bodies, n);
    if k == 0 {
      NoWholeFrame(bodies, n);
      assert bodies[..0] == [];
    } else {
      var m := n - |Written(bodies[0])|;
      CutAfterFirst(bodies, n);
      ReadFirst(bodies[0], AllWritten(bodies[1..])[..m]);
      ReadStreamCut(bodies[1..], m);
      FirstOfPrefix(bodies, k);
    }
  }

  lemma NoWholeFrame(bodies: seq<seq<byte>>, n: nat)
    requires Sendable(bodies) && n <= |AllWritten(bodies)| && WholeFrames(bodies, n) == 0
    ensures ReadStream(AllWritten(bodies)[..n]) == Reading([], n == 0)
  {
    if n == 0 {
      assert AllWritten(bodies)[..n] == [];
    } else {
      assert AllWritten(bodies)[..n] == Written(bodies[0])[..n];
      ReadCut(bodies[0], n);
    }
  }

  lemma CutAfterFirst(bodies: seq<seq<byte>>, n: nat)
    requires bodies != [] && |Written(bodies[0])| <= n <= |AllWritten(bodies)|
    ensures AllWritten(bodies)[..n] == Written(bodies[0]) + AllWritten(bodies[1..])[..n - |Written(bodies[0])|]
  {
  }

  lemma FirstOfPrefix(bodies: seq<seq<byte>>, k: nat)
    requires 0 < k <= |bodies|
    ensures bodies[..k] == [bodies[0]] + bodies[1..][..k - 1]
    ensures |AllWritten(bodies[..k])| == |Written(bodies[0])| + |AllWritten(bodies[1..][..k - 1])|
  {
    assert bodies[..k][1..] == bodies[1..][..k - 1];
  }

  // All of it reads back in order, then a clean end.
  lemma {:induction false} ReadStreamWritten(bodies: seq<seq<byte>>)
    requires Sendable(bodies)
    ensures ReadStream(AllWritten(bodies)) == Reading(bodies, true)
  {
    if bodies != [] {
      ReadFirst(bodies[0], AllWritten(bodies[1..]));
      ReadStreamWritten(bodies[1..]);
      assert [bodies[0]] + bodies[1..] == bodies;
    }
  }

  // -- When a stream ends cleanly --------------------------------------------------------------

  // A line as `ReadLine` cuts it: nothing follows its first line feed.
  ghost predicate IsLine(line: seq<byte>) {
    line != [] && LF !in line[..|line| - 1]
  }

  // Lines one after another, all of other headers: only the last one may lack
  // its line feed.
  ghost predicate OnlyOtherHeaders(data: seq<byte>, lines: seq<seq<byte>>) {
    && Flatten(lines) == data
    && forall i :: 0 <= i < |lines| ==>
         && IsLine(lines[i]) && ReadHeader(lines[i]) == Other
         && (i < |lines| - 1 ==> lines[i][|lines[i]| - 1] == LF)
  }

  lemma {:induction false} CleanEndHasLines(data: seq<byte>) returns (lines: seq<seq<byte>>)
    requires FrameOf(data) == End
    ensures OnlyOtherHeaders(data, lines)
    decreases |data|
  {
    if data == [] {
      lines := [];
    } else {
      OtherHeaderFirst(data);
      var rest := CleanEndHasLines(data[LineLength(data)..]);
      LinesPrepend(data, rest);
      lines := [data[..LineLength(data)]] + rest;
    }
  }

  lemma {:induction false} LinesEndCleanly(data: seq<byte>, lines: seq<seq<byte>>)
    requires OnlyOtherHeaders(data, lines)
    ensures FrameOf(data) == End
    decreases |data|
  {
    if data != [] {
      FirstLine(data, lines);
      LinesEndCleanly(data[LineLength(data)..], lines[1..]);
    }
  }

  // A stream that ends inside a message is taken for a clean end exactly when
  // it ended before a `Content-Length` and before a blank line: all it holds is
  // other headers.
  lemma CleanEndIff(data: seq<byte>)
    ensures FrameOf(data) == End <==> exists lines :: OnlyOtherHeaders(data, lines)
  {
    if FrameOf(data) == End {
      var lines := CleanEndHasLines(data);
      assert OnlyOtherHeaders(data, lines);
    } else if exists lines :: OnlyOtherHeaders(data, lines) {
      var lines :| OnlyOtherHeaders(data, lines);
      LinesEndCleanly(data, lines);
      assert false;
    }
  }

  lemma {:induction false} NoMoreNeedsNone(data: seq<byte>, length: nat)
    ensures HeadersOf(data, Some(length)) != NoMore
    decreases |data|
  {
    if data != [] {
      var n := LineLength(data);
      match ReadHeader(data[..n])
      case LengthIs(value) => NoMoreNeedsNone(data[n..], value);
      case Other => NoMoreNeedsNone(data[n..], length);
      case _ =>
    }
  }

  lemma OtherHeaderFirst(data: seq<byte>)
    requires data != [] && FrameOf(data) == End
    ensures ReadHeader(data[..LineLength(data)]) == Other && FrameOf(data[LineLength(data)..]) == End
  {
    var n := LineLength(data);
    if ReadHeader(data[..n]).LengthIs? {
      NoMoreNeedsNone(data[n..], ReadHeader(data[..n]).length);
    }
  }

  lemma CutIsLine(data: seq<byte>)
    requires data != []
    ensures var n := LineLength(data);
            IsLine(data[..n]) && (data[n..] != [] ==> data[n - 1] == LF)
  {
    var n, at := LineLength(data), IndexOf(data, LF);
    assert data[..n][..n - 1] == data[..at][..n - 1];
  }

  lemma LinesPrepend(data: seq<byte>, lines: seq<seq<byte>>)
    requires data != [] && ReadHeader(data[..LineLength(data)]) == Other
    requires OnlyOtherHeaders(data[LineLength(data)..], lines)
    ensures OnlyOtherHeaders(data, [data[..LineLength(data)]] + lines)
  {
    CutIsLine(data);
    var all := [data[..LineLength(data)]] + lines;
    assert all[1..] == lines;
  }

  lemma LineIsCut(line: seq<byte>, rest: seq<byte>)
    requires IsLine(line) && (rest != [] ==> line[|line| - 1] == LF)
    ensures LineLength(line + rest) == |line|
  {
    var text := line[..|line| - 1];
    if line[|line| - 1] == LF {
      assert line == text + [LF];
      LineEnds(text, rest);
    } else {
      assert line + rest == line;
      assert LF !in line by {
        assert line == text + [line[|line| - 1]];
      }
      IndexOfNone(line, LF);
    }
  }

  lemma FirstLine(data: seq<byte>, lines: seq<seq<byte>>)
    requires data != [] && OnlyOtherHeaders(data, lines)
    ensures lines != [] && lines[0] == data[..LineLength(data)]
    ensures OnlyOtherHeaders(data[LineLength(data)..], lines[1..])
  {
    var line, rest := lines[0], Flatten(lines[1..]);
    assert rest != [] ==> |lines| > 1;
    LineIsCut(line, rest);
    assert data[|line|..] == rest;
  }

  // "A:" alone, and the stream is over: a header was read, yet the end is clean.
  lemma CutAfterOtherHeader()
    ensures FrameOf([0x41, COLON]) == End
  {
    var data: seq<byte> := [0x41, COLON];
    assert data[..2] == data && data[2..] == [] && data[..1] == [0x41];
    assert LineLength(data) == 2 by {
      IndexOfNone(data, LF);
    }
    assert ReadHeader(data) == Other by {
      AsciiIsText(data);
      TrimStops(data);
      IndexOfFirst([0x41], COLON, []);
      assert data == [0x41] + [COLON] + [];
      TrimOfWord([0x41]);
    }
    assert HeadersOf(data, None) == HeadersOf([], None);
  }
}
