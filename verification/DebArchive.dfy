// The walk over a Debian package's `ar` container to the member that holds its
// files, however short the reads are.
module DebArchives {
  import opened Bytes
  import opened Decimals
  import opened Sequences
  import opened Text
  import opened Utf8

  // "!<arch>\n"
  const AR_MAGIC: seq<byte> := [0x21, 0x3C, 0x61, 0x72, 0x63, 0x68, 0x3E, 0x0A]
  const HEADER_SIZE: nat := 60
  // "data.tar"
  const DATA_PREFIX: seq<byte> := [0x64, 0x61, 0x74, 0x61, 0x2E, 0x74, 0x61, 0x72]
  const GZ: seq<byte> := [0x2E, 0x67, 0x7A]
  const XZ: seq<byte> := [0x2E, 0x78, 0x7A]
  const SLASH: byte := '/' as byte
  const BUFFER: nat := 8192
  const U64_MAX: nat := 0xFFFF_FFFF_FFFF_FFFF

  datatype Failure = NotDeb | NoDebData | BadDebMember | Unreadable | UnsupportedPayload(name: seq<byte>)

  // How the member's bytes are unpacked.
  datatype Packing = Plain | Gzip | Xz

  datatype Result<+T> = Ok(value: T) | Err(failure: Failure)

  // -- A member's header -----------------------------------------------------------

  function MemberName(header: seq<byte>): seq<byte>
    requires |header| == HEADER_SIZE
  {
    TrimEndMatches(TrimEnd(Lossy(header[..16])), {SLASH})
  }

  function MemberSize(header: seq<byte>): Option<nat>
    requires |header| == HEADER_SIZE
  {
    ParseUnsigned(Trim(Lossy(header[48..58])), U64_MAX)
  }

  function PackingOf(name: seq<byte>): Option<Packing>
    requires DATA_PREFIX <= name
  {
    var suffix := name[|DATA_PREFIX|..];
    if suffix == [] then Some(Plain)
    else if suffix == GZ then Some(Gzip)
    else if suffix == XZ then Some(Xz)
    else None
  }

  // -- What the walk should find ------------------------------------------------------

  // The bytes handed on and how they are packed.
  datatype Payload = Payload(packing: Packing, bytes: seq<byte>)

  function Padded(size: nat): nat {
    size + size % 2
  }

  // The first member whose name starts with `data.tar`, from where a header may
  // start.
  function FromMember(data: seq<byte>): Result<Payload>
    decreases |data|, 0
  {
    if data == [] then Err(NoDebData)
    else if |data| < HEADER_SIZE then Err(Unreadable)
    else AfterHeader(data[..HEADER_SIZE], data[HEADER_SIZE..])
  }

  function AfterHeader(header: seq<byte>, rest: seq<byte>): Result<Payload>
    requires |header| == HEADER_SIZE
    decreases |rest|, 1
  {
    match MemberSize(header)
    case None => Err(BadDebMember)
    case Some(size) =>
      var name := MemberName(header);
      if DATA_PREFIX <= name then
        match PackingOf(name)
        case None => Err(UnsupportedPayload(name))
        case Some(packing) => Ok(Payload(packing, if size <= |rest| then rest[..size] else rest))
      else if Padded(size) > |rest| then Err(BadDebMember)
      else FromMember(rest[Padded(size)..])
  }

  function FromContainer(data: seq<byte>): Result<Payload> {
    if |data| < |AR_MAGIC| then Err(Unreadable)
    else if data[..|AR_MAGIC|] != AR_MAGIC then Err(NotDeb)
    else FromMember(data[|AR_MAGIC|..])
  }

  // -- A reader that gives as much as it likes -------------------------------------------

  class Reader {
    var data: seq<byte>
    var pace: seq<nat>   // how much each read gives at most; all it can once empty

    constructor (data: seq<byte>, pace: seq<nat>)
      ensures this.data == data && this.pace == pace
    {
      this.data, this.pace := data, pace;
    }

    // Up to `want` bytes; none only at the end or when none are wanted.
    method Read(want: nat) returns (bytes: seq<byte>)
      modifies this
      ensures |bytes| <= want && old(data) == bytes + data
      ensures bytes == [] <==> want == 0 || old(data) == []
    {
      var most := if want < |data| then want else |data|;
      var n := most;
      if pace != [] {
        n := if pace[0] < 1 then 1 else pace[0];
        n := if n < most then n else most;
        pace := pace[1..];
      }
      bytes, data := data[..n], data[n..];
    }

    // Reads until `size` bytes are there.
    method ReadExact(size: nat) returns (bytes: Option<seq<byte>>)
      modifies this
      ensures if size <= |old(data)|
              then bytes == Some(old(data)[..size]) && data == old(data)[size..]
              else bytes == None
    {
      var filled: seq<byte> := [];
      while |filled| < size
        invariant |filled| <= size && old(data) == filled + data
        decreases size - |filled|
      {
        var more := Read(size - |filled|);
        if more == [] {
          return None;
        }
        Regrouped(filled, more, data);
        filled := filled + more;
      }
      return Some(filled);
    }
  }

  // -- The walk -------------------------------------------------------------------------

  // Sixty bytes of header, unless the container is over before the first of them.
  method ReadHeader(reader: Reader) returns (header: Result<Option<seq<byte>>>)
    modifies reader
    ensures var data := old(reader.data);
            if data == [] then header == Ok(None)
            else if |data| < HEADER_SIZE then header == Err(Unreadable)
            else header == Ok(Some(data[..HEADER_SIZE])) && reader.data == data[HEADER_SIZE..]
  {
    ghost var data := reader.data;
    var first := reader.Read(1);
    if first == [] {
      return Ok(None);
    }
    assert first == data[..1] && reader.data == data[1..];
    var rest := reader.ReadExact(HEADER_SIZE - 1);
    if rest.None? {
      return Err(Unreadable);
    }
    assert first + rest.value == data[..HEADER_SIZE];
    assert data[1..][HEADER_SIZE - 1..] == data[HEADER_SIZE..];
    return Ok(Some(first + rest.value));
  }

  // Reads past `count` bytes.
  method Skip(reader: Reader, count: nat) returns (skipped: bool)
    modifies reader
    ensures skipped <==> count <= |old(reader.data)|
    ensures skipped ==> reader.data == old(reader.data)[count..]
  {
    var rest := count;
    while rest > 0
      invariant 0 <= rest <= count && count - rest <= |old(reader.data)|
      invariant reader.data == old(reader.data)[count - rest..]
    {
      var want := if rest < BUFFER then rest else BUFFER;
      ghost var before := reader.data;
      var bytes := reader.Read(want);
      if bytes == [] {
        return false;
      }
      assert reader.data == before[|bytes|..];
      rest := rest - |bytes|;
    }
    return true;
  }

  // The bytes the unpacker is given: `take` stops after `size` of them.
  method Take(reader: Reader, size: nat) returns (bytes: seq<byte>)
    modifies reader
    ensures bytes == if size <= |old(reader.data)| then old(reader.data)[..size] else old(reader.data)
  {
    bytes := [];
    while |bytes| < size
      invariant |bytes| <= size && old(reader.data) == bytes + reader.data
      decreases size - |bytes|
    {
      var more := reader.Read(size - |bytes|);
      if more == [] {
        return;
      }
      Regrouped(bytes, more, reader.data);
      bytes := bytes + more;
    }
  }

  // Whatever the pace of the reads: exactly the bytes of the first data member,
  // every earlier member and its padding skipped.
  method UnpackDeb(reader: Reader) returns (payload: Result<Payload>)
    modifies reader
    ensures payload == FromContainer(old(reader.data))
  {
    var magic := reader.ReadExact(|AR_MAGIC|);
    if magic.None? {
      return Err(Unreadable);
    }
    if magic.value != AR_MAGIC {
      return Err(NotDeb);
    }
    ghost var members := reader.data;
    while true
      invariant FromMember(reader.data) == FromMember(members)
      decreases |reader.data|
    {
      ghost var data := reader.data;
      var header := ReadHeader(reader);
      match header
      case Err(failure) => return Err(failure);
      case Ok(None) => return Err(NoDebData);
      case Ok(Some(bytes)) =>
        var name := MemberName(bytes);
        var size := MemberSize(bytes);
        if size.None? {
          return Err(BadDebMember);
        }
        SizeFits(bytes);
        if DATA_PREFIX <= name {
          var packing := PackingOf(name);
          if packing.None? {
            return Err(UnsupportedPayload(name));
          }
          var member := Take(reader, size.value);
          return Ok(Payload(packing.value, member));
        }
        var skipped := Skip(reader, size.value + size.value % 2);
        if !skipped {
          return Err(BadDebMember);
        }
    }
  }

  // -- The size field --------------------------------------------------------------------

  function CountAscii(s: seq<byte>): nat {
    if s == [] then 0 else (if s[0] < 0x80 then 1 else 0) + CountAscii(s[1..])
  }

  lemma {:induction false} CountConcat(a: seq<byte>, b: seq<byte>)
    ensures CountAscii(a + b) == CountAscii(a) + CountAscii(b)
  {
    if a == [] {
      assert a + b == b;
    } else {
      assert (a + b)[1..] == a[1..] + b;
      CountConcat(a[1..], b);
    }
  }

  lemma {:induction false} CountAtMost(s: seq<byte>)
    ensures CountAscii(s) <= |s|
    ensures IsAscii(s) ==> CountAscii(s) == |s|
  {
    if s != [] {
      CountAtMost(s[1..]);
    }
  }

  // Decoding makes no ASCII characters out of anything but themselves.
  lemma {:induction false} LossyAddsNoAscii(s: seq<byte>)
    ensures CountAscii(Lossy(s)) <= |s|
  {
    if s != [] {
      assert CountAscii(REPLACEMENT) == 0 by {
        assert REPLACEMENT[1..][1..][1..] == [];
      }
      match HeadOf(s)
      case Character(n) =>
        CountConcat(s[..n], Lossy(s[n..]));
        CountAtMost(s[..n]);
        LossyAddsNoAscii(s[n..]);
      case Broken(n) =>
        CountConcat(REPLACEMENT, Lossy(s[n..]));
        LossyAddsNoAscii(s[n..]);
      case Truncated =>
    }
  }

  lemma {:induction false} CountOfPart(s: seq<byte>, from: nat, to: nat)
    requires from <= to <= |s|
    ensures CountAscii(s[from..to]) <= CountAscii(s)
  {
    assert s == s[..from] + (s[from..to] + s[to..]);
    CountConcat(s[..from], s[from..to] + s[to..]);
    CountConcat(s[from..to], s[to..]);
  }

  lemma {:induction false} TrimStartIsSuffix(s: seq<byte>) returns (from: nat)
    ensures from <= |s| && TrimStart(s) == s[from..]
    decreases |s|
  {
    var n := SpaceFirst(s);
    if n == 0 {
      from := 0;
    } else {
      var rest := TrimStartIsSuffix(s[n..]);
      from := n + rest;
      Slices(s, n, from);
    }
  }

  lemma {:induction false} TrimEndIsPrefix(s: seq<byte>) returns (to: nat)
    ensures to <= |s| && TrimEnd(s) == s[..to]
    decreases |s|
  {
    var n := SpaceLast(s);
    if n == 0 {
      to := |s|;
    } else {
      to := TrimEndIsPrefix(s[..|s| - n]);
      Slices(s, to, |s| - n);
    }
  }

  lemma TrimAddsNoAscii(s: seq<byte>)
    ensures CountAscii(Trim(s)) <= CountAscii(s)
  {
    var from := TrimStartIsSuffix(s);
    var start := s[from..];
    assert s[from..|s|] == start;
    CountOfPart(s, from, |s|);
    var to := TrimEndIsPrefix(start);
    assert start[0..to] == start[..to];
    CountOfPart(start, 0, to);
  }

  lemma {:induction false} Pow10Grows(m: nat, n: nat)
    requires m <= n
    ensures Pow10(m) <= Pow10(n)
  {
    if m < n {
      Pow10Grows(m, n - 1);
    }
  }

  lemma ParsedIsAscii(s: seq<byte>, max: nat)
    requires ParseUnsigned(s, max).Some?
    ensures IsAscii(s)
  {
    var codes := Codes(s);
    var digits := if codes[0] == PLUS_SIGN then codes[1..] else codes;
    forall i | 0 <= i < |s|
      ensures s[i] < 0x80
    {
      if codes[0] == PLUS_SIGN && i > 0 {
        assert IsDigitCode(digits[i - 1]);
      } else if codes[0] != PLUS_SIGN {
        assert IsDigitCode(digits[i]);
      }
    }
  }

  lemma ParsedIsShort(s: seq<byte>, max: nat)
    requires ParseUnsigned(s, max).Some?
    ensures ParseUnsigned(s, max).value < Pow10(CountAscii(s))
  {
    ParsedIsAscii(s, max);
    CountAtMost(s);
    ParsedBound(Codes(s), max);
    var digits: nat :| digits <= |s| && ParseUnsigned(s, max).value < Pow10(digits);
    Pow10Grows(digits, |s|);
  }

  lemma TenDigits()
    ensures Pow10(10) == 10_000_000_000
  {
    assert Pow10(5) == 100_000;
    assert Pow10(10) == 10 * (10 * (10 * (10 * (10 * Pow10(5)))));
  }

  // Ten characters of size, however they are written, keep the padded size far
  // inside 64 bits.
  lemma SizeFits(header: seq<byte>)
    requires |header| == HEADER_SIZE && MemberSize(header).Some?
    ensures Padded(MemberSize(header).value) <= 10_000_000_000 < U64_MAX
  {
    var field := header[48..58];
    var text := Trim(Lossy(field));
    LossyAddsNoAscii(field);
    TrimAddsNoAscii(Lossy(field));
    ParsedIsShort(text, U64_MAX);
    Pow10Grows(CountAscii(text), 10);
    TenDigits();
  }

  // -- Containers --------------------------------------------------------------------------

  // A member as it stands in a container, with the byte it is padded by.
  datatype Member = Member(header: seq<byte>, content: seq<byte>, pad: byte)

  predicate IsMember(m: Member) {
    |m.header| == HEADER_SIZE && MemberSize(m.header) == Some(|m.content|)
  }

  function Stored(m: Member): seq<byte> {
    m.header + m.content + if |m.content| % 2 == 1 then [m.pad] else []
  }

  function AllStored(members: seq<Member>): seq<byte> {
    if members == [] then [] else Stored(members[0]) + AllStored(members[1..])
  }

  predicate IsData(m: Member)
    requires IsMember(m)
  {
    DATA_PREFIX <= MemberName(m.header)
  }

  function Unpacked(m: Member): Result<Payload>
    requires IsMember(m) && IsData(m)
  {
    var name := MemberName(m.header);
    match PackingOf(name)
    case None => Err(UnsupportedPayload(name))
    case Some(packing) => Ok(Payload(packing, m.content))
  }

  lemma FirstMember(m: Member, rest: seq<byte>)
    requires IsMember(m)
    ensures FromMember(Stored(m) + rest) == if IsData(m) then Unpacked(m) else FromMember(rest)
  {
    var data := Stored(m) + rest;
    var after := m.content + (if |m.content| % 2 == 1 then [m.pad] else []) + rest;
    assert data == m.header + after;
    assert data[..HEADER_SIZE] == m.header && data[HEADER_SIZE..] == after;
    AfterItsHeader(m, after, rest);
  }

  lemma AfterItsHeader(m: Member, after: seq<byte>, rest: seq<byte>)
    requires IsMember(m)
    requires after == m.content + (if |m.content| % 2 == 1 then [m.pad] else []) + rest
    ensures AfterHeader(m.header, after) == if IsData(m) then Unpacked(m) else FromMember(rest)
  {
    assert after[..|m.content|] == m.content;
    assert after[Padded(|m.content|)..] == rest;
  }

  // -- Headers as they are written ---------------------------------------------------------------

  // A member as a package writes it: its name, closed by a slash or not, what stands
  // between name and size, the mark that ends the header, and the content.
  datatype Entry = Entry(
    name: seq<byte>, slash: bool, between: seq<byte>, mark: seq<byte>, content: seq<byte>, pad: byte)

  // `text` filled up with spaces.
  function Filled(text: seq<byte>, size: nat): (field: seq<byte>)
    ensures |text| <= size ==> |field| == size
  {
    text + seq(if |text| <= size then size - |text| else 0, i => SPACE)
  }

  function NameField(e: Entry): seq<byte> {
    e.name + if e.slash then [SLASH] else []
  }

  // A name of visible ASCII that does not end in a slash itself.
  ghost predicate IsEntry(e: Entry) {
    && e.name != [] && (forall i :: 0 <= i < |e.name| ==> IsGraphic(e.name[i]))
    && e.name[|e.name| - 1] != SLASH && |NameField(e)| <= 16
    && |e.between| == 32 && |e.mark| == 2 && |e.content| < 10_000_000_000
  }

  lemma SizeIsShort(n: nat)
    requires n < 10_000_000_000
    ensures |Decimal(n)| <= 10
  {
    TenDigits();
    DigitsAreFew(n, 10);
  }

  lemma {:induction false} DigitsAreFew(n: nat, most: nat)
    requires most > 0 && n < Pow10(most)
    ensures |Digits(n)| <= most
  {
    if n >= 10 {
      assert Pow10(most) == 10 * Pow10(most - 1);
      DigitsAreFew(n / 10, most - 1);
    }
  }

  function WrittenHeader(e: Entry): seq<byte> {
    Filled(NameField(e), 16) + e.between + Filled(Decimal(|e.content|), 10) + e.mark
  }

  lemma FilledIsTrimmed(text: seq<byte>, size: nat)
    requires text != [] && |text| <= size && forall i :: 0 <= i < |text| ==> IsGraphic(text[i])
    ensures Lossy(Filled(text, size)) == Filled(text, size)
    ensures TrimEnd(Filled(text, size)) == text && Trim(Filled(text, size)) == text
  {
    var white := seq(size - |text|, i => [SPACE]);
    forall i | 0 <= i < |white|
      ensures IsWhiteCharacter(white[i])
    {
      assert white[i] == Encoded(0x20) && IsWhite(0x20);
    }
    SpacesAre(white);
    var field := Filled(text, size);
    assert field == text + Flatten(white);
    AsciiIsText(field);
    ValidIffWellFormed(field);
    LossyOfText(field);
    TrimEndDrops(text, white);
    TrimEndStops(text);
    TrimStartStops(field);
  }

  lemma {:induction false} SpacesAre(white: seq<seq<byte>>)
    requires forall i :: 0 <= i < |white| ==> white[i] == [SPACE]
    ensures Flatten(white) == seq(|white|, i => SPACE)
  {
    if white != [] {
      SpacesAre(white[1..]);
    }
  }

  // Name and size read back from a written header.
  lemma HeaderReadsBack(e: Entry)
    requires IsEntry(e)
    ensures |WrittenHeader(e)| == HEADER_SIZE
    ensures MemberName(WrittenHeader(e)) == e.name && MemberSize(WrittenHeader(e)) == Some(|e.content|)
  {
    SizeIsShort(|e.content|);
    var header, size := WrittenHeader(e), Decimal(|e.content|);
    assert header[..16] == Filled(NameField(e), 16);
    FilledIsTrimmed(NameField(e), 16);
    SlashIsTrimmed(e.name, e.slash);
    assert header[48..58] == Filled(size, 10);
    assert forall i :: 0 <= i < |size| ==> IsDigit(size[i]);
    FilledIsTrimmed(size, 10);
    ParseDecimal(|e.content|, U64_MAX);
  }

  lemma SlashIsTrimmed(name: seq<byte>, slash: bool)
    requires name != [] && name[|name| - 1] != SLASH
    ensures TrimEndMatches(name + if slash then [SLASH] else [], {SLASH}) == name
  {
    assert slash ==> (name + [SLASH])[..|name|] == name;
    assert name + [] == name;
  }

  function AsMember(e: Entry): Member {
    Member(WrittenHeader(e), e.content, e.pad)
  }

  predicate IsDataName(name: seq<byte>) {
    Ascii("data.tar") <= name
  }

  // What unpacking a member of that name gives.
  ghost predicate IsUnpacked(result: Result<Payload>, name: seq<byte>, content: seq<byte>) {
    if name == Ascii("data.tar") then result == Ok(Payload(Plain, content))
    else if name == Ascii("data.tar.gz") then result == Ok(Payload(Gzip, content))
    else if name == Ascii("data.tar.xz") then result == Ok(Payload(Xz, content))
    else result == Err(UnsupportedPayload(name))
  }

  lemma NamesAreSpelled()
    ensures DATA_PREFIX == Ascii("data.tar") && AR_MAGIC == Ascii("!<arch>\n")
    ensures DATA_PREFIX + GZ == Ascii("data.tar.gz") && DATA_PREFIX + XZ == Ascii("data.tar.xz")
  {
  }

  lemma PackingsAreNamed(name: seq<byte>, content: seq<byte>)
    requires DATA_PREFIX <= name
    ensures match PackingOf(name)
            case None => IsUnpacked(Err(UnsupportedPayload(name)), name, content)
            case Some(packing) => IsUnpacked(Ok(Payload(packing, content)), name, content)
  {
    NamesAreSpelled();
    var suffix := name[|DATA_PREFIX|..];
    assert name == DATA_PREFIX + suffix;
    SuffixTells(suffix, []);
    SuffixTells(suffix, GZ);
    SuffixTells(suffix, XZ);
    assert DATA_PREFIX + [] == DATA_PREFIX;
  }

  lemma SuffixTells(suffix: seq<byte>, other: seq<byte>)
    ensures DATA_PREFIX + suffix == DATA_PREFIX + other <==> suffix == other
  {
    assert (DATA_PREFIX + suffix)[|DATA_PREFIX|..] == suffix;
    assert (DATA_PREFIX + other)[|DATA_PREFIX|..] == other;
  }

  // Members without data, then one with it.
  ghost predicate LeadsToData(before: seq<Member>, m: Member)
    decreases |before|
  {
    if before == [] then IsMember(m) && IsData(m)
    else IsMember(before[0]) && !IsData(before[0]) && LeadsToData(before[1..], m)
  }

  // The walk hands on exactly the content of the first data member, whatever
  // the members before it and the bytes after it hold.
  lemma WalkFindsFirst(before: seq<Member>, m: Member, rest: seq<byte>)
    ensures LeadsToData(before, m) ==>
              && IsMember(m) && IsData(m)
              && FromContainer(AR_MAGIC + (AllStored(before) + (Stored(m) + rest))) == Unpacked(m)
  {
    if LeadsToData(before, m) {
      var data := AR_MAGIC + (AllStored(before) + (Stored(m) + rest));
      MembersFindFirst(before, m, rest);
      assert data[..|AR_MAGIC|] == AR_MAGIC;
      assert data[|AR_MAGIC|..] == AllStored(before) + (Stored(m) + rest);
    }
  }

  lemma {:induction false} MembersFindFirst(before: seq<Member>, m: Member, rest: seq<byte>)
    requires LeadsToData(before, m)
    ensures IsMember(m) && IsData(m)
    ensures FromMember(AllStored(before) + (Stored(m) + rest)) == Unpacked(m)
    decreases |before|
  {
    var tail := Stored(m) + rest;
    if before == [] {
      assert AllStored(before) + tail == tail;
      FirstMember(m, rest);
    } else {
      Regrouped(Stored(before[0]), AllStored(before[1..]), tail);
      FirstMember(before[0], AllStored(before[1..]) + tail);
      MembersFindFirst(before[1..], m, rest);
    }
  }

  ghost predicate AreEntries(entries: seq<Entry>) {
    forall i :: 0 <= i < |entries| ==> IsEntry(entries[i])
  }

  function WrittenMembers(entries: seq<Entry>): seq<Member> {
    if entries == [] then [] else [AsMember(entries[0])] + WrittenMembers(entries[1..])
  }

  lemma EntryIsMember(e: Entry)
    requires IsEntry(e)
    ensures IsMember(AsMember(e))
    ensures IsData(AsMember(e)) <==> IsDataName(e.name)
  {
    NamesAreSpelled();
    HeaderReadsBack(e);
  }

  lemma {:induction false} OtherMembersLead(entries: seq<Entry>, m: Member)
    requires AreEntries(entries) && IsMember(m) && IsData(m)
    requires forall i :: 0 <= i < |entries| ==> !IsDataName(entries[i].name)
    ensures LeadsToData(WrittenMembers(entries), m)
  {
    if entries != [] {
      EntryIsMember(entries[0]);
      OtherMembersLead(entries[1..], m);
      assert WrittenMembers(entries)[1..] == WrittenMembers(entries[1..]);
    }
  }

  // Whatever package is written, the container's mark and then its members: the first
  // one named `data.tar` is unpacked as its name says.
  lemma PackageUnpacks(before: seq<Entry>, e: Entry, rest: seq<byte>)
    requires AreEntries(before) && IsEntry(e)
    requires forall i :: 0 <= i < |before| ==> !IsDataName(before[i].name)
    requires IsDataName(e.name)
    ensures var written := AllStored(WrittenMembers(before)) + (Stored(AsMember(e)) + rest);
            IsUnpacked(FromContainer(Ascii("!<arch>\n") + written), e.name, e.content)
  {
    NamesAreSpelled();
    EntryIsMember(e);
    HeaderReadsBack(e);
    OtherMembersLead(before, AsMember(e));
    WalkFindsFirst(WrittenMembers(before), AsMember(e), rest);
    PackingsAreNamed(e.name, e.content);
  }

  // A container of other members only has no data.
  lemma {:induction false} WalkFindsNone(members: seq<Member>)
    requires forall i :: 0 <= i < |members| ==> IsMember(members[i])
    ensures (forall i :: 0 <= i < |members| ==> !IsData(members[i])) ==>
              FromMember(AllStored(members)) == Err(NoDebData)
  {
    if members != [] && forall i :: 0 <= i < |members| ==> !IsData(members[i]) {
      FirstMember(members[0], AllStored(members[1..]));
      WalkFindsNone(members[1..]);
    }
  }

  // -- Containers cut short --------------------------------------------------------------------

  // How a container of members without data ends that is cut after `n` bytes of them:
  // with no data between two, unreadable inside a header, as a bad member past it.
  function CutFailure(members: seq<Member>, n: nat): Failure {
    if n == 0 || members == [] then NoDebData
    else if n >= |Stored(members[0])| then CutFailure(members[1..], n - |Stored(members[0])|)
    else if n < HEADER_SIZE then Unreadable
    else BadDebMember
  }

  lemma {:induction false} CutMembers(members: seq<Member>, n: nat)
    requires forall i :: 0 <= i < |members| ==> IsMember(members[i])
    requires forall i :: 0 <= i < |members| ==> !IsData(members[i])
    requires n <= |AllStored(members)|
    ensures FromMember(AllStored(members)[..n]) == Err(CutFailure(members, n))
    decreases |members|
  {
    if n > 0 {
      var m, rest := members[0], AllStored(members[1..]);
      var size := |Stored(m)|;
      if n >= size {
        assert AllStored(members)[..n] == Stored(m) + rest[..n - size];
        FirstMember(m, rest[..n - size]);
        CutMembers(members[1..], n - size);
      } else {
        assert AllStored(members)[..n] == Stored(m)[..n];
        CutMember(m, n);
      }
    }
  }

  lemma CutMember(m: Member, n: nat)
    requires IsMember(m) && !IsData(m) && 0 < n < |Stored(m)|
    ensures FromMember(Stored(m)[..n]) == Err(if n < HEADER_SIZE then Unreadable else BadDebMember)
  {
    var data := Stored(m)[..n];
    if n >= HEADER_SIZE {
      assert data[..HEADER_SIZE] == m.header;
      assert |data[HEADER_SIZE..]| < Padded(|m.content|);
    }
  }

  // A container is told from what is none by its mark, and one cut short by where it
  // was cut.
  lemma CutContainer(members: seq<Member>, n: nat)
    requires forall i :: 0 <= i < |members| ==> IsMember(members[i])
    requires forall i :: 0 <= i < |members| ==> !IsData(members[i])
    requires n <= |AR_MAGIC| + |AllStored(members)|
    ensures FromContainer((AR_MAGIC + AllStored(members))[..n]) ==
            Err(if n < |AR_MAGIC| then Unreadable else CutFailure(members, n - |AR_MAGIC|))
  {
    CutAfterMark(AllStored(members), n);
    if n >= |AR_MAGIC| {
      CutMembers(members, n - |AR_MAGIC|);
    }
  }

  lemma CutAfterMark(rest: seq<byte>, n: nat)
    requires n <= |AR_MAGIC| + |rest|
    ensures FromContainer((AR_MAGIC + rest)[..n]) ==
            if n < |AR_MAGIC| then Err(Unreadable) else FromMember(rest[..n - |AR_MAGIC|])
  {
    if n >= |AR_MAGIC| {
      assert (AR_MAGIC + rest)[..n] == AR_MAGIC + rest[..n - |AR_MAGIC|];
      MarkedContainer(rest[..n - |AR_MAGIC|]);
    }
  }

  lemma MarkedContainer(rest: seq<byte>)
    ensures FromContainer(AR_MAGIC + rest) == FromMember(rest)
  {
    var data := AR_MAGIC + rest;
    assert data[..|AR_MAGIC|] == AR_MAGIC && data[|AR_MAGIC|..] == rest;
  }

  lemma OtherMarkIsNone(data: seq<byte>)
    requires |data| >= |AR_MAGIC| && !(AR_MAGIC <= data)
    ensures FromContainer(data) == Err(NotDeb)
  {
    assert data == data[..|AR_MAGIC|] + data[|AR_MAGIC|..];
  }

  // A member whose size is no number is bad, whatever it is called.
  lemma BadSizeIsBad(header: seq<byte>, rest: seq<byte>)
    requires |header| == HEADER_SIZE && MemberSize(header).None?
    ensures FromMember(header + rest) == Err(BadDebMember)
  {
    assert (header + rest)[..HEADER_SIZE] == header;
  }
}
