// A stream of bytes decoded piece by piece, whatever the pieces are.
module Utf8Chunkers {
  import opened Bytes
  import opened Sequences
  import opened Utf8

  // Everything decodable in a byte sequence, and the truncated character left
  // at its end.
  datatype Decoded = Decoded(text: seq<byte>, held: seq<byte>)

  function After(text: seq<byte>, rest: Decoded): Decoded {
    Decoded(text + rest.text, rest.held)
  }

  lemma AfterAfter(a: seq<byte>, b: seq<byte>, rest: Decoded)
    ensures After(a, After(b, rest)) == After(a + b, rest)
  {
  }

  function Decode(s: seq<byte>): Decoded {
    if s == [] then Decoded([], [])
    else match HeadOf(s)
      case Character(n) => After(s[..n], Decode(s[n..]))
      case Broken(n) => After(REPLACEMENT, Decode(s[n..]))
      case Truncated => Decoded([], s)
  }

  // What may be held back between two calls.
  ghost predicate IsHeld(s: seq<byte>) {
    s == [] || (IsTruncated(s) && |s| <= 3)
  }

  // -- Properties of the specification ------------------------------------------

  lemma {:induction false} DecodeHolds(s: seq<byte>)
    ensures IsHeld(Decode(s).held)
    ensures EndsWith(s, Decode(s).held)
  {
    if s != [] {
      match HeadOf(s)
      case Character(n) =>
        DecodeHolds(s[n..]);
        EndsWithMore(s, n, Decode(s).held);
      case Broken(n) =>
        DecodeHolds(s[n..]);
        EndsWithMore(s, n, Decode(s).held);
      case Truncated => TruncatedHead(s);
    }
  }

  lemma HeldStaysHeld(held: seq<byte>)
    requires IsHeld(held)
    ensures Decode(held) == Decoded([], held)
  {
    if held != [] {
      TruncatedHead(held);
    }
  }

  lemma HeadLocal(a: seq<byte>, b: seq<byte>)
    requires a != [] && HeadOf(a) != Truncated
    ensures HeadOf(a + b) == HeadOf(a)
  {
  }

  // Decoding may stop anywhere and go on with what was held back.
  lemma {:induction false} DecodeConcat(a: seq<byte>, b: seq<byte>)
    ensures Decode(a + b) == After(Decode(a).text, Decode(Decode(a).held + b))
  {
    if a == [] {
      assert a + b == b;
    } else if HeadOf(a) == Truncated {
      assert Decode(a).text + Decode(a + b).text == Decode(a + b).text;
    } else {
      HeadLocal(a, b);
      var n := HeadOf(a).length;
      var step := if HeadOf(a).Character? then a[..n] else REPLACEMENT;
      assert (a + b)[n..] == a[n..] + b && (a + b)[..n] == a[..n];
      DecodeConcat(a[n..], b);
      AfterAfter(step, Decode(a[n..]).text, Decode(Decode(a).held + b));
    }
  }

  lemma Resume(out: seq<byte>, a: seq<byte>, b: seq<byte>)
    ensures After(out, Decode(a + b)) ==
            After(After(out, Decode(a)).text, Decode(Decode(a).held + b))
    ensures IsHeld(Decode(a).held)
  {
    DecodeConcat(a, b);
    DecodeHolds(a);
    AfterAfter(out, Decode(a).text, Decode(Decode(a).held + b));
  }

  // Flushing what is held back at the end gives the one-shot decoding.
  lemma {:induction false} DecodeThenFlush(s: seq<byte>)
    ensures Lossy(s) == Decode(s).text + Lossy(Decode(s).held)
  {
    if s != [] {
      match HeadOf(s)
      case Character(n) => DecodeThenFlush(s[n..]);
      case Broken(n) => DecodeThenFlush(s[n..]);
      case Truncated =>
    }
  }

  // What is handed on is always valid UTF-8 on its own.
  lemma {:induction false} DecodeIsText(s: seq<byte>)
    ensures WellFormed(Decode(s).text)
  {
    EmptyIsWellFormed();
    if s != [] {
      match HeadOf(s)
      case Character(n) =>
        DecodeIsText(s[n..]);
        HeadIsCharacter(s, n);
        WellFormedPrepend(s[..n], Decode(s[n..]).text);
      case Broken(n) =>
        DecodeIsText(s[n..]);
        WellFormedPrepend(REPLACEMENT, Decode(s[n..]).text);
      case Truncated =>
    }
  }

  lemma FlushIsText(held: seq<byte>)
    requires IsHeld(held)
    ensures WellFormed(Lossy(held))
  {
    EmptyIsWellFormed();
    if held != [] {
      TruncatedHead(held);
      assert REPLACEMENT + [] == REPLACEMENT;
      WellFormedPrepend(REPLACEMENT, []);
    }
  }

  // -- What one validation says ---------------------------------------------------

  // Text decodes to itself, and leaves nothing.
  lemma {:induction false} DecodeText(s: seq<byte>)
    requires FromUtf8(s).Valid?
    ensures Decode(s) == Decoded(s, [])
  {
    if s != [] {
      var n := HeadOf(s).length;
      DecodeText(s[n..]);
      assert s[..n] + s[n..] == s;
    }
  }

  // Text, then whatever follows it.
  lemma DecodeAfterText(text: seq<byte>, rest: seq<byte>)
    requires FromUtf8(text).Valid?
    ensures Decode(text + rest) == After(text, Decode(rest))
  {
    DecodeText(text);
    DecodeConcat(text, rest);
    assert [] + rest == rest;
  }

  // What stands where a refusal ends the text.
  lemma {:induction false} RefusedHead(s: seq<byte>)
    requires FromUtf8(s).Invalid?
    ensures var e := FromUtf8(s);
            HeadOf(s[e.validUpTo..]) == if e.errorLen.Some? then Broken(e.errorLen.value) else Truncated
  {
    if HeadOf(s).Character? {
      var n := HeadOf(s).length;
      RefusedHead(s[n..]);
      assert s[n..][FromUtf8(s[n..]).validUpTo..] == s[FromUtf8(s).validUpTo..];
    } else {
      assert s[0..] == s;
    }
  }

  // A refusal decodes to the text before it, and either one replacement and
  // what follows the broken sequence, or nothing more.
  lemma DecodeRefused(out: seq<byte>, s: seq<byte>)
    requires FromUtf8(s).Invalid?
    ensures var e := FromUtf8(s);
            var text, after := s[..e.validUpTo], s[e.validUpTo..];
            && FromUtf8(text).Valid?
            && After(out, Decode(s)) ==
               if e.errorLen.Some? then After(out + text + REPLACEMENT, Decode(after[e.errorLen.value..]))
               else Decoded(out + text, after)
  {
    var e := FromUtf8(s);
    var text, after := s[..e.validUpTo], s[e.validUpTo..];
    assert FromUtf8(text).Valid? && Decode(s) == After(text, Decode(after)) by {
      ValidPrefix(s);
      DecodeAfterText(text, after);
      assert text + after == s;
    }
    AfterAfter(out, text, Decode(after));
    RefusedHead(s);
    AfterRefused(out + text, after);
  }

  lemma AfterRefused(out: seq<byte>, s: seq<byte>)
    requires s != [] && !HeadOf(s).Character?
    ensures After(out, Decode(s)) ==
            if HeadOf(s).Broken? then After(out + REPLACEMENT, Decode(s[HeadOf(s).length..]))
            else Decoded(out, s)
  {
    if HeadOf(s).Broken? {
      AfterAfter(out, REPLACEMENT, Decode(s[HeadOf(s).length..]));
    } else {
      assert out + [] == out;
    }
  }

  // -- The chunker --------------------------------------------------------------

  // Everything decodable in `input` appended to `out`, and the truncated
  // character left at the end.
  method DecodeInto(input: seq<byte>, before: seq<byte>) returns (out: seq<byte>, held: seq<byte>)
    ensures Decoded(out, held) == After(before, Decode(input))
  {
    var bytes := input;
    out := before;
    while true
      invariant After(out, Decode(bytes)) == After(before, Decode(input))
      decreases |bytes|
    {
      match FromUtf8(bytes)
      case Valid =>
        DecodeText(bytes);
        return out + bytes, [];
      case Invalid(upTo, errorLen) =>
        DecodeRefused(out, bytes);
        var valid, after := bytes[..upTo], bytes[upTo..];
        out := out + (if FromUtf8(valid).Valid? then valid else []);
        match errorLen {
          case Some(length) =>
            out := out + REPLACEMENT;
            bytes := after[length..];
          case None =>
            return out, after;
        }
    }
  }

  class Utf8Chunker {
    var pending: seq<byte>

    ghost predicate Valid()
      reads this
    {
      IsHeld(pending)
    }

    constructor ()
      ensures Valid() && pending == []
    {
      pending := [];
    }

    // Everything decodable so far: the held back character completed by
    // `chunk`, then the rest of it.
    method Push(chunk: seq<byte>) returns (out: seq<byte>)
      requires Valid()
      modifies this
      ensures Valid()
      ensures Decoded(out, pending) == Decode(old(pending) + chunk)
      ensures WellFormed(out)
    {
      ghost var all := pending + chunk;
      var bytes := chunk;
      out := [];
      while pending != []
        invariant Valid()
        invariant After(out, Decode(pending + bytes)) == Decode(all)
        decreases |bytes|
      {
        if bytes == [] {
          assert pending + bytes == pending;
          HeldStaysHeld(pending);
          DecodeIsText(all);
          return;
        }
        ShiftOne(pending, bytes);
        pending, bytes := pending + [bytes[0]], bytes[1..];
        if FromUtf8(pending).Invalid? && FromUtf8(pending).errorLen == None {
          StillTruncated(pending);
          continue;
        }
        ghost var before := out;
        var completed := pending;
        pending := [];
        out, pending := DecodeInto(completed, out);
        Resume(before, completed, bytes);
      }
      assert pending + bytes == bytes;
      var tail;
      out, tail := DecodeInto(bytes, out);
      DecodeHolds(bytes);
      assert pending + tail == tail;
      pending := pending + tail;
      DecodeIsText(all);
    }

    // Flushes whatever incomplete character is still held back.
    method Finish() returns (out: seq<byte>)
      requires Valid()
      modifies this
      ensures Valid() && pending == []
      ensures out == Lossy(old(pending))
      ensures WellFormed(out)
    {
      out := Lossy(pending);
      FlushIsText(pending);
      pending := [];
    }
  }

  lemma ShiftOne(pending: seq<byte>, bytes: seq<byte>)
    requires bytes != []
    ensures pending + [bytes[0]] + bytes[1..] == pending + bytes
  {
    Regrouped(pending, [bytes[0]], bytes[1..]);
    assert [bytes[0]] + bytes[1..] == bytes;
  }

  // A held back character and one more byte are a character, still a truncated
  // one, or a broken one: nothing in between.
  lemma StillTruncated(s: seq<byte>)
    requires |s| >= 2 && IsHeld(s[..|s| - 1])
    requires FromUtf8(s).Invalid? && FromUtf8(s).errorLen == None
    ensures IsHeld(s)
  {
    TruncatedHead(s[..|s| - 1]);
    TruncatedHead(s);
  }

  // -- A whole stream -----------------------------------------------------------

  // The text a host hears when a shell's output arrives in `chunks`: one piece
  // per read, then what was still held back at the end.
  method DecodeStream(chunks: seq<seq<byte>>) returns (pieces: seq<seq<byte>>)
    ensures Flatten(pieces) == Lossy(Flatten(chunks))
    ensures forall i :: 0 <= i < |pieces| ==> WellFormed(pieces[i])
  {
    var chunker := new Utf8Chunker();
    pieces := [];
    for i := 0 to |chunks|
      invariant chunker.Valid() && fresh(chunker)
      invariant Decoded(Flatten(pieces), chunker.pending) == Decode(Flatten(chunks[..i]))
      invariant forall j :: 0 <= j < |pieces| ==> WellFormed(pieces[j])
    {
      DecodeConcat(Flatten(chunks[..i]), chunks[i]);
      FlattenSnoc(chunks[..i], chunks[i]);
      assert chunks[..i + 1] == chunks[..i] + [chunks[i]];
      var text := chunker.Push(chunks[i]);
      FlattenSnoc(pieces, text);
      pieces := pieces + [text];
    }
    assert chunks[..|chunks|] == chunks;
    DecodeThenFlush(Flatten(chunks));
    var last := chunker.Finish();
    FlattenSnoc(pieces, last);
    pieces := pieces + [last];
  }
}
