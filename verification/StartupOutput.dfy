// The pty's first output: the inherited-cursor query is answered and taken out
// of the stream, wherever the reads cut it.
module StartupOutputs {
  import opened Bytes
  import opened Sequences
  import opened Text

  const QUERY: seq<byte> := [0x1B, 0x5B, 0x36, 0x6E]
  const ORIGIN: seq<byte> := [0x1B, 0x5B, 0x31, 0x3B, 0x31, 0x52]

  const ESC: byte := 0x1B

  // The query for the cursor's position and the answer that it is at the origin.
  lemma SequencesAreSpelled()
    ensures QUERY == [ESC] + Ascii("[6n") && ORIGIN == [ESC] + Ascii("[1;1R")
  {
  }

  // -- What the host should hear ------------------------------------------------------

  // `size` elements removed at a place, if there is one.
  function TakeOut<T>(stream: seq<T>, place: Option<nat>, size: nat): seq<T>
    requires place.Some? ==> place.value + size <= |stream|
  {
    match place
    case Some(at) => stream[..at] + stream[at + size..]
    case None => stream
  }

  // The stream with the first `query` removed; unchanged if there is none.
  function WithoutFirst<T(==)>(query: seq<T>, stream: seq<T>): seq<T> {
    TakeOut(stream, Find(stream, query), |query|)
  }

  // What is removed is the first query there is, and nothing else.
  lemma WithoutFirstMeans<T>(query: seq<T>, stream: seq<T>)
    ensures || (&& WithoutFirst(query, stream) == stream
                && forall before, after :: stream != before + query + after)
            || (exists before, after ::
                  && stream == before + query + after && WithoutFirst(query, stream) == before + after
                  && forall earlier, later :: stream == earlier + query + later ==> |before| <= |earlier|)
  {
    var place := Find(stream, query);
    forall earlier: seq<T>, later: seq<T> | stream == earlier + query + later
      ensures place.Some? && place.value <= |earlier|
    {
      StandsAtIff(stream, query, |earlier|);
      FindsFirst(stream, query, |earlier|);
    }
    if place.Some? {
      var before, after := stream[..place.value], stream[place.value + |query|..];
      assert stream == before + query + after;
    }
  }

  function WithoutQuery(stream: seq<byte>): seq<byte> {
    WithoutFirst(QUERY, stream)
  }

  function AnswerTo<T(==)>(query: seq<T>, answer: seq<T>, stream: seq<T>): seq<T> {
    if Find(stream, query).Some? then answer else []
  }

  function Answer(stream: seq<byte>): seq<byte> {
    AnswerTo(QUERY, ORIGIN, stream)
  }

  // How much of the end of `s` may be the start of a query: the longest suffix
  // that is a proper prefix of it.
  ghost predicate IsRetained<T>(query: seq<T>, s: seq<T>, size: nat) {
    && size < |query| && EndsWith(s, query[..size])
    && forall longer :: size < longer < |query| ==> !EndsWith(s, query[..longer])
  }

  // The longest of the prefixes up to `most` that `s` ends with.
  function LongestEnd<T(==)>(query: seq<T>, s: seq<T>, most: nat): (size: nat)
    requires most < |query|
    ensures size <= most && EndsWith(s, query[..size])
    ensures forall longer :: size < longer <= most ==> !EndsWith(s, query[..longer])
  {
    if EndsWith(s, query[..most]) then most else LongestEnd(query, s, most - 1)
  }

  function Retained<T(==)>(query: seq<T>, s: seq<T>): (size: nat)
    requires query != []
    ensures IsRetained(query, s, size) && size <= |s|
  {
    LongestEnd(query, s, |query| - 1)
  }

  // -- Looking only at what is held back loses nothing ----------------------------------

  // `held` ends the stream, and nothing longer that ends it starts a query.
  ghost predicate HoldsEnough<T>(query: seq<T>, stream: seq<T>, held: nat) {
    && held <= |stream|
    && forall longer :: held < longer < |query| ==> !EndsWith(stream, query[..longer])
  }

  lemma StandsEarly<T>(query: seq<T>, stream: seq<T>, bytes: seq<T>, k: nat)
    requires k + |query| <= |stream|
    ensures StandsAt(stream + bytes, query, k) <==> StandsAt(stream, query, k)
  {
  }

  // A query that was not in the stream before starts in what was held back.
  lemma QueryStartsInHeld<T>(query: seq<T>, stream: seq<T>, held: nat, bytes: seq<T>, k: nat)
    requires HoldsEnough(query, stream, held)
    requires Find(stream, query).None? && StandsAt(stream + bytes, query, k)
    ensures k >= |stream| - held
  {
    if k + |query| <= |stream| {
      StandsEarly(query, stream, bytes, k);
      FindsFirst(stream, query, k);
    } else if k < |stream| {
      assert EndsWith(stream, query[..|stream| - k]);
    }
  }

  lemma StandsInHeld<T>(query: seq<T>, whole: seq<T>, cut: nat, k: nat)
    requires cut <= |whole|
    ensures StandsAt(whole[cut..], query, k) <==> StandsAt(whole, query, cut + k)
  {
  }

  // Searching what is held back and the new bytes is searching the stream.
  lemma FindInHeld<T>(query: seq<T>, heard: seq<T>, held: seq<T>, bytes: seq<T>)
    requires HoldsEnough(query, heard + held, |held|) && Find(heard + held, query).None?
    ensures Find(heard + (held + bytes), query) ==
            match Find(held + bytes, query)
            case Some(at) => Some(|heard| + at)
            case None => None
  {
    var all := held + bytes;
    var whole := heard + all;
    Regrouped(heard, held, bytes);
    assert whole[|heard|..] == all;
    var found, inHeld := Find(whole, query), Find(all, query);
    if found.Some? {
      QueryStartsInHeld(query, heard + held, |held|, bytes, found.value);
      StandsInHeld(query, whole, |heard|, found.value - |heard|);
      FindsFirst(all, query, found.value - |heard|);
    }
    if inHeld.Some? {
      StandsInHeld(query, whole, |heard|, inHeld.value);
      FindsFirst(whole, query, |heard| + inHeld.value);
    }
  }

  lemma EndsBefore<T>(query: seq<T>, s: seq<T>, b: seq<T>, size: nat)
    requires |b| < size <= |query|
    ensures EndsWith(s + b, query[..size]) ==> EndsWith(s, query[..size - |b|])
  {
    var whole, more := s + b, size - |b|;
    if EndsWith(whole, query[..size]) {
      forall i | 0 <= i < more
        ensures s[|s| - more + i] == query[..more][i]
      {
        assert whole[|whole| - size + i] == query[..size][i];
      }
    }
  }

  // What the end of `s` and `b` is does not depend on more of `s` than what is
  // held back of it.
  lemma EndsWithInHeld<T>(query: seq<T>, s: seq<T>, held: nat, b: seq<T>, size: nat)
    requires HoldsEnough(query, s, held) && size < |query|
    ensures EndsWith(s[|s| - held..] + b, query[..size]) <==> EndsWith(s + b, query[..size])
  {
    var whole, end := s + b, s[|s| - held..] + b;
    assert end == whole[|s| - held..];
    if size <= |end| {
      StandsInHeld(query[..size], whole, |s| - held, |end| - size);
    } else {
      EndsBefore(query, s, b, size);
    }
  }

  lemma {:induction false} LongestEndInHeld<T>(query: seq<T>, s: seq<T>, held: nat, b: seq<T>, most: nat)
    requires HoldsEnough(query, s, held) && most < |query|
    ensures LongestEnd(query, s[|s| - held..] + b, most) == LongestEnd(query, s + b, most)
  {
    EndsWithInHeld(query, s, held, b, most);
    if !EndsWith(s + b, query[..most]) {
      LongestEndInHeld(query, s, held, b, most - 1);
    }
  }

  // What may start a query at the end of the stream is at the end of what is
  // held back.
  lemma RetainedInHeld<T>(query: seq<T>, heard: seq<T>, held: seq<T>, bytes: seq<T>)
    requires query != [] && HoldsEnough(query, heard + held, |held|)
    ensures Retained(query, held + bytes) == Retained(query, heard + (held + bytes))
  {
    var stream := heard + held;
    assert stream[|stream| - |held|..] == held;
    Regrouped(heard, held, bytes);
    LongestEndInHeld(query, stream, |held|, bytes, |query| - 1);
  }

  // Taking out of what is held back is taking out of the stream.
  lemma TakenOutOfHeld<T>(heard: seq<T>, all: seq<T>, at: nat, size: nat)
    requires at + size <= |all|
    ensures heard + TakeOut(all, Some(at), size) == TakeOut(heard + all, Some(|heard| + at), size)
  {
    assert heard + all[..at] == (heard + all)[..|heard| + at];
    assert all[at + size..] == (heard + all)[|heard| + at + size..];
    Regrouped(heard, all[..at], all[at + size..]);
  }

  // What is looked for, and what is written when it comes.
  datatype Exchange = Exchange(query: seq<byte>, answer: seq<byte>)

  // The stream so far was `stream`, `heard` of it was put out and `pending` is
  // held back: while no query came, only what may start one.
  ghost predicate IsTracked(
    x: Exchange, stream: seq<byte>, heard: seq<byte>, written: seq<byte>, pending: seq<byte>, waiting: bool)
  {
    && x.query != []
    && waiting == Find(stream, x.query).None?
    && written == AnswerTo(x.query, x.answer, stream)
    && heard + pending == WithoutFirst(x.query, stream)
    && |pending| == if waiting then Retained(x.query, stream) else 0
  }

  // A query in what is held back is the stream's first.
  lemma FoundInHeld<T>(
    query: seq<T>, stream: seq<T>, heard: seq<T>, pending: seq<T>, bytes: seq<T>, at: nat)
    requires HoldsEnough(query, stream, |pending|) && Find(stream, query).None? && heard + pending == stream
    requires Find(pending + bytes, query) == Some(at)
    ensures Find(stream + bytes, query).Some?
    ensures heard + (pending + bytes) == stream + bytes
    ensures var all := pending + bytes;
            heard + TakeOut(all, Some(at), |query|) == WithoutFirst(query, stream + bytes)
  {
    var all := pending + bytes;
    FindInHeld(query, heard, pending, bytes);
    Regrouped(heard, pending, bytes);
    TakenOutOfHeld(heard, all, at, |query|);
  }

  // None in it is none in the stream.
  lemma NotInHeld<T>(query: seq<T>, stream: seq<T>, heard: seq<T>, pending: seq<T>, bytes: seq<T>)
    requires query != []
    requires HoldsEnough(query, stream, |pending|) && Find(stream, query).None? && heard + pending == stream
    requires Find(pending + bytes, query).None?
    ensures Find(stream + bytes, query).None?
    ensures var all := pending + bytes;
            var ready := |all| - Retained(query, all);
            && Retained(query, all) == Retained(query, stream + bytes)
            && heard + all[..ready] + all[ready..] == stream + bytes
  {
    var all := pending + bytes;
    var ready := |all| - Retained(query, all);
    FindInHeld(query, heard, pending, bytes);
    RetainedInHeld(query, heard, pending, bytes);
    Regrouped(heard, pending, bytes);
    Regrouped(heard, all[..ready], all[ready..]);
    assert all[..ready] + all[ready..] == all;
  }

  lemma QueryCame(x: Exchange, stream: seq<byte>, heard: seq<byte>, pending: seq<byte>, bytes: seq<byte>, at: nat)
    requires IsTracked(x, stream, heard, [], pending, true) && Find(pending + bytes, x.query) == Some(at)
    ensures Find(stream + bytes, x.query).Some?
    ensures var all := pending + bytes;
            IsTracked(x, stream + bytes, heard + TakeOut(all, Some(at), |x.query|), x.answer, [], false)
    ensures heard + (pending + bytes) == stream + bytes
  {
    FoundInHeld(x.query, stream, heard, pending, bytes, at);
    var all := pending + bytes;
    var put := heard + TakeOut(all, Some(at), |x.query|);
    assert put + [] == put;
  }

  lemma NoQueryYet(x: Exchange, stream: seq<byte>, heard: seq<byte>, pending: seq<byte>, bytes: seq<byte>)
    requires IsTracked(x, stream, heard, [], pending, true) && Find(pending + bytes, x.query).None?
    ensures Find(stream + bytes, x.query).None?
    ensures var all := pending + bytes;
            var ready := |all| - Retained(x.query, all);
            IsTracked(x, stream + bytes, heard + all[..ready], [], all[ready..], true)
  {
    NotInHeld(x.query, stream, heard, pending, bytes);
  }

  lemma FoundStays<T>(query: seq<T>, stream: seq<T>, bytes: seq<T>)
    requires Find(stream, query).Some?
    ensures Find(stream + bytes, query) == Find(stream, query)
  {
    var at := Find(stream, query).value;
    StandsEarly(query, stream, bytes, at);
    FindsFirst(stream + bytes, query, at);
    var first := Find(stream + bytes, query).value;
    StandsEarly(query, stream, bytes, first);
    FindsFirst(stream, query, first);
  }

  lemma TakenOutEarly<T>(stream: seq<T>, bytes: seq<T>, at: nat, size: nat)
    requires at + size <= |stream|
    ensures TakeOut(stream, Some(at), size) + bytes == TakeOut(stream + bytes, Some(at), size)
  {
    assert (stream + bytes)[..at] == stream[..at];
    assert (stream + bytes)[at + size..] == stream[at + size..] + bytes;
    Regrouped(stream[..at], stream[at + size..], bytes);
  }

  // Once the query was found, later bytes change nothing before them.
  lemma AlreadyCame(
    x: Exchange, stream: seq<byte>, heard: seq<byte>, written: seq<byte>, pending: seq<byte>, bytes: seq<byte>)
    requires IsTracked(x, stream, heard, written, pending, false)
    ensures pending == [] && IsTracked(x, stream + bytes, heard + bytes, written, pending, false)
  {
    FoundStays(x.query, stream, bytes);
    TakenOutEarly(stream, bytes, Find(stream, x.query).value, |x.query|);
    assert heard + pending == heard;
    assert heard + bytes + pending == heard + bytes;
  }

  // -- The filter ---------------------------------------------------------------------

  // How writing the answer goes; a failed write may have written a part.
  datatype Writing = Succeeds | WriteFails(part: nat) | FlushFails

  datatype Result = Ok | WriteError

  // What of the answer was written.
  function Attempted(answer: seq<byte>, writing: Writing): seq<byte> {
    match writing
    case WriteFails(part) => answer[..if part < |answer| then part else |answer|]
    case _ => answer
  }

  class StartupOutput {
    const x: Exchange
    var written: seq<byte>
    var pending: seq<byte>
    var waiting: bool

    constructor ()
      ensures x == Exchange(QUERY, ORIGIN) && Tracks([], []) && waiting
    {
      x := Exchange(QUERY, ORIGIN);
      written, pending, waiting := [], [], true;
    }

    ghost predicate Tracks(stream: seq<byte>, heard: seq<byte>)
      reads this
    {
      IsTracked(x, stream, heard, written, pending, waiting)
    }

    // The next bytes of the stream. A failed answer keeps everything waiting.
    method Accept(bytes: seq<byte>, writing: Writing, ghost stream: seq<byte>, ghost heard: seq<byte>)
      returns (result: Result, output: seq<seq<byte>>)
      requires Tracks(stream, heard)
      modifies this
      ensures result.Ok? ==> Tracks(stream + bytes, heard + Flatten(output))
      ensures result.Ok? <==> !(old(waiting) && Find(stream + bytes, x.query).Some? && writing != Succeeds)
      ensures result.WriteError? ==>
                && waiting && output == [] && heard + pending == stream + bytes
                && Find(stream, x.query).None? && written == Attempted(x.answer, writing)
    {
      output := [];
      if !waiting {
        output := [bytes];
        AlreadyCame(x, stream, heard, written, pending, bytes);
        FlattenOne(bytes);
        return Ok, output;
      }
      ghost var held := pending;
      pending := pending + bytes;
      var found := Find(pending, x.query);
      if found.Some? {
        QueryCame(x, stream, heard, held, bytes, found.value);
        result, output := AnswerAt(found.value, writing);
        assert [] + x.answer == x.answer;
        assert [] + Attempted(x.answer, writing) == Attempted(x.answer, writing);
      } else {
        NoQueryYet(x, stream, heard, held, bytes);
        result := Ok;
        output := Release();
      }
    }

    // The query at `position` answered and taken out; the rest passed on.
    method AnswerAt(position: nat, writing: Writing) returns (result: Result, output: seq<seq<byte>>)
      requires position + |x.query| <= |pending|
      modifies this
      ensures result.Ok? <==> writing.Succeeds?
      ensures result.Ok? ==>
                && !waiting && pending == [] && written == old(written) + x.answer
                && Flatten(output) == TakeOut(old(pending), Some(position), |x.query|)
      ensures result.WriteError? ==>
                && waiting == old(waiting) && pending == old(pending) && output == []
                && written == old(written) + Attempted(x.answer, writing)
    {
      match writing
      case WriteFails(part) =>
        written := written + x.answer[..if part < |x.answer| then part else |x.answer|];
        return WriteError, [];
      case FlushFails =>
        written := written + x.answer;
        return WriteError, [];
      case Succeeds =>
        written := written + x.answer;
        waiting := false;
        var rest := pending[position + |x.query|..];
        pending := pending[..position];
        output := Finish();
        if rest != [] {
          FlattenSnoc(output, rest);
          output := output + [rest];
        }
        return Ok, output;
    }

    // What can't be the start of a query passed on, the rest held back.
    method Release() returns (output: seq<seq<byte>>)
      requires x.query != []
      modifies this
      ensures waiting == old(waiting) && written == old(written)
      ensures Flatten(output) == old(pending)[..|old(pending)| - Retained(x.query, old(pending))]
      ensures pending == old(pending)[|old(pending)| - Retained(x.query, old(pending))..]
    {
      var ready := |pending| - Retained(x.query, pending);
      output := [];
      if ready > 0 {
        output := [pending[..ready]];
        pending := pending[ready..];
      }
    }

    // The stream ended: what was held back is not a query.
    method Finish() returns (output: seq<seq<byte>>)
      modifies this
      ensures pending == [] && Flatten(output) == old(pending)
      ensures waiting == old(waiting) && written == old(written)
    {
      output := [];
      if pending != [] {
        output := [pending];
        pending := [];
      }
    }
  }

  // -- A whole stream -----------------------------------------------------------------

  // The read that brings the last byte of the first query.
  ghost predicate BringsQuery(chunks: seq<seq<byte>>, n: nat) {
    && n <= |chunks| && Find(Flatten(chunks[..n]), QUERY).Some?
    && forall m :: 0 <= m < n ==> Find(Flatten(chunks[..m]), QUERY).None?
  }

  // Reads until the stream ends or an answer can't be written, then flushes. If
  // it can't, the host hears everything read, the last read being the one that
  // brought the query.
  method ReadAll(chunks: seq<seq<byte>>, writing: Writing)
    returns (heard: seq<byte>, written: seq<byte>, ghost read: nat)
    ensures writing.Succeeds? || Find(Flatten(chunks), QUERY).None? ==>
              && read == |chunks|
              && heard == WithoutQuery(Flatten(chunks))
              && written == Answer(Flatten(chunks))
    ensures !writing.Succeeds? && Find(Flatten(chunks), QUERY).Some? ==>
              && BringsQuery(chunks, read)
              && heard == Flatten(chunks[..read])
              && written == Attempted(ORIGIN, writing)
  {
    var startup := new StartupOutput();
    heard, read := [], 0;
    assert chunks[..0] == [];
    for i := 0 to |chunks|
      invariant fresh(startup) && read == i && startup.x == Exchange(QUERY, ORIGIN)
      invariant startup.Tracks(Flatten(chunks[..i]), heard)
      invariant !writing.Succeeds? ==> Find(Flatten(chunks[..i]), QUERY).None?
    {
      assert chunks[..i + 1] == chunks[..i] + [chunks[i]];
      FlattenSnoc(chunks[..i], chunks[i]);
      var result, output := startup.Accept(chunks[i], writing, Flatten(chunks[..i]), heard);
      read := i + 1;
      if result.WriteError? {
        QueryStays(chunks, i + 1);
        NoneBefore(chunks, i);
        var last := startup.Finish();
        heard := heard + Flatten(last);
        return heard, startup.written, read;
      }
      heard := heard + Flatten(output);
    }
    assert chunks[..|chunks|] == chunks;
    var last := startup.Finish();
    heard := heard + Flatten(last);
    written := startup.written;
  }

  lemma QueryStays(chunks: seq<seq<byte>>, n: nat)
    requires n <= |chunks| && Find(Flatten(chunks[..n]), QUERY).Some?
    ensures Find(Flatten(chunks), QUERY).Some?
  {
    FlattenConcat(chunks[..n], chunks[n..]);
    assert chunks[..n] + chunks[n..] == chunks;
    FoundStays(QUERY, Flatten(chunks[..n]), Flatten(chunks[n..]));
  }

  lemma NoneBefore(chunks: seq<seq<byte>>, n: nat)
    requires n <= |chunks| && Find(Flatten(chunks[..n]), QUERY).None?
    ensures forall m :: 0 <= m <= n ==> Find(Flatten(chunks[..m]), QUERY).None?
  {
    forall m | 0 <= m <= n
      ensures Find(Flatten(chunks[..m]), QUERY).None?
    {
      if Find(Flatten(chunks[..m]), QUERY).Some? {
        assert chunks[..n][..m] == chunks[..m];
        QueryStays(chunks[..n], m);
      }
    }
  }
}
