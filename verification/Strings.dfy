// The string operations several parsers share, as Rust's `str` has them.
module Strings {
  import opened Decimals
  import opened Sequences

  // `split` on one character: the parts between the separators, one more than
  // there are separators.
  function Split(s: string, separator: char): (parts: seq<string>)
    ensures |parts| >= 1
  {
    if s == [] then [[]]
    else
      var rest := Split(s[1..], separator);
      if s[0] == separator then [[]] + rest
      else [[s[0]] + rest[0]] + rest[1..]
  }

  // `splitn`: at most `n` parts, the last one whatever is left.
  function SplitN(s: string, separator: char, n: nat): (parts: seq<string>)
    requires n >= 1
    ensures 1 <= |parts| <= n
  {
    var at := IndexOf(s, separator);
    if n == 1 || at == |s| then [s]
    else [s[..at]] + SplitN(s[at + 1..], separator, n - 1)
  }

  lemma {:induction false} SplitHasNoSeparator(s: string, separator: char)
    ensures forall i :: 0 <= i < |Split(s, separator)| ==> separator !in Split(s, separator)[i]
  {
    if s != [] {
      SplitHasNoSeparator(s[1..], separator);
    }
  }

  // The first part ends at the first separator.
  lemma {:induction false} SplitFirst(part: string, separator: char, rest: string)
    requires separator !in part
    ensures Split(part + [separator] + rest, separator) == [part] + Split(rest, separator)
  {
    if part == [] {
      assert part + [separator] + rest == [separator] + rest;
      assert ([separator] + rest)[1..] == rest;
    } else {
      assert (part + [separator] + rest)[1..] == part[1..] + [separator] + rest;
      SplitFirst(part[1..], separator, rest);
      assert [part[0]] + part[1..] == part;
    }
  }

  lemma {:induction false} SplitNone(s: string, separator: char)
    requires separator !in s
    ensures Split(s, separator) == [s]
  {
    if s != [] {
      SplitNone(s[1..], separator);
      assert [s[0]] + s[1..] == s;
    }
  }

  // The same where the number of parts is bounded.
  lemma SplitNFirst(part: string, separator: char, rest: string, n: nat)
    requires separator !in part && n >= 1
    ensures SplitN(part + [separator] + rest, separator, n + 1) == [part] + SplitN(rest, separator, n)
  {
    var s := part + [separator] + rest;
    IndexOfFirst(part, separator, rest);
    assert s[..|part|] == part && s[|part| + 1..] == rest;
  }

  // -- Numbers ----------------------------------------------------------------

  function Codes(s: string): (codes: seq<int>)
    ensures |codes| == |s| && forall i :: 0 <= i < |s| ==> codes[i] == s[i] as int
  {
    seq(|s|, i requires 0 <= i < |s| => s[i] as int)
  }

  // A number as its decimal digits, and back.
  function Decimal(n: nat): (s: string)
    ensures s != [] && Codes(s) == DecimalCodes(n)
  {
    seq(|DecimalCodes(n)|, i requires 0 <= i < |DecimalCodes(n)| => DecimalCodes(n)[i] as char)
  }

  function ParseUnsigned(s: string, max: nat): (n: Option<nat>)
    ensures n.Some? ==> n.value <= max
  {
    ParseCodes(Codes(s), max)
  }

  lemma ParseDecimal(n: nat, max: nat)
    requires n <= max
    ensures ParseUnsigned(Decimal(n), max) == Some(n)
  {
    CodesReadBack(n, max);
  }

  lemma DecimalHasNo(n: nat, c: char)
    requires !IsDigitCode(c as int)
    ensures c !in Decimal(n)
  {
    var s := Decimal(n);
    forall i | 0 <= i < |s|
      ensures s[i] != c
    {
      assert IsDigitCode(Codes(s)[i]);
    }
  }

  lemma DecimalInjective(i: nat, j: nat)
    requires Decimal(i) == Decimal(j)
    ensures i == j
  {
    CodesInjective(i, j);
  }
}
