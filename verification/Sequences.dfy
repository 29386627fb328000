// Facts about sequences that several components share.
module Sequences {

  datatype Option<+T> = None | Some(value: T)

  lemma Regrouped<T>(a: seq<T>, b: seq<T>, c: seq<T>)
    ensures a + (b + c) == a + b + c
  {
  }

  // Cutting twice.
  lemma Slices<T>(s: seq<T>, n: nat, m: nat)
    requires n <= m <= |s|
    ensures s[..m][..n] == s[..n]
    ensures s[..m][n..] == s[n..][..m - n]
    ensures s[..n] + s[n..][..m - n] == s[..m]
    ensures s[n..][m - n..] == s[m..]
  {
  }

  function Flatten<T>(parts: seq<seq<T>>): seq<T> {
    if parts == [] then [] else parts[0] + Flatten(parts[1..])
  }

  lemma {:induction false} FlattenConcat<T>(left: seq<seq<T>>, right: seq<seq<T>>)
    ensures Flatten(left + right) == Flatten(left) + Flatten(right)
  {
    if left == [] {
      assert left + right == right;
    } else {
      assert (left + right)[1..] == left[1..] + right;
      FlattenConcat(left[1..], right);
    }
  }

  lemma FlattenOne<T>(part: seq<T>)
    ensures Flatten([part]) == part
  {
    assert part + [] == part;
  }

  // Adding one part at the end, the step every loop that collects parts takes.
  lemma FlattenSnoc<T>(parts: seq<seq<T>>, last: seq<T>)
    ensures Flatten(parts + [last]) == Flatten(parts) + last
  {
    FlattenConcat(parts, [last]);
    FlattenOne(last);
  }

  // -- Searching ------------------------------------------------------------------

  // Where `x` first is in `s`; `|s|` if it is not.
  function IndexOf<T(==)>(s: seq<T>, x: T): (at: nat)
    ensures at <= |s| && x !in s[..at] && (at < |s| ==> s[at] == x)
  {
    if s == [] || s[0] == x then 0
    else
      var at := 1 + IndexOf(s[1..], x);
      assert s[..at] == [s[0]] + s[1..][..at - 1];
      at
  }

  lemma {:induction false} IndexOfFirst<T>(before: seq<T>, x: T, after: seq<T>)
    requires x !in before
    ensures IndexOf(before + [x] + after, x) == |before|
  {
    if before != [] {
      assert (before + [x] + after)[1..] == before[1..] + [x] + after;
      IndexOfFirst(before[1..], x, after);
    }
  }

  lemma {:induction false} IndexOfNone<T>(s: seq<T>, x: T)
    requires x !in s
    ensures IndexOf(s, x) == |s|
  {
    if s != [] {
      IndexOfNone(s[1..], x);
    }
  }

  // `part` stands at `k` of `s`.
  predicate StandsAt<T(==)>(s: seq<T>, part: seq<T>, k: nat) {
    k + |part| <= |s| && forall i :: 0 <= i < |part| ==> s[k + i] == part[i]
  }

  lemma StandsAtIff<T>(s: seq<T>, part: seq<T>, k: nat)
    ensures StandsAt(s, part, k) <==> exists before, after :: s == before + part + after && |before| == k
  {
    if StandsAt(s, part, k) {
      assert s == s[..k] + part + s[k + |part|..];
    }
  }

  // Where `part` first stands in `s`.
  function Find<T(==)>(s: seq<T>, part: seq<T>): (at: Option<nat>)
    ensures at.Some? ==> StandsAt(s, part, at.value)
  {
    FindFrom(s, part, 0)
  }

  function FindFrom<T(==)>(s: seq<T>, part: seq<T>, from: nat): (at: Option<nat>)
    ensures at.Some? ==> StandsAt(s, part, at.value)
    decreases |s| - from
  {
    if from + |part| > |s| then None
    else if StandsAt(s, part, from) then Some(from)
    else FindFrom(s, part, from + 1)
  }

  // Wherever it stands, it was found no later.
  lemma FindsFirst<T>(s: seq<T>, part: seq<T>, k: nat)
    requires StandsAt(s, part, k)
    ensures Find(s, part).Some? && Find(s, part).value <= k
  {
    FindsFirstFrom(s, part, 0, k);
  }

  lemma {:induction false} FindsFirstFrom<T>(s: seq<T>, part: seq<T>, from: nat, k: nat)
    requires from <= k && StandsAt(s, part, k)
    ensures FindFrom(s, part, from).Some? && FindFrom(s, part, from).value <= k
    decreases |s| - from
  {
    if !StandsAt(s, part, from) {
      FindsFirstFrom(s, part, from + 1, k);
    }
  }

  predicate EndsWith<T(==)>(s: seq<T>, last: seq<T>) {
    |last| <= |s| && StandsAt(s, last, |s| - |last|)
  }

  lemma EndsWithMore<T>(s: seq<T>, n: nat, last: seq<T>)
    requires n <= |s| && EndsWith(s[n..], last)
    ensures EndsWith(s, last)
  {
    forall i | 0 <= i < |last|
      ensures s[|s| - |last| + i] == last[i]
    {
      assert s[n..][|s| - n - |last| + i] == last[i];
    }
  }

  lemma EndsWithIff<T>(s: seq<T>, last: seq<T>)
    ensures EndsWith(s, last) <==> exists before :: s == before + last
  {
    if EndsWith(s, last) {
      assert s == s[..|s| - |last|] + last;
    }
  }
}
