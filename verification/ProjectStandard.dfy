// Which standard a folder follows, told by marker paths in which `*` may stand for
// a part of a name.
module ProjectStandards {
  import opened Sequences
  import opened Strings

  const ANY := '*'
  const SEPARATOR := '/'

  // -- What a pattern means ---------------------------------------------------------

  // `path` can be had from `pattern` by replacing each `*` with some run of
  // characters free of `/`.
  ghost predicate Fits(pattern: string, path: string)
    decreases |pattern|
  {
    if pattern == [] then path == []
    else if pattern[0] == '*' then
      exists run: nat ::
        && run <= |path| && '/' !in path[..run]
        && Fits(pattern[1..], path[run..])
    else path != [] && path[0] == pattern[0] && Fits(pattern[1..], path[1..])
  }

  // -- The matcher ------------------------------------------------------------------

  // The greedy search: each part after the first `*` at its first place in what
  // is left, the last one at the very end.
  predicate TailMatches(middle: seq<string>, last: string, rest: string) {
    if middle == [] then EndsWith(rest, last)
    else
      var at := Find(rest, middle[0]);
      at.Some? && TailMatches(middle[1..], last, rest[at.value + |middle[0]|..])
  }

  lemma TailStep(middle: seq<string>, i: nat, last: string, rest: string)
    requires i < |middle|
    ensures var at := Find(rest, middle[i]);
            TailMatches(middle[i..], last, rest) ==
            (at.Some? && TailMatches(middle[i + 1..], last, rest[at.value + |middle[i]|..]))
  {
    assert middle[i..][0] == middle[i] && middle[i..][1..] == middle[i + 1..];
  }

  predicate NameFits(pattern: string, name: string) {
    var parts := Split(pattern, ANY);
    && parts[0] <= name
    && var rest := name[|parts[0]|..];
       if |parts| == 1 then rest == []
       else TailMatches(parts[1..|parts| - 1], parts[|parts| - 1], rest)
  }

  // The matcher for one name: what is before the first `*`, then the rest in turn.
  method NameMatches(pattern: string, name: string) returns (fits: bool)
    ensures fits == NameFits(pattern, name)
  {
    var parts := Split(pattern, ANY);
    var first := parts[0];
    if !(first <= name) {
      return false;
    }
    var rest := name[|first|..];
    if |parts| == 1 {
      return rest == [];
    }
    var last, middle := parts[|parts| - 1], parts[1..|parts| - 1];
    fits := FindInTurn(middle, last, rest);
  }

  // Every middle part found after the one before it, and the last at the end.
  method FindInTurn(middle: seq<string>, last: string, name: string) returns (fits: bool)
    ensures fits == TailMatches(middle, last, name)
  {
    var rest := name;
    for i := 0 to |middle|
      invariant TailMatches(middle[i..], last, rest) == TailMatches(middle, last, name)
    {
      TailStep(middle, i, last, rest);
      var at := Find(rest, middle[i]);
      if at.None? {
        return false;
      }
      rest := rest[at.value + |middle[i]|..];
    }
    return EndsWith(rest, last);
  }

  // Whether `path` fits `pattern`, name by name.
  predicate Matches(pattern: string, path: string) {
    var patterns, names := Split(pattern, SEPARATOR), Split(path, SEPARATOR);
    |patterns| == |names| && forall i :: 0 <= i < |patterns| ==> NameFits(patterns[i], names[i])
  }

  // -- Greed is sound and complete ------------------------------------------------------

  // The meaning of a pattern cut at its `*`s, for a name.
  ghost predicate PartsFit(parts: seq<string>, name: string)
    requires parts != []
    decreases |parts|, 0
  {
    && parts[0] <= name
    && var rest := name[|parts[0]|..];
       if |parts| == 1 then rest == [] else FitsSomewhere(parts[1..], rest)
  }

  // The rest fits `parts` once some run of it is given to the `*` before them.
  ghost predicate FitsSomewhere(parts: seq<string>, rest: string)
    requires parts != []
    decreases |parts|, 1
  {
    exists run: nat :: run <= |rest| && PartsFit(parts, rest[run..])
  }

  lemma {:induction false} FitsByParts(pattern: string, name: string)
    requires SEPARATOR !in name
    ensures Fits(pattern, name) <==> PartsFit(Split(pattern, ANY), name)
  {
    if pattern != [] {
      var parts := Split(pattern[1..], ANY);
      if pattern[0] == ANY {
        assert Split(pattern, ANY)[1..] == parts;
        assert name[0..] == name;
        forall run: nat | run <= |name|
          ensures Fits(pattern[1..], name[run..]) <==> PartsFit(parts, name[run..])
        {
          FitsByParts(pattern[1..], name[run..]);
        }
      } else {
        var all := Split(pattern, ANY);
        assert all[0] == [pattern[0]] + parts[0] && all[1..] == parts[1..];
        if name != [] {
          FitsByParts(pattern[1..], name[1..]);
          if name[0] == pattern[0] {
            PrefixTail(all[0], name);
          }
        }
      }
    }
  }

  lemma PrefixTail(part: string, name: string)
    requires part != [] && name != [] && part[0] == name[0]
    ensures part <= name <==> part[1..] <= name[1..]
    ensures part <= name ==> name[|part|..] == name[1..][|part[1..]|..]
  {
    if part[1..] <= name[1..] {
      assert forall k :: 1 <= k < |part| ==> part[k] == part[1..][k - 1] && name[k] == name[1..][k - 1];
    }
  }

  // Taking the first place of a part loses nothing: any later place leaves a
  // rest that the `*` after the part can skip to.
  lemma {:induction false} GreedIsComplete(middle: seq<string>, last: string, rest: string)
    ensures TailMatches(middle, last, rest) <==> FitsSomewhere(middle + [last], rest)
    decreases |middle|
  {
    var parts := middle + [last];
    if middle == [] {
      if EndsWith(rest, last) {
        assert PartsFit(parts, rest[|rest| - |last|..]);
      }
      if run: nat :| run <= |rest| && PartsFit(parts, rest[run..]) {
        assert rest[run..] == last;
      }
    } else {
      var part := middle[0];
      assert parts[1..] == middle[1..] + [last];
      var at := Find(rest, part);
      if at.Some? {
        GreedIsComplete(middle[1..], last, rest[at.value + |part|..]);
      }
      if TailMatches(middle, last, rest) {
        PlaceGivesRun(parts, rest, at.value);
      }
      if run: nat :| run <= |rest| && PartsFit(parts, rest[run..]) {
        RunMovesLeft(parts, rest, run, at);
      }
    }
  }

  lemma PlaceGivesRun(parts: seq<string>, rest: string, at: nat)
    requires |parts| >= 2 && StandsAt(rest, parts[0], at)
    requires FitsSomewhere(parts[1..], rest[at + |parts[0]|..])
    ensures FitsSomewhere(parts, rest)
  {
    assert rest[at..][|parts[0]|..] == rest[at + |parts[0]|..];
    assert rest[at..][..|parts[0]|] == rest[at..at + |parts[0]|];
    assert PartsFit(parts, rest[at..]);
  }

  // A part at the start of what a run leaves stands where the run ends.
  lemma StandsAfterRun(part: string, rest: string, run: nat)
    requires run <= |rest| && part <= rest[run..]
    ensures StandsAt(rest, part, run)
    ensures rest[run..][|part|..] == rest[run + |part|..]
  {
    assert rest[run..][..|part|] == rest[run..run + |part|];
  }

  lemma FitsFurtherLeft(parts: seq<string>, rest: string, from: nat, left: nat)
    requires parts != [] && left <= from <= |rest| && FitsSomewhere(parts, rest[from..])
    ensures FitsSomewhere(parts, rest[left..])
  {
    var skip: nat :| skip <= |rest[from..]| && PartsFit(parts, rest[from..][skip..]);
    assert rest[left..][from - left + skip..] == rest[from..][skip..];
  }

  lemma RunMovesLeft(parts: seq<string>, rest: string, run: nat, at: Option<nat>)
    requires |parts| >= 2 && run <= |rest| && PartsFit(parts, rest[run..])
    requires at == Find(rest, parts[0])
    ensures at.Some? && FitsSomewhere(parts[1..], rest[at.value + |parts[0]|..])
  {
    StandsAfterRun(parts[0], rest, run);
    FindsFirst(rest, parts[0], run);
    FitsFurtherLeft(parts[1..], rest, run + |parts[0]|, at.value + |parts[0]|);
  }

  // Within one name, the greedy matcher decides exactly what the pattern means.
  lemma NameFitsMeans(pattern: string, name: string)
    requires SEPARATOR !in name
    ensures NameFits(pattern, name) <==> Fits(pattern, name)
  {
    FitsByParts(pattern, name);
    var parts := Split(pattern, ANY);
    if parts[0] <= name && |parts| > 1 {
      assert parts[1..|parts| - 1] + [parts[|parts| - 1]] == parts[1..];
      GreedIsComplete(parts[1..|parts| - 1], parts[|parts| - 1], name[|parts[0]|..]);
    }
  }

  // -- Names and paths --------------------------------------------------------------------

  ghost predicate AllFit(patterns: seq<string>, names: seq<string>) {
    |patterns| == |names| && forall i :: 0 <= i < |patterns| ==> Fits(patterns[i], names[i])
  }

  // The first name of a path ends at the path's first separator.
  lemma {:induction false} SplitSkip(path: string, run: nat)
    requires run <= |path|
    ensures SEPARATOR !in path[..run] <==> run <= |Split(path, SEPARATOR)[0]|
    ensures SEPARATOR !in path[..run] ==>
              var names, rest := Split(path, SEPARATOR), Split(path[run..], SEPARATOR);
              names[0][run..] == rest[0] && names[1..] == rest[1..]
  {
    if run > 0 {
      SplitSkip(path[1..], run - 1);
      assert path[..run] == [path[0]] + path[1..][..run - 1];
      assert path[1..][run - 1..] == path[run..];
    } else {
      assert path[..0] == [] && path[0..] == path;
    }
  }

  lemma AllFitParts(patterns: seq<string>, names: seq<string>)
    requires patterns != [] && names != []
    ensures AllFit(patterns, names) <==>
            Fits(patterns[0], names[0]) && AllFit(patterns[1..], names[1..])
  {
    if Fits(patterns[0], names[0]) && AllFit(patterns[1..], names[1..]) {
      forall i | 1 <= i < |patterns|
        ensures Fits(patterns[i], names[i])
      {
        assert Fits(patterns[1..][i - 1], names[1..][i - 1]);
      }
    }
  }

  // Cutting pattern and path at the separators keeps the meaning: no `*` spans one.
  lemma {:induction false} FitsByNames(pattern: string, path: string)
    ensures Fits(pattern, path) <==> AllFit(Split(pattern, SEPARATOR), Split(path, SEPARATOR))
    decreases |pattern|
  {
    var patterns, names := Split(pattern, SEPARATOR), Split(path, SEPARATOR);
    AllFitParts(patterns, names);
    if pattern == [] {
    } else if pattern[0] == SEPARATOR {
      assert patterns[1..] == Split(pattern[1..], SEPARATOR);
      if path != [] {
        FitsByNames(pattern[1..], path[1..]);
        assert path[0] == SEPARATOR ==> names[1..] == Split(path[1..], SEPARATOR);
      }
    } else if pattern[0] == ANY {
      FitsByNamesAny(pattern, path);
    } else {
      var rest := Split(pattern[1..], SEPARATOR);
      assert patterns[0] == [pattern[0]] + rest[0] && patterns[1..] == rest[1..];
      if path != [] {
        FitsByNames(pattern[1..], path[1..]);
        AllFitParts(rest, Split(path[1..], SEPARATOR));
      }
    }
  }

  lemma {:induction false} FitsByNamesAny(pattern: string, path: string)
    requires pattern != [] && pattern[0] == ANY
    ensures Fits(pattern, path) <==> AllFit(Split(pattern, SEPARATOR), Split(path, SEPARATOR))
    decreases |pattern|, 0
  {
    var patterns, names := Split(pattern, SEPARATOR), Split(path, SEPARATOR);
    var rest := Split(pattern[1..], SEPARATOR);
    assert patterns[0] == [ANY] + rest[0] && patterns[1..] == rest[1..];
    assert patterns[0][1..] == rest[0];
    AllFitParts(patterns, names);
    SplitHasNoSeparator(path, SEPARATOR);
    SplitSkip(path, |path|);
    forall run: nat | run <= |path|
      ensures SEPARATOR !in path[..run] && Fits(pattern[1..], path[run..]) <==>
              run <= |names[0]| && Fits(rest[0], names[0][run..]) && AllFit(rest[1..], names[1..])
    {
      SplitSkip(path, run);
      FitsByNames(pattern[1..], path[run..]);
      AllFitParts(rest, Split(path[run..], SEPARATOR));
    }
    FirstNameWithin(path);
    if Fits(patterns[0], names[0]) {
      var run: nat :| run <= |names[0]| && SEPARATOR !in names[0][..run] && Fits(rest[0], names[0][run..]);
      assert run <= |path|;
    }
  }

  lemma {:induction false} FirstNameWithin(path: string)
    ensures |Split(path, SEPARATOR)[0]| <= |path|
  {
    if path != [] {
      FirstNameWithin(path[1..]);
    }
  }

  // For all patterns and paths: the matcher holds exactly when the path can be
  // had from the pattern.
  lemma MatchesMeansFits(pattern: string, path: string)
    ensures Matches(pattern, path) <==> Fits(pattern, path)
  {
    FitsByNames(pattern, path);
    var patterns, names := Split(pattern, SEPARATOR), Split(path, SEPARATOR);
    SplitHasNoSeparator(path, SEPARATOR);
    forall i | 0 <= i < |patterns| && |patterns| == |names|
      ensures NameFits(patterns[i], names[i]) <==> Fits(patterns[i], names[i])
    {
      NameFitsMeans(patterns[i], names[i]);
    }
  }

  // -- Detection --------------------------------------------------------------------------

  datatype ProjectStandard = ProjectStandard(id: string, detectFiles: seq<string>)

  predicate Signals(files: seq<string>, standard: ProjectStandard) {
    forall marker :: marker in standard.detectFiles ==> exists file :: file in files && Matches(marker, file)
  }

  // The first standard every one of whose markers is among the files.
  function Detect(files: seq<string>, standards: seq<ProjectStandard>): Option<string> {
    if standards == [] then None
    else if Signals(files, standards[0]) then Some(standards[0].id)
    else Detect(files, standards[1..])
  }

  // Detection in the pattern's own terms.
  lemma {:induction false} DetectMeans(files: seq<string>, standards: seq<ProjectStandard>)
    ensures match Detect(files, standards)
            case Some(id) => exists i ::
              && 0 <= i < |standards| && standards[i].id == id && SignalsMeaning(files, standards[i])
              && forall k :: 0 <= k < i ==> !SignalsMeaning(files, standards[k])
            case None => forall i :: 0 <= i < |standards| ==> !SignalsMeaning(files, standards[i])
  {
    if standards != [] {
      SignalsIff(files, standards[0]);
      if !Signals(files, standards[0]) {
        DetectMeans(files, standards[1..]);
        if Detect(files, standards).Some? {
          var i :| 0 <= i < |standards| - 1 && standards[1..][i].id == Detect(files, standards).value
                   && SignalsMeaning(files, standards[1..][i])
                   && forall k :: 0 <= k < i ==> !SignalsMeaning(files, standards[1..][k]);
          assert standards[i + 1] == standards[1..][i];
          forall k | 0 <= k < i + 1
            ensures !SignalsMeaning(files, standards[k])
          {
            assert k > 0 ==> standards[k] == standards[1..][k - 1];
          }
        } else {
          assert forall i :: 1 <= i < |standards| ==> standards[i] == standards[1..][i - 1];
        }
      }
    }
  }

  ghost predicate SignalsMeaning(files: seq<string>, standard: ProjectStandard) {
    forall marker :: marker in standard.detectFiles ==> exists file :: file in files && Fits(marker, file)
  }

  lemma SignalsIff(files: seq<string>, standard: ProjectStandard)
    ensures Signals(files, standard) <==> SignalsMeaning(files, standard)
  {
    forall marker, file | marker in standard.detectFiles && file in files
      ensures Matches(marker, file) <==> Fits(marker, file)
    {
      MatchesMeansFits(marker, file);
    }
  }
}
