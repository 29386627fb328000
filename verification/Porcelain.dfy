// Git's `-z` output as changes: `git status --porcelain=v2` and
// `git diff --name-status`.
module Porcelain {
  import opened Sequences
  import opened Strings

  const NUL := '\0'
  const U32_MAX: nat := 0xFFFF_FFFF

  datatype ChangeKind =
    | Modified | Added | Deleted | Renamed | Copied | TypeChanged | Untracked | Conflicted

  // What a letter of the two git writes stands for.
  function FromCode(code: char): Option<ChangeKind> {
    match code
    case 'M' => Some(Modified)
    case 'A' => Some(Added)
    case 'D' => Some(Deleted)
    case 'R' => Some(Renamed)
    case 'C' => Some(Copied)
    case 'T' => Some(TypeChanged)
    case 'U' => Some(Conflicted)
    case _ => None
  }

  predicate HasOrigin(kind: ChangeKind) {
    kind == Renamed || kind == Copied
  }

  datatype FileChange = FileChange(path: string, originalPath: Option<string>, kind: ChangeKind)

  datatype Status = Status(
    head: Option<string>,
    branch: Option<string>,
    upstream: Option<string>,
    ahead: nat,
    behind: nat,
    stashes: nat,
    staged: seq<FileChange>,
    unstaged: seq<FileChange>,
    conflicted: seq<FileChange>)

  const NO_STATUS := Status(None, None, None, 0, 0, 0, [], [], [])

  // -- What one record says -----------------------------------------------------------

  const ORDINARY_FIELDS: nat := 9

  // `split_once` on a space, the whole text and nothing where there is none.
  function KeyValue(header: string): (string, string) {
    var at := IndexOf(header, ' ');
    if at == |header| then (header, "") else (header[..at], header[at + 1..])
  }

  function ParseOr0(s: string): nat {
    var n := ParseUnsigned(s, U32_MAX);
    if n.Some? then n.value else 0
  }

  // `+ahead -behind`.
  function AheadBehind(s: Status, parts: seq<string>): Status
    decreases |parts|
  {
    if parts == [] then s
    else
      var part := parts[0];
      var next := if part != [] && part[0] == '+' then s.(ahead := ParseOr0(part[1..]))
                  else if part != [] && part[0] == '-' then s.(behind := ParseOr0(part[1..]))
                  else s;
      AheadBehind(next, parts[1..])
  }

  function BranchHeader(s: Status, header: string): Status {
    var (key, value) := KeyValue(header);
    if key == "branch.oid" && value != "(initial)" then s.(head := Some(value))
    else if key == "branch.head" && value != "(detached)" then s.(branch := Some(value))
    else if key == "branch.upstream" then s.(upstream := Some(value))
    else if key == "branch.ab" then AheadBehind(s, Split(value, ' '))
    else if key == "stash" then s.(stashes := ParseOr0(value))
    else s
  }

  // A record cut into at most `count` fields, its path last: the first letter is
  // about the index, the second about the working tree.
  function Changed(s: Status, record: string, count: nat, original: Option<string>): Status
    requires count >= 1
  {
    var fields := SplitN(record, ' ', count);
    var path := fields[|fields| - 1];
    var xy := if |fields| > 1 then fields[1] else "";
    var x := if |xy| > 0 then FromCode(xy[0]) else None;
    var y := if |xy| > 1 then FromCode(xy[1]) else None;
    s.(staged := s.staged +
                 (if x.Some? then [FileChange(path, if HasOrigin(x.value) then original else None, x.value)] else []),
       unstaged := s.unstaged + (if y.Some? then [FileChange(path, None, y.value)] else []))
  }

  // Rust's `get(2..)`: none when the third byte does not start a character.
  function FromThirdByte(record: string): Option<string> {
    if |record| >= 2 && record[0] < 128 as char && record[1] < 128 as char then Some(record[2..]) else None
  }

  function OneRecord(s: Status, record: string, original: Option<string>): Status {
    if "# " <= record then BranchHeader(s, record[2..])
    else if record == [] then s
    else match record[0]
      case '1' => Changed(s, record, ORDINARY_FIELDS, None)
      case '2' => Changed(s, record, ORDINARY_FIELDS + 1, original)
      case 'u' =>
        var fields := SplitN(record, ' ', 11);
        if |fields| > 10 then s.(conflicted := s.conflicted + [FileChange(fields[10], None, Conflicted)]) else s
      case '?' =>
        var path := FromThirdByte(record);
        if path.Some? then s.(unstaged := s.unstaged + [FileChange(path.value, None, Untracked)]) else s
      case _ => s
  }

  // A rename's record takes the next one as its old path.
  predicate TakesNext(record: string) {
    !("# " <= record) && record != [] && record[0] == '2'
  }

  function Records(s: Status, records: seq<string>): Status
    decreases |records|
  {
    if records == [] then s
    else if TakesNext(records[0]) then
      (if |records| == 1 then OneRecord(s, records[0], None)
       else Records(OneRecord(s, records[0], Some(records[1])), records[2..]))
    else Records(OneRecord(s, records[0], None), records[1..])
  }

  // -- The parser ------------------------------------------------------------------------

  class RepoStatus {
    var head: Option<string>
    var branch: Option<string>
    var upstream: Option<string>
    var ahead: nat
    var behind: nat
    var stashes: nat
    var staged: seq<FileChange>
    var unstaged: seq<FileChange>
    var conflicted: seq<FileChange>

    ghost function Snapshot(): Status
      reads this
    {
      Status(head, branch, upstream, ahead, behind, stashes, staged, unstaged, conflicted)
    }

    constructor ()
      ensures Snapshot() == NO_STATUS
    {
      head, branch, upstream := None, None, None;
      ahead, behind, stashes := 0, 0, 0;
      staged, unstaged, conflicted := [], [], [];
    }

    method HearHeader(header: string)
      modifies this
      ensures Snapshot() == BranchHeader(old(Snapshot()), header)
    {
      var (key, value) := KeyValue(header);
      if key == "branch.oid" && value != "(initial)" {
        head := Some(value);
      } else if key == "branch.head" && value != "(detached)" {
        branch := Some(value);
      } else if key == "branch.upstream" {
        upstream := Some(value);
      } else if key == "branch.ab" {
        var parts := Split(value, ' ');
        for i := 0 to |parts|
          invariant AheadBehind(Snapshot(), parts[i..]) == AheadBehind(old(Snapshot()), parts)
        {
          assert parts[i..][1..] == parts[i + 1..];
          var part := parts[i];
          if part != [] && part[0] == '+' {
            ahead := ParseOr0(part[1..]);
          } else if part != [] && part[0] == '-' {
            behind := ParseOr0(part[1..]);
          }
        }
        assert parts[|parts|..] == [];
      } else if key == "stash" {
        stashes := ParseOr0(value);
      }
    }

    method HearChanged(record: string, count: nat, original: Option<string>)
      requires count >= 1
      modifies this
      ensures Snapshot() == Changed(old(Snapshot()), record, count, original)
    {
      var fields := SplitN(record, ' ', count);
      var path := fields[|fields| - 1];
      var xy := if |fields| > 1 then fields[1] else "";
      if |xy| > 0 {
        var kind := FromCode(xy[0]);
        if kind.Some? {
          staged := staged + [FileChange(path, if HasOrigin(kind.value) then original else None, kind.value)];
        }
      }
      if |xy| > 1 {
        var kind := FromCode(xy[1]);
        if kind.Some? {
          unstaged := unstaged + [FileChange(path, None, kind.value)];
        }
      }
    }
  }

  method ParseStatus(raw: string) returns (status: RepoStatus)
    ensures fresh(status) && status.Snapshot() == Records(NO_STATUS, Split(raw, NUL))
  {
    status := new RepoStatus();
    var records := Split(raw, NUL);
    ghost var all := records;
    while records != []
      invariant fresh(status)
      invariant Records(status.Snapshot(), records) == Records(NO_STATUS, all)
      decreases |records|
    {
      var record := records[0];
      records := records[1..];
      if "# " <= record {
        status.HearHeader(record[2..]);
        continue;
      }
      if record == [] {
        continue;
      }
      match record[0]
      case '1' => status.HearChanged(record, ORDINARY_FIELDS, None);
      case '2' =>
        var original: Option<string> := None;
        if records != [] {
          original := Some(records[0]);
          records := records[1..];
        }
        status.HearChanged(record, ORDINARY_FIELDS + 1, original);
      case 'u' =>
        var fields := SplitN(record, ' ', 11);
        if |fields| > 10 {
          status.conflicted := status.conflicted + [FileChange(fields[10], None, Conflicted)];
        }
      case '?' =>
        var path := FromThirdByte(record);
        if path.Some? {
          status.unstaged := status.unstaged + [FileChange(path.value, None, Untracked)];
        }
      case _ =>
    }
  }

  // -- What git writes ---------------------------------------------------------------------

  // A header git writes; no commit yet and no branch have names of their own.
  datatype Fact =
    | Head(oid: Option<string>)
    | Branch(name: Option<string>)
    | Upstream(upstream: string)
    | Counts(ahead: nat, behind: nat)
    | Stashes(count: nat)

  predicate IsFact(fact: Fact) {
    match fact
    case Head(oid) => oid != Some("(initial)")
    case Branch(name) => name != Some("(detached)")
    case Upstream(_) => true
    case Counts(ahead, behind) => ahead <= U32_MAX && behind <= U32_MAX
    case Stashes(count) => count <= U32_MAX
  }

  function FactKey(fact: Fact): string {
    match fact
    case Head(_) => "branch.oid"
    case Branch(_) => "branch.head"
    case Upstream(_) => "branch.upstream"
    case Counts(_, _) => "branch.ab"
    case Stashes(_) => "stash"
  }

  function FactValue(fact: Fact): string {
    match fact
    case Head(oid) => if oid.Some? then oid.value else "(initial)"
    case Branch(name) => if name.Some? then name.value else "(detached)"
    case Upstream(name) => name
    case Counts(ahead, behind) => (['+'] + Decimal(ahead)) + [' '] + (['-'] + Decimal(behind))
    case Stashes(count) => Decimal(count)
  }

  function FactText(fact: Fact): string {
    FactKey(fact) + [' '] + FactValue(fact)
  }

  // What the headers are about.
  datatype Facts = Facts(
    head: Option<string>, branch: Option<string>, upstream: Option<string>, ahead: nat, behind: nat, stashes: nat)

  function FactsOf(s: Status): Facts {
    Facts(s.head, s.branch, s.upstream, s.ahead, s.behind, s.stashes)
  }

  function Learned(facts: Facts, fact: Fact): Facts {
    match fact
    case Head(oid) => if oid.Some? then facts.(head := oid) else facts
    case Branch(name) => if name.Some? then facts.(branch := name) else facts
    case Upstream(name) => facts.(upstream := Some(name))
    case Counts(ahead, behind) => facts.(ahead := ahead, behind := behind)
    case Stashes(count) => facts.(stashes := count)
  }

  // Of several headers of one kind the last one counts.
  function LearnedAll(facts: Facts, entries: seq<Entry>): Facts
    decreases |entries|
  {
    if entries == [] then facts
    else LearnedAll(if entries[0].Known? then Learned(facts, entries[0].fact) else facts, entries[1..])
  }

  // What one of the two letters says: how the file changed, or nothing known of it,
  // as with the '.' of an unchanged one.
  datatype Code = Says(kind: ChangeKind) | Other(letter: char)

  // Git's letters; it has none for an untracked file.
  function Letter(code: Code): char {
    match code
    case Says(Modified) => 'M'
    case Says(Added) => 'A'
    case Says(Deleted) => 'D'
    case Says(Renamed) => 'R'
    case Says(Copied) => 'C'
    case Says(TypeChanged) => 'T'
    case Says(Conflicted) => 'U'
    case Says(Untracked) => '?'
    case Other(letter) => letter
  }

  predicate IsCode(code: Code) {
    match code
    case Says(kind) => kind != Untracked
    case Other(letter) => letter !in "MADRCTU" && letter != ' ' && letter != NUL
  }

  predicate IsMoved(code: Code) {
    code == Says(Renamed) || code == Says(Copied)
  }

  lemma LetterReadsBack(code: Code)
    requires IsCode(code)
    ensures FromCode(Letter(code)) == if code.Says? then Some(code.kind) else None
    ensures code.Says? ==> (HasOrigin(code.kind) <==> IsMoved(code))
    ensures Letter(code) != ' ' && Letter(code) != NUL
  {
    if code.Other? {
      var known := "MADRCTU";
      assert forall i :: 0 <= i < 7 ==> known[i] in known;
      assert known[0] == 'M' && known[1] == 'A' && known[2] == 'D' && known[3] == 'R';
      assert known[4] == 'C' && known[5] == 'T' && known[6] == 'U';
    }
  }

  // One entry of porcelain v2. `middle` are the fields between the letters and
  // the path: submodule state, modes and object names, and a rename's score.
  datatype Entry =
    | Known(fact: Fact)
    | Header(text: string)
    | Ordinary(x: Code, y: Code, middle: seq<string>, path: string)
    | RenameOrCopy(x: Code, y: Code, middle: seq<string>, path: string, original: string)
    | Unmerged(x: Code, y: Code, middle: seq<string>, path: string)
    | NotTracked(path: string)
    | Ignored(path: string)

  predicate IsField(s: string) {
    ' ' !in s && NUL !in s
  }

  predicate IsPath(s: string) {
    s != [] && NUL !in s
  }

  ghost predicate AreFields(middle: seq<string>, count: nat) {
    |middle| == count && forall i :: 0 <= i < |middle| ==> IsField(middle[i])
  }

  ghost predicate IsEntry(entry: Entry) {
    match entry
    case Known(fact) => IsFact(fact) && NUL !in FactText(fact)
    case Header(text) => NUL !in text
    case Ordinary(x, y, middle, path) => IsCode(x) && IsCode(y) && AreFields(middle, 6) && IsPath(path)
    case RenameOrCopy(x, y, middle, path, original) =>
      IsCode(x) && IsCode(y) && AreFields(middle, 7) && IsPath(path) && IsPath(original)
    case Unmerged(x, y, middle, path) => IsCode(x) && IsCode(y) && AreFields(middle, 8) && IsPath(path)
    case NotTracked(path) => IsPath(path)
    case Ignored(path) => IsPath(path)
  }

  const FACT_KEYS := ["branch.oid", "branch.head", "branch.upstream", "branch.ab", "stash"]

  // Headers of other names only.
  predicate IsUnmistaken(entry: Entry) {
    entry.Header? ==> KeyValue(entry.text).0 !in FACT_KEYS
  }

  // The fields, a space after each.
  function Spaced(fields: seq<string>): string {
    if fields == [] then [] else fields[0] + [' '] + Spaced(fields[1..])
  }

  function Letters(x: Code, y: Code): string {
    [Letter(x), Letter(y)]
  }

  function RecordOf(entry: Entry): string {
    match entry
    case Known(fact) => "# " + FactText(fact)
    case Header(text) => "# " + text
    case Ordinary(x, y, middle, path) => Spaced(["1", Letters(x, y)] + middle) + path
    case RenameOrCopy(x, y, middle, path, _) => Spaced(["2", Letters(x, y)] + middle) + path
    case Unmerged(x, y, middle, path) => Spaced(["u", Letters(x, y)] + middle) + path
    case NotTracked(path) => "? " + path
    case Ignored(path) => "! " + path
  }

  // The entries, NUL after each record and after a rename's old path.
  function Rendered(entries: seq<Entry>): string {
    if entries == [] then []
    else
      RecordOf(entries[0]) + [NUL]
      + (if entries[0].RenameOrCopy? then entries[0].original + [NUL] else [])
      + Rendered(entries[1..])
  }

  function ChangeAs(code: Code, path: string, original: Option<string>): seq<FileChange> {
    if code.Says? then [FileChange(path, original, code.kind)] else []
  }

  function StagedOf(entry: Entry): seq<FileChange> {
    match entry
    case Ordinary(x, _, _, path) => ChangeAs(x, path, None)
    case RenameOrCopy(x, _, _, path, original) => ChangeAs(x, path, if IsMoved(x) then Some(original) else None)
    case _ => []
  }

  // The old path of a rename in the working tree is not kept.
  function UnstagedOf(entry: Entry): seq<FileChange> {
    match entry
    case Ordinary(_, y, _, path) => ChangeAs(y, path, None)
    case RenameOrCopy(_, y, _, path, _) => ChangeAs(y, path, None)
    case NotTracked(path) => [FileChange(path, None, Untracked)]
    case _ => []
  }

  function ConflictedOf(entry: Entry): seq<FileChange> {
    match entry
    case Unmerged(_, _, _, path) => [FileChange(path, None, Conflicted)]
    case _ => []
  }

  function Staged(entries: seq<Entry>): seq<FileChange> {
    if entries == [] then [] else StagedOf(entries[0]) + Staged(entries[1..])
  }

  function Unstaged(entries: seq<Entry>): seq<FileChange> {
    if entries == [] then [] else UnstagedOf(entries[0]) + Unstaged(entries[1..])
  }

  function ConflictedIn(entries: seq<Entry>): seq<FileChange> {
    if entries == [] then [] else ConflictedOf(entries[0]) + ConflictedIn(entries[1..])
  }

  // -- The parser gives back what was written ------------------------------------------------

  lemma SpacedFirst(fields: seq<string>, path: string)
    requires fields != []
    ensures Spaced(fields) + path == fields[0] + [' '] + (Spaced(fields[1..]) + path)
    ensures fields + [path] == [fields[0]] + (fields[1..] + [path])
  {
    Regrouped(fields[0] + [' '], Spaced(fields[1..]), path);
    Regrouped([fields[0]], fields[1..], [path]);
    assert [fields[0]] + fields[1..] == fields;
  }

  lemma {:induction false} SplitSpaced(fields: seq<string>, path: string)
    requires forall i :: 0 <= i < |fields| ==> ' ' !in fields[i]
    ensures SplitN(Spaced(fields) + path, ' ', |fields| + 1) == fields + [path]
  {
    if fields == [] {
      assert Spaced(fields) + path == path;
    } else {
      var rest := Spaced(fields[1..]) + path;
      SplitSpaced(fields[1..], path);
      SplitAfterFirst(fields, path, rest);
    }
  }

  lemma SplitAfterFirst(fields: seq<string>, path: string, rest: string)
    requires fields != [] && ' ' !in fields[0] && rest == Spaced(fields[1..]) + path
    requires SplitN(rest, ' ', |fields|) == fields[1..] + [path]
    ensures SplitN(Spaced(fields) + path, ' ', |fields| + 1) == fields + [path]
  {
    SpacedFirst(fields, path);
    SplitNFirst(fields[0], ' ', rest, |fields|);
  }

  lemma {:induction false} SpacedHasNoNul(fields: seq<string>)
    requires forall i :: 0 <= i < |fields| ==> NUL !in fields[i]
    ensures NUL !in Spaced(fields)
  {
    if fields != [] {
      SpacedHasNoNul(fields[1..]);
    }
  }

  lemma EntryFields(first: string, x: Code, y: Code, middle: seq<string>, path: string, count: nat)
    requires IsField(first) && first != [] && first[0] != '#'
    requires IsCode(x) && IsCode(y) && AreFields(middle, count) && IsPath(path)
    ensures var record := Spaced([first, Letters(x, y)] + middle) + path;
            && SplitN(record, ' ', count + 3) == [first, Letters(x, y)] + middle + [path]
            && NUL !in record && record != [] && record[0] == first[0] && !("# " <= record)
  {
    LetterReadsBack(x);
    LetterReadsBack(y);
    var fields := [first, Letters(x, y)] + middle;
    SplitSpaced(fields, path);
    SpacedHasNoNul(fields);
    assert Spaced(fields) == first + [' '] + Spaced(fields[1..]);
  }

  function OriginalOf(entry: Entry): Option<string> {
    if entry.RenameOrCopy? then Some(entry.original) else None
  }

  // What one entry's record adds.
  ghost predicate Adds(before: Status, after: Status, entry: Entry) {
    && after.staged == before.staged + StagedOf(entry)
    && after.unstaged == before.unstaged + UnstagedOf(entry)
    && after.conflicted == before.conflicted + ConflictedOf(entry)
    && (IsUnmistaken(entry) ==>
          FactsOf(after) == if entry.Known? then Learned(FactsOf(before), entry.fact) else FactsOf(before))
  }

  lemma ChangedAdds(
    s: Status, first: string, x: Code, y: Code, middle: seq<string>, path: string, count: nat, original: Option<string>)
    requires IsField(first) && first != [] && first[0] != '#'
    requires IsCode(x) && IsCode(y) && AreFields(middle, count) && IsPath(path)
    ensures var record := Spaced([first, Letters(x, y)] + middle) + path;
            Changed(s, record, count + 3, original) ==
            s.(staged := s.staged + ChangeAs(x, path, if IsMoved(x) then original else None),
               unstaged := s.unstaged + ChangeAs(y, path, None))
  {
    EntryFields(first, x, y, middle, path, count);
    LetterReadsBack(x);
    LetterReadsBack(y);
    var fields := [first, Letters(x, y)] + middle + [path];
    assert fields[|fields| - 1] == path && fields[1] == Letters(x, y);
  }

  // -- The headers read back ----------------------------------------------------------------------

  lemma KeyValueReadsBack(key: string, value: string)
    requires ' ' !in key
    ensures KeyValue(key + [' '] + value) == (key, value)
  {
    var header := key + [' '] + value;
    IndexOfFirst(key, ' ', value);
    assert header[..|key|] == key && header[|key| + 1..] == value;
  }

  lemma KeyIsWord(fact: Fact)
    ensures ' ' !in FactKey(fact)
  {
    match fact
    case Head(_) => assert ' ' !in "branch.oid";
    case Branch(_) => assert ' ' !in "branch.head";
    case Upstream(_) => assert ' ' !in "branch.upstream";
    case Counts(_, _) => assert ' ' !in "branch.ab";
    case Stashes(_) => assert ' ' !in "stash";
  }

  lemma CountsReadBack(s: Status, ahead: nat, behind: nat)
    requires IsFact(Counts(ahead, behind))
    ensures AheadBehind(s, Split(FactValue(Counts(ahead, behind)), ' ')) == s.(ahead := ahead, behind := behind)
  {
    var a, b := ['+'] + Decimal(ahead), ['-'] + Decimal(behind);
    assert a[1..] == Decimal(ahead) && b[1..] == Decimal(behind);
    DecimalHasNo(ahead, ' ');
    DecimalHasNo(behind, ' ');
    SplitFirst(a, ' ', b);
    SplitNone(b, ' ');
    ParseDecimal(ahead, U32_MAX);
    ParseDecimal(behind, U32_MAX);
    var parts := [a, b];
    assert Split(a + [' '] + b, ' ') == parts && parts[1..] == [b] && [b][1..] == [];
    var first := s.(ahead := ahead);
    assert AheadBehind(s, parts) == AheadBehind(first, [b]);
    assert AheadBehind(first, [b]) == AheadBehind(first.(behind := behind), []);
  }

  // Each header sets exactly what it names, to what git wrote.
  lemma FactReadsBack(s: Status, fact: Fact)
    requires IsFact(fact)
    ensures var next := BranchHeader(s, FactText(fact));
            FactsOf(next) == Learned(FactsOf(s), fact) && SameChanges(s, next)
  {
    HeaderKeeps(s, FactText(fact));
    KeyIsWord(fact);
    KeyValueReadsBack(FactKey(fact), FactValue(fact));
    match fact
    case Counts(ahead, behind) => CountsReadBack(s, ahead, behind);
    case Stashes(count) => ParseDecimal(count, U32_MAX);
    case _ =>
  }

  // -- The records read back ------------------------------------------------------------------

  lemma EntryAdds(s: Status, entry: Entry)
    requires IsEntry(entry)
    ensures Adds(s, OneRecord(s, RecordOf(entry), OriginalOf(entry)), entry)
  {
    match entry
    case Known(fact) =>
      FactReadsBack(s, fact);
      assert ("# " + FactText(fact))[2..] == FactText(fact);
      AddsNothing(s, BranchHeader(s, FactText(fact)), entry);
    case Header(text) => HeaderAdds(s, text);
    case Ordinary(x, y, middle, path) => OrdinaryAdds(s, x, y, middle, path);
    case RenameOrCopy(x, y, middle, path, original) => RenameAdds(s, x, y, middle, path, original);
    case Unmerged(x, y, middle, path) => UnmergedAdds(s, x, y, middle, path);
    case NotTracked(path) => NotTrackedAdds(s, path);
    case Ignored(path) => IgnoredAdds(s, path);
  }

  lemma IgnoredAdds(s: Status, path: string)
    ensures Adds(s, OneRecord(s, "! " + path, None), Ignored(path))
  {
    var record := "! " + path;
    assert record[0] == '!';
    AddsNothing(s, OneRecord(s, record, None), Ignored(path));
  }

  lemma NotTrackedAdds(s: Status, path: string)
    ensures Adds(s, OneRecord(s, "? " + path, None), NotTracked(path))
  {
    var record := "? " + path;
    assert record[0] == '?' && record[1] == ' ' && record[2..] == path;
    assert FromThirdByte(record) == Some(path);
    assert s.staged + [] == s.staged && s.conflicted + [] == s.conflicted;
  }

  lemma ChangedRecord(s: Status, record: string, original: Option<string>)
    requires record != [] && !("# " <= record)
    ensures record[0] == '1' ==> OneRecord(s, record, original) == Changed(s, record, ORDINARY_FIELDS, None)
    ensures record[0] == '2' ==> OneRecord(s, record, original) == Changed(s, record, ORDINARY_FIELDS + 1, original)
  {
  }

  lemma ListsAdd(before: Status, after: Status, entry: Entry, staged: seq<FileChange>, unstaged: seq<FileChange>)
    requires after == before.(staged := before.staged + staged, unstaged := before.unstaged + unstaged)
    requires staged == StagedOf(entry) && unstaged == UnstagedOf(entry) && ConflictedOf(entry) == []
    requires entry.Ordinary? || entry.RenameOrCopy?
    ensures Adds(before, after, entry)
  {
    assert before.conflicted + [] == before.conflicted;
  }

  lemma ReadAsChanged(s: Status, entry: Entry, record: string, original: Option<string>)
    requires IsEntry(entry) && record == RecordOf(entry) && original == OriginalOf(entry)
    requires entry.Ordinary? || entry.RenameOrCopy?
    ensures OneRecord(s, record, original) ==
            if entry.Ordinary? then Changed(s, record, ORDINARY_FIELDS, None)
            else Changed(s, record, ORDINARY_FIELDS + 1, original)
  {
    var first := if entry.Ordinary? then "1" else "2";
    EntryFields(first, entry.x, entry.y, entry.middle, entry.path, if entry.Ordinary? then 6 else 7);
    ChangedRecord(s, record, original);
  }

  lemma OrdinaryAdds(s: Status, x: Code, y: Code, middle: seq<string>, path: string)
    requires IsEntry(Ordinary(x, y, middle, path))
    ensures Adds(s, OneRecord(s, RecordOf(Ordinary(x, y, middle, path)), None), Ordinary(x, y, middle, path))
  {
    var entry := Ordinary(x, y, middle, path);
    var next := OneRecord(s, RecordOf(entry), None);
    var staged := ChangeAs(x, path, None);
    assert next == s.(staged := s.staged + staged, unstaged := s.unstaged + ChangeAs(y, path, None)) by {
      ReadAsChanged(s, entry, RecordOf(entry), None);
      ChangedAdds(s, "1", x, y, middle, path, 6, None);
    }
    ListsAdd(s, next, entry, staged, ChangeAs(y, path, None));
  }

  lemma RenameAdds(s: Status, x: Code, y: Code, middle: seq<string>, path: string, original: string)
    requires IsEntry(RenameOrCopy(x, y, middle, path, original))
    ensures var entry := RenameOrCopy(x, y, middle, path, original);
            Adds(s, OneRecord(s, RecordOf(entry), Some(original)), entry)
  {
    var entry := RenameOrCopy(x, y, middle, path, original);
    var next := OneRecord(s, RecordOf(entry), Some(original));
    var staged := ChangeAs(x, path, if IsMoved(x) then Some(original) else None);
    assert next == s.(staged := s.staged + staged, unstaged := s.unstaged + ChangeAs(y, path, None)) by {
      ReadAsChanged(s, entry, RecordOf(entry), Some(original));
      ChangedAdds(s, "2", x, y, middle, path, 7, Some(original));
    }
    ListsAdd(s, next, entry, staged, ChangeAs(y, path, None));
  }

  lemma UnmergedAdds(s: Status, x: Code, y: Code, middle: seq<string>, path: string)
    requires IsEntry(Unmerged(x, y, middle, path))
    ensures Adds(s, OneRecord(s, RecordOf(Unmerged(x, y, middle, path)), None), Unmerged(x, y, middle, path))
  {
    EntryFields("u", x, y, middle, path, 8);
    assert (["u", Letters(x, y)] + middle + [path])[10] == path;
  }

  lemma EntryRecord(entry: Entry)
    requires IsEntry(entry)
    ensures NUL !in RecordOf(entry)
    ensures TakesNext(RecordOf(entry)) <==> entry.RenameOrCopy?
  {
    match entry
    case Ordinary(x, y, middle, path) => EntryFields("1", x, y, middle, path, 6);
    case RenameOrCopy(x, y, middle, path, original) => EntryFields("2", x, y, middle, path, 7);
    case Unmerged(x, y, middle, path) => EntryFields("u", x, y, middle, path, 8);
    case _ =>
  }

  // A header changes none of the three lists.
  ghost predicate SameChanges(before: Status, after: Status) {
    && after.staged == before.staged
    && after.unstaged == before.unstaged
    && after.conflicted == before.conflicted
  }

  lemma HeaderAdds(s: Status, text: string)
    ensures Adds(s, BranchHeader(s, ("# " + text)[2..]), Header(text))
  {
    var next := BranchHeader(s, ("# " + text)[2..]);
    assert ("# " + text)[2..] == text;
    HeaderKeeps(s, text);
    AddsNothing(s, next, Header(text));
  }

  lemma AddsNothing(before: Status, after: Status, entry: Entry)
    requires SameChanges(before, after) && (entry.Known? || entry.Header? || entry.Ignored?)
    requires IsUnmistaken(entry) ==>
               FactsOf(after) == if entry.Known? then Learned(FactsOf(before), entry.fact) else FactsOf(before)
    ensures Adds(before, after, entry)
  {
    assert before.staged + [] == before.staged;
    assert before.unstaged + [] == before.unstaged;
    assert before.conflicted + [] == before.conflicted;
  }

  lemma HeaderKeeps(s: Status, header: string)
    ensures SameChanges(s, BranchHeader(s, header))
  {
    AheadBehindKeeps(s, Split(KeyValue(header).1, ' '));
  }

  lemma {:induction false} AheadBehindKeeps(s: Status, parts: seq<string>)
    ensures SameChanges(s, AheadBehind(s, parts))
    decreases |parts|
  {
    if parts != [] {
      var part := parts[0];
      var next := if part != [] && part[0] == '+' then s.(ahead := ParseOr0(part[1..]))
                  else if part != [] && part[0] == '-' then s.(behind := ParseOr0(part[1..]))
                  else s;
      AheadBehindKeeps(next, parts[1..]);
    }
  }

  // Reading the first record, its old path with it, leaves the others.
  lemma FirstRecord(s: Status, record: string, rest: string)
    requires NUL !in record && !TakesNext(record)
    ensures Records(s, Split(record + [NUL] + rest, NUL)) ==
            Records(OneRecord(s, record, None), Split(rest, NUL))
  {
    SplitFirst(record, NUL, rest);
    assert ([record] + Split(rest, NUL))[1..] == Split(rest, NUL);
  }

  lemma FirstRename(s: Status, record: string, original: string, rest: string)
    requires NUL !in record && NUL !in original && TakesNext(record)
    ensures Records(s, Split(record + [NUL] + (original + [NUL] + rest), NUL)) ==
            Records(OneRecord(s, record, Some(original)), Split(rest, NUL))
  {
    SplitFirst(record, NUL, original + [NUL] + rest);
    SplitFirst(original, NUL, rest);
    var records := [record] + ([original] + Split(rest, NUL));
    assert records[2..] == Split(rest, NUL);
  }

  lemma RecordsStep(s: Status, entries: seq<Entry>)
    requires entries != [] && IsEntry(entries[0])
    ensures Records(s, Split(Rendered(entries), NUL)) ==
            Records(OneRecord(s, RecordOf(entries[0]), OriginalOf(entries[0])),
                    Split(Rendered(entries[1..]), NUL))
  {
    var entry, rest := entries[0], Rendered(entries[1..]);
    var record := RecordOf(entry);
    EntryRecord(entry);
    if entry.RenameOrCopy? {
      Regrouped(record + [NUL], entry.original + [NUL], rest);
      FirstRename(s, record, entry.original, rest);
    } else {
      assert record + [NUL] + [] == record + [NUL];
      FirstRecord(s, record, rest);
    }
  }

  // Whatever git lists comes back as exactly its changes, in order. A rename's
  // old path is never read as a record, whatever it looks like. So does what it
  // says of the commit, the branch, its upstream, the counts and the stashes.
  lemma {:induction false} StatusReadsBack(s: Status, entries: seq<Entry>)
    requires forall i :: 0 <= i < |entries| ==> IsEntry(entries[i])
    ensures var parsed := Records(s, Split(Rendered(entries), NUL));
            && parsed.staged == s.staged + Staged(entries)
            && parsed.unstaged == s.unstaged + Unstaged(entries)
            && parsed.conflicted == s.conflicted + ConflictedIn(entries)
            && ((forall i :: 0 <= i < |entries| ==> IsUnmistaken(entries[i])) ==>
                  FactsOf(parsed) == LearnedAll(FactsOf(s), entries))
    decreases |entries|
  {
    if entries == [] {
      assert Split(Rendered(entries), NUL) == [[]];
    } else {
      var next := OneRecord(s, RecordOf(entries[0]), OriginalOf(entries[0]));
      RecordsStep(s, entries);
      EntryAdds(s, entries[0]);
      StatusReadsBack(next, entries[1..]);
      Regrouped(s.staged, StagedOf(entries[0]), Staged(entries[1..]));
      Regrouped(s.unstaged, UnstagedOf(entries[0]), Unstaged(entries[1..]));
      Regrouped(s.conflicted, ConflictedOf(entries[0]), ConflictedIn(entries[1..]));
    }
  }

  // So is a whole output, read from nothing: no more than it lists, and of the headers
  // what the last of each kind says.
  lemma OutputReadsBack(entries: seq<Entry>)
    requires forall i :: 0 <= i < |entries| ==> IsEntry(entries[i]) && IsUnmistaken(entries[i])
    ensures var facts := LearnedAll(Facts(None, None, None, 0, 0, 0), entries);
            Records(NO_STATUS, Split(Rendered(entries), NUL)) ==
            Status(facts.head, facts.branch, facts.upstream, facts.ahead, facts.behind, facts.stashes,
                   Staged(entries), Unstaged(entries), ConflictedIn(entries))
  {
    StatusReadsBack(NO_STATUS, entries);
    assert [] + Staged(entries) == Staged(entries);
    assert [] + Unstaged(entries) == Unstaged(entries);
    assert [] + ConflictedIn(entries) == ConflictedIn(entries);
  }

  // A rename cut off from its old path is read without one.
  lemma CutRename(s: Status, x: Code, y: Code, middle: seq<string>, path: string)
    requires IsCode(x) && IsCode(y) && AreFields(middle, 7) && IsPath(path)
    ensures Records(s, [Spaced(["2", Letters(x, y)] + middle) + path]) ==
            s.(staged := s.staged + ChangeAs(x, path, None), unstaged := s.unstaged + ChangeAs(y, path, None))
  {
    var record := Spaced(["2", Letters(x, y)] + middle) + path;
    EntryFields("2", x, y, middle, path, 7);
    ChangedAdds(s, "2", x, y, middle, path, 7, None);
    ChangedRecord(s, record, None);
    assert TakesNext(record);
    assert Records(s, [record]) == OneRecord(s, record, None);
  }

  // A count of stashes that is no number is none.
  lemma NoNumberIsNone(s: Status, value: string)
    requires ParseUnsigned(value, U32_MAX).None?
    ensures BranchHeader(s, "stash" + [' '] + value) == s.(stashes := 0)
  {
    assert ' ' !in "stash";
    KeyValueReadsBack("stash", value);
  }

  // -- Old paths ----------------------------------------------------------------------------------

  // A rename or copy whose old path is not kept: one in the working tree, or one
  // in the index that names no old path.
  predicate LosesOld(entry: Entry) {
    match entry
    case Ordinary(x, y, _, _) => IsMoved(x) || IsMoved(y)
    case RenameOrCopy(_, y, _, _, _) => IsMoved(y)
    case _ => false
  }

  // Every rename and copy has the path it was at before.
  ghost predicate KeepsOld(changes: seq<FileChange>) {
    forall change :: change in changes && (change.kind == Renamed || change.kind == Copied) ==>
      change.originalPath.Some?
  }

  lemma {:induction false} ListsKeepOldIff(entries: seq<Entry>)
    ensures KeepsOld(Staged(entries) + Unstaged(entries)) <==>
            forall i :: 0 <= i < |entries| ==> !LosesOld(entries[i])
  {
    if entries != [] {
      var entry, rest := entries[0], entries[1..];
      ListsKeepOldIff(rest);
      EntryKeepsOldIff(entry);
      KeepsOldConcat(StagedOf(entry), Staged(rest));
      KeepsOldConcat(UnstagedOf(entry), Unstaged(rest));
      KeepsOldConcat(Staged(entries), Unstaged(entries));
      KeepsOldConcat(Staged(rest), Unstaged(rest));
      KeepsOldConcat(StagedOf(entry), UnstagedOf(entry));
      assert forall i :: 0 <= i < |rest| ==> rest[i] == entries[i + 1];
      assert forall i :: 1 <= i < |entries| ==> entries[i] == rest[i - 1];
    }
  }

  lemma KeepsOldConcat(a: seq<FileChange>, b: seq<FileChange>)
    ensures KeepsOld(a + b) <==> KeepsOld(a) && KeepsOld(b)
  {
    assert forall change :: change in a + b <==> change in a || change in b;
  }

  lemma EntryKeepsOldIff(entry: Entry)
    ensures KeepsOld(StagedOf(entry) + UnstagedOf(entry)) <==> !LosesOld(entry)
  {
    KeepsOldConcat(StagedOf(entry), UnstagedOf(entry));
    if (entry.Ordinary? || entry.RenameOrCopy?) && entry.y.Says? {
      assert FileChange(entry.path, None, entry.y.kind) in UnstagedOf(entry);
    }
    if entry.Ordinary? && entry.x.Says? {
      assert FileChange(entry.path, None, entry.x.kind) in StagedOf(entry);
    }
  }

  // In what is read every rename and copy has its old path if and only if git lists
  // none that loses it.
  lemma OldPathsComeBackIff(entries: seq<Entry>)
    requires forall i :: 0 <= i < |entries| ==> IsEntry(entries[i])
    ensures var parsed := Records(NO_STATUS, Split(Rendered(entries), NUL));
            KeepsOld(parsed.staged + parsed.unstaged) <==> forall i :: 0 <= i < |entries| ==> !LosesOld(entries[i])
  {
    StatusReadsBack(NO_STATUS, entries);
    ListsKeepOldIff(entries);
    assert NO_STATUS.staged + Staged(entries) == Staged(entries);
    assert NO_STATUS.unstaged + Unstaged(entries) == Unstaged(entries);
  }

  // One file renamed in the working tree: its old path was there to be read.
  lemma WorkingTreeRenameLosesOld(middle: seq<string>, path: string, original: string)
    requires IsEntry(RenameOrCopy(Other('.'), Says(Renamed), middle, path, original))
    ensures var renamed := RenameOrCopy(Other('.'), Says(Renamed), middle, path, original);
            var parsed := Records(NO_STATUS, Split(Rendered([renamed]), NUL));
            parsed.staged == [] && parsed.unstaged == [FileChange(path, None, Renamed)]
  {
    var entries := [RenameOrCopy(Other('.'), Says(Renamed), middle, path, original)];
    StatusReadsBack(NO_STATUS, entries);
    assert entries[1..] == [];
  }

  // -- `git diff --name-status -z` -------------------------------------------------------------

  function NonEmpty(fields: seq<string>): seq<string> {
    if fields == [] then [] else (if fields[0] != [] then [fields[0]] else []) + NonEmpty(fields[1..])
  }

  function NameChanges(fields: seq<string>): seq<FileChange> {
    if fields == [] then []
    else
      var kind := if fields[0] == [] then None else FromCode(fields[0][0]);
      if kind.None? then NameChanges(fields[1..])
      else if |fields| == 1 then []
      else if HasOrigin(kind.value) then
        (if |fields| == 2 then []
         else [FileChange(fields[2], Some(fields[1]), kind.value)] + NameChanges(fields[3..]))
      else [FileChange(fields[1], None, kind.value)] + NameChanges(fields[2..])
  }

  method ParseNameStatus(raw: string) returns (files: seq<FileChange>)
    ensures files == NameChanges(NonEmpty(Split(raw, NUL)))
  {
    var fields := NonEmpty(Split(raw, NUL));
    ghost var all := fields;
    files := [];
    while fields != []
      invariant files + NameChanges(fields) == NameChanges(all)
      decreases |fields|
    {
      ghost var left := fields;
      var code := fields[0];
      fields := fields[1..];
      if code == [] || FromCode(code[0]).None? {
        continue;
      }
      var kind := FromCode(code[0]).value;
      if fields == [] {
        break;
      }
      var first := fields[0];
      fields := fields[1..];
      assert fields == left[2..];
      var change := FileChange(first, None, kind);
      if HasOrigin(kind) {
        if fields == [] {
          break;
        }
        change := FileChange(fields[0], Some(first), kind);
        fields := fields[1..];
        assert fields == left[3..];
      }
      assert NameChanges(left) == [change] + NameChanges(fields);
      Regrouped(files, [change], NameChanges(fields));
      files := files + [change];
    }
  }

  // One changed file as git writes it: its letter, with a score for some, and
  // its path; a rename's or a copy's two paths, the old one first.
  datatype NameEntry =
    | OneFile(kind: ChangeKind, score: string, path: string)
    | TwoFiles(kind: ChangeKind, score: string, from: string, to: string)

  predicate IsNameEntry(entry: NameEntry) {
    && NUL !in entry.score
    && match entry
       case OneFile(kind, _, path) => kind != Renamed && kind != Copied && kind != Untracked && IsPath(path)
       case TwoFiles(kind, _, from, to) => (kind == Renamed || kind == Copied) && IsPath(from) && IsPath(to)
  }

  function CodeOf(entry: NameEntry): string {
    [Letter(Says(entry.kind))] + entry.score
  }

  function PathsOf(entry: NameEntry): seq<string> {
    match entry
    case OneFile(_, _, path) => [path]
    case TwoFiles(_, _, from, to) => [from, to]
  }

  function NameChangeOf(entry: NameEntry): FileChange {
    match entry
    case OneFile(kind, _, path) => FileChange(path, None, kind)
    case TwoFiles(kind, _, from, to) => FileChange(to, Some(from), kind)
  }

  // The fields, NUL after each.
  function Terminated(fields: seq<string>): string {
    if fields == [] then [] else fields[0] + [NUL] + Terminated(fields[1..])
  }

  function RenderedNames(entries: seq<NameEntry>): string {
    if entries == [] then [] else Terminated([CodeOf(entries[0])] + PathsOf(entries[0])) + RenderedNames(entries[1..])
  }

  function NameChangesOf(entries: seq<NameEntry>): seq<FileChange> {
    if entries == [] then [] else [NameChangeOf(entries[0])] + NameChangesOf(entries[1..])
  }

  lemma FieldThenRest(field: string, rest: string)
    requires IsPath(field)
    ensures NonEmpty(Split(field + [NUL] + rest, NUL)) == [field] + NonEmpty(Split(rest, NUL))
  {
    SplitFirst(field, NUL, rest);
  }

  // The fields of one entry, then those of the others.
  lemma {:induction false} TerminatedFields(fields: seq<string>, rest: string)
    requires forall i :: 0 <= i < |fields| ==> IsPath(fields[i])
    ensures NonEmpty(Split(Terminated(fields) + rest, NUL)) == fields + NonEmpty(Split(rest, NUL))
  {
    if fields == [] {
      assert Terminated(fields) + rest == rest;
    } else {
      TerminatedFields(fields[1..], rest);
      assert Terminated(fields) + rest == fields[0] + [NUL] + (Terminated(fields[1..]) + rest) by {
        Regrouped(fields[0] + [NUL], Terminated(fields[1..]), rest);
      }
      FieldThenRest(fields[0], Terminated(fields[1..]) + rest);
      var others := NonEmpty(Split(rest, NUL));
      assert [fields[0]] + (fields[1..] + others) == fields + others by {
        Regrouped([fields[0]], fields[1..], others);
        assert [fields[0]] + fields[1..] == fields;
      }
    }
  }

  lemma NameChangesFirst(entry: NameEntry, fields: seq<string>)
    requires IsNameEntry(entry)
    ensures NameChanges([CodeOf(entry)] + PathsOf(entry) + fields) == [NameChangeOf(entry)] + NameChanges(fields)
  {
    LetterReadsBack(Says(entry.kind));
    var all := [CodeOf(entry)] + PathsOf(entry) + fields;
    assert all[1 + |PathsOf(entry)|..] == fields;
  }

  // Whatever files git lists come back with exactly their kinds, paths and old paths.
  lemma {:induction false} NameStatusReadsBack(entries: seq<NameEntry>)
    requires forall i :: 0 <= i < |entries| ==> IsNameEntry(entries[i])
    ensures NameChanges(NonEmpty(Split(RenderedNames(entries), NUL))) == NameChangesOf(entries)
  {
    if entries == [] {
      assert Split([], NUL) == [[]];
    } else {
      var entry, rest := entries[0], entries[1..];
      NameStatusReadsBack(rest);
      LetterReadsBack(Says(entry.kind));
      TerminatedFields([CodeOf(entry)] + PathsOf(entry), RenderedNames(rest));
      NameChangesFirst(entry, NonEmpty(Split(RenderedNames(rest), NUL)));
    }
  }
}
