// The terminals of the Terminal window: opened, split and closed, saved and
// restored.
module TerminalTabs {
  import opened Sequences
  import opened Strings

  datatype TerminalTab = TerminalTab(
    id: string, shellId: string, n: nat, customLabel: Option<string>, groupId: string, cwd: Option<string>)

  datatype SavedTab = SavedTab(shellId: string, n: nat, customLabel: Option<string>, group: int)

  datatype PersistedTerminals = PersistedTerminals(tabs: seq<SavedTab>, active: nat)

  // -- Lists ------------------------------------------------------------------------

  // The elements without repetitions, in the order they first appear.
  function Distinct<T(==,!new)>(s: seq<T>): (d: seq<T>)
    ensures forall x :: x in d <==> x in s
  {
    if s == [] then []
    else
      var front, last := s[..|s| - 1], s[|s| - 1];
      assert s == front + [last];
      if last in front then Distinct(front) else Distinct(front) + [last]
  }

  function Ids(tabs: seq<TerminalTab>): (ids: seq<string>)
    ensures |ids| == |tabs| && forall i :: 0 <= i < |tabs| ==> ids[i] == tabs[i].id
  {
    seq(|tabs|, i requires 0 <= i < |tabs| => tabs[i].id)
  }

  // The place of the terminal `id`: -1 when there is none.
  function Position(tabs: seq<TerminalTab>, id: string): (i: int)
    ensures -1 <= i < |tabs|
    ensures i >= 0 ==> tabs[i].id == id && forall j :: 0 <= j < i ==> tabs[j].id != id
    ensures i == -1 ==> forall tab :: tab in tabs ==> tab.id != id
  {
    var i := IndexOf(Ids(tabs), id);
    assert forall j :: 0 <= j < i ==> Ids(tabs)[..i][j] == tabs[j].id;
    if i == |tabs| then -1 else i
  }

  function GroupIds(tabs: seq<TerminalTab>): (groups: seq<string>)
    ensures |groups| == |tabs| && forall i :: 0 <= i < |tabs| ==> groups[i] == tabs[i].groupId
  {
    seq(|tabs|, i requires 0 <= i < |tabs| => tabs[i].groupId)
  }

  function SavedGroups(tabs: seq<SavedTab>): (groups: seq<int>)
    ensures |groups| == |tabs| && forall i :: 0 <= i < |tabs| ==> groups[i] == tabs[i].group
  {
    seq(|tabs|, i requires 0 <= i < |tabs| => tabs[i].group)
  }

  // -- Saving and restoring ------------------------------------------------------------

  // Each element's place among the distinct ones.
  function Numbered<T(==,!new)>(s: seq<T>): (numbers: seq<int>)
    ensures |numbers| == |s| && forall i :: 0 <= i < |s| ==> numbers[i] == IndexOf(Distinct(s), s[i])
  {
    seq(|s|, i requires 0 <= i < |s| => IndexOf(Distinct(s), s[i]))
  }

  function SavedTabs(tabs: seq<TerminalTab>): (saved: seq<SavedTab>)
    ensures |saved| == |tabs|
  {
    var groups := Numbered(GroupIds(tabs));
    seq(|tabs|, i requires 0 <= i < |tabs| =>
      SavedTab(tabs[i].shellId, tabs[i].n, tabs[i].customLabel, groups[i]))
  }

  function SavedFocus(tabs: seq<TerminalTab>, activeId: Option<string>): (active: nat)
    ensures active == 0 || active < |tabs|
  {
    var active := if activeId.Some? then Position(tabs, activeId.value) else -1;
    if active < 0 then 0 else active
  }

  function ToPersisted(tabs: seq<TerminalTab>, activeId: Option<string>): PersistedTerminals {
    PersistedTerminals(SavedTabs(tabs), SavedFocus(tabs, activeId))
  }

  function Kept(tabs: seq<SavedTab>, shells: seq<string>): (kept: seq<SavedTab>)
    ensures |kept| <= |tabs|
  {
    if tabs == [] then []
    else (if tabs[0].shellId in shells then [tabs[0]] else []) + Kept(tabs[1..], shells)
  }

  // The saved terminals as fresh tabs; `ids` are the ids given to them.
  function RestoredTabs(kept: seq<SavedTab>, ids: seq<string>): (tabs: seq<TerminalTab>)
    requires |ids| == |kept|
    ensures |tabs| == |kept|
  {
    var groups := SavedGroups(kept);
    seq(|kept|, i requires 0 <= i < |kept| =>
      TerminalTab(ids[i], kept[i].shellId, kept[i].n, kept[i].customLabel, ids[IndexOf(groups, groups[i])], None))
  }

  function RestoredFocus(active: nat, ids: seq<string>): Option<string> {
    var index := if active < |ids| then active else |ids| - 1;
    if index >= 0 then Some(ids[index]) else None
  }

  ghost predicate AllDifferent<T(!new)>(s: seq<T>) {
    forall i, j :: 0 <= i < j < |s| ==> s[i] != s[j]
  }

  // The same elements are equal in both.
  ghost predicate SamePattern<S(!new), T(!new)>(s: seq<S>, t: seq<T>) {
    |s| == |t| && forall i, j :: 0 <= i < |s| && 0 <= j < |s| ==> (s[i] == s[j] <==> t[i] == t[j])
  }

  lemma {:induction false} IndexOfAppend<T>(s: seq<T>, last: T, x: T)
    ensures x in s ==> IndexOf(s + [last], x) == IndexOf(s, x)
    ensures last !in s ==> IndexOf(s + [last], last) == |s|
  {
    if s != [] {
      assert (s + [last])[1..] == s[1..] + [last];
      IndexOfAppend(s[1..], last, x);
    }
  }

  lemma PatternOfFront<S(!new), T(!new)>(s: seq<S>, t: seq<T>)
    requires SamePattern(s, t) && s != []
    ensures SamePattern(s[..|s| - 1], t[..|s| - 1])
  {
  }

  lemma {:induction false} SamePatternSameCount<S(!new), T(!new)>(s: seq<S>, t: seq<T>)
    requires SamePattern(s, t)
    ensures |Distinct(s)| == |Distinct(t)|
    decreases |s|
  {
    if s != [] {
      PatternOfFront(s, t);
      SamePatternSameCount(s[..|s| - 1], t[..|s| - 1]);
      LastInFront(s, t);
    }
  }

  // The last element changes no number before it.
  lemma EarlierNumber<T(!new)>(s: seq<T>, x: T)
    requires s != [] && x in s[..|s| - 1]
    ensures IndexOf(Distinct(s), x) == IndexOf(Distinct(s[..|s| - 1]), x)
  {
    IndexOfAppend(Distinct(s[..|s| - 1]), s[|s| - 1], x);
  }

  lemma EarlierNumbers<S(!new), T(!new)>(s: seq<S>, t: seq<T>, i: nat)
    requires |s| == |t| && i < |s| - 1
    requires IndexOf(Distinct(s[..|s| - 1]), s[i]) == IndexOf(Distinct(t[..|t| - 1]), t[i])
    ensures IndexOf(Distinct(s), s[i]) == IndexOf(Distinct(t), t[i])
  {
    assert s[..|s| - 1][i] == s[i] && t[..|t| - 1][i] == t[i];
    EarlierNumber(s, s[i]);
    EarlierNumber(t, t[i]);
  }

  // A last element that is new has the next number.
  lemma NewNumber<T(!new)>(s: seq<T>)
    requires s != [] && s[|s| - 1] !in s[..|s| - 1]
    ensures IndexOf(Distinct(s), s[|s| - 1]) == |Distinct(s[..|s| - 1])|
  {
    IndexOfAppend(Distinct(s[..|s| - 1]), s[|s| - 1], s[|s| - 1]);
  }

  // Numbering by first appearance sees only which elements are equal.
  lemma {:induction false} SamePatternSameNumber<S(!new), T(!new)>(s: seq<S>, t: seq<T>, i: nat)
    requires SamePattern(s, t) && i < |s|
    ensures IndexOf(Distinct(s), s[i]) == IndexOf(Distinct(t), t[i])
    decreases |s|, i
  {
    var k := |s| - 1;
    if i < k {
      PatternOfFront(s, t);
      SamePatternSameNumber(s[..k], t[..k], i);
      EarlierNumbers(s, t, i);
    } else if s[k] in s[..k] {
      var j :| 0 <= j < k && s[..k][j] == s[k];
      assert s[j] == s[k] && t[j] == t[k];
      SamePatternSameNumber(s, t, j);
    } else {
      LastInFront(s, t);
      PatternOfFront(s, t);
      SamePatternSameCount(s[..k], t[..k]);
      NewNumber(s);
      NewNumber(t);
    }
  }

  lemma SamePatternSameNumbers<S(!new), T(!new)>(s: seq<S>, t: seq<T>)
    requires SamePattern(s, t)
    ensures Numbered(s) == Numbered(t)
  {
    forall i | 0 <= i < |s|
      ensures Numbered(s)[i] == Numbered(t)[i]
    {
      SamePatternSameNumber(s, t, i);
    }
  }

  lemma LastInFront<S(!new), T(!new)>(s: seq<S>, t: seq<T>)
    requires SamePattern(s, t) && s != []
    ensures s[|s| - 1] in s[..|s| - 1] <==> t[|t| - 1] in t[..|t| - 1]
  {
    var k := |s| - 1;
    if s[k] in s[..k] {
      var i :| 0 <= i < k && s[..k][i] == s[k];
      assert t[..k][i] == t[k];
    }
    if t[k] in t[..k] {
      var i :| 0 <= i < k && t[..k][i] == t[k];
      assert s[..k][i] == s[k];
    }
  }

  lemma NumbersKeepPattern<T(!new)>(s: seq<T>)
    ensures SamePattern(s, Numbered(s))
  {
    forall i, j | 0 <= i < |s| && 0 <= j < |s|
      ensures s[i] == s[j] <==> Numbered(s)[i] == Numbered(s)[j]
    {
      assert s[i] in Distinct(s) && s[j] in Distinct(s);
    }
  }

  lemma FirstsKeepPattern(groups: seq<int>, ids: seq<string>)
    requires |groups| == |ids| && AllDifferent(ids)
    ensures SamePattern(groups, seq(|groups|, i requires 0 <= i < |groups| => ids[IndexOf(groups, groups[i])]))
  {
  }

  lemma {:induction false} KeptAll(tabs: seq<SavedTab>, shells: seq<string>)
    requires forall i :: 0 <= i < |tabs| ==> tabs[i].shellId in shells
    ensures Kept(tabs, shells) == tabs
  {
    if tabs != [] {
      KeptAll(tabs[1..], shells);
    }
  }

  // -- Opening and closing ---------------------------------------------------------------

  // `tab` shares neither its id nor its shell and number with any of `tabs`.
  ghost predicate IsNew(tab: TerminalTab, tabs: seq<TerminalTab>) {
    forall other :: other in tabs ==>
      other.id != tab.id && (other.shellId != tab.shellId || other.n != tab.n)
  }

  ghost predicate AllNew(tabs: seq<TerminalTab>) {
    tabs == [] || (IsNew(tabs[0], tabs[1..]) && AllNew(tabs[1..]))
  }

  // Ids are unique, and so are pairs of shell and number.
  lemma {:induction false} AllNewMeans(tabs: seq<TerminalTab>, i: nat, j: nat)
    requires AllNew(tabs) && i < j < |tabs|
    ensures tabs[i].id != tabs[j].id
    ensures tabs[i].shellId != tabs[j].shellId || tabs[i].n != tabs[j].n
  {
    if i == 0 {
      assert tabs[1..][j - 1] in tabs[1..];
    } else {
      AllNewMeans(tabs[1..], i - 1, j - 1);
    }
  }

  lemma {:induction false} AllNewSnoc(tabs: seq<TerminalTab>, tab: TerminalTab)
    requires AllNew(tabs) && IsNew(tab, tabs)
    ensures AllNew(tabs + [tab])
  {
    if tabs != [] {
      assert (tabs + [tab])[1..] == tabs[1..] + [tab];
      AllNewSnoc(tabs[1..], tab);
    }
  }

  predicate Has(tabs: seq<TerminalTab>, id: string) {
    Position(tabs, id) >= 0
  }

  function Used(tabs: seq<TerminalTab>, shellId: string): (used: set<nat>) {
    set tab | tab in tabs && tab.shellId == shellId :: tab.n
  }

  function Without(tabs: seq<TerminalTab>, id: string): (next: seq<TerminalTab>)
    ensures forall tab :: tab in next <==> tab in tabs && tab.id != id
    ensures |next| <= |tabs|
  {
    if tabs == [] then []
    else (if tabs[0].id != id then [tabs[0]] else []) + Without(tabs[1..], id)
  }

  function FindGroup(tabs: seq<TerminalTab>, groupId: string): (found: Option<TerminalTab>)
    ensures found.Some? ==> found.value in tabs && found.value.groupId == groupId
    ensures found.None? ==> forall tab :: tab in tabs ==> tab.groupId != groupId
  {
    if tabs == [] then None
    else if tabs[0].groupId == groupId then Some(tabs[0])
    else FindGroup(tabs[1..], groupId)
  }

  function IdAt(tabs: seq<TerminalTab>, i: int): Option<string> {
    if 0 <= i < |tabs| then Some(tabs[i].id) else None
  }

  function OrElse(first: Option<string>, second: Option<string>): Option<string> {
    if first.Some? then first else second
  }

  // The lowest number from 1 on that is free.
  ghost predicate IsLowestFree(used: set<nat>, n: nat) {
    n >= 1 && n !in used && forall m :: 1 <= m < n ==> m in used
  }

  function LowestFree(used: set<nat>): (n: nat)
    ensures IsLowestFree(used, n)
  {
    LowestFreeFrom(used, 1)
  }

  function LowestFreeFrom(used: set<nat>, from: nat): (n: nat)
    requires from >= 1 && forall m :: 1 <= m < from ==> m in used
    ensures IsLowestFree(used, n)
    decreases |used| + 1 - from
  {
    if from !in used then from
    else
      NumberBound(used, from + 1);
      LowestFreeFrom(used, from + 1)
  }

  function UpTo(n: nat): (s: set<nat>)
    ensures forall m :: m in s <==> 1 <= m <= n
    ensures |s| == n
  {
    if n == 0 then {} else UpTo(n - 1) + {n}
  }

  lemma NumberBound(used: set<nat>, n: nat)
    requires n >= 1 && forall m :: 1 <= m < n ==> m in used
    ensures n - 1 <= |used|
  {
    var below := UpTo(n - 1);
    assert below <= used;
    SubsetSize(below, used);
  }

  lemma SubsetSize<T>(a: set<T>, b: set<T>)
    requires a <= b
    ensures |a| <= |b|
  {
    assert b == a + (b - a);
  }

  // Closing keeps the others.
  lemma {:induction false} WithoutKeeps(tabs: seq<TerminalTab>, id: string)
    requires AllNew(tabs)
    ensures AllNew(Without(tabs, id))
  {
    if tabs != [] {
      WithoutKeeps(tabs[1..], id);
      assert IsNew(tabs[0], Without(tabs[1..], id));
      if tabs[0].id == id {
        assert Without(tabs, id) == Without(tabs[1..], id);
      } else {
        assert Without(tabs, id)[1..] == Without(tabs[1..], id);
      }
    }
  }

  // Closing takes one terminal away.
  lemma {:induction false} WithoutCounts(tabs: seq<TerminalTab>, id: string)
    requires AllNew(tabs)
    ensures |Without(tabs, id)| == |tabs| - if Has(tabs, id) then 1 else 0
  {
    if tabs != [] {
      WithoutCounts(tabs[1..], id);
    }
  }

  lemma HasWithout(tabs: seq<TerminalTab>, id: string, other: string)
    requires Has(tabs, other) && other != id
    ensures Has(Without(tabs, id), other)
  {
    assert tabs[Position(tabs, other)] in Without(tabs, id);
  }

  // The focus after closing the focused terminal, `at` before.
  function FocusAfter(next: seq<TerminalTab>, at: int, groupId: string): Option<string> {
    var sibling := FindGroup(next, groupId);
    if sibling.Some? then Some(sibling.value.id)
    else OrElse(IdAt(next, at), OrElse(IdAt(next, at - 1), IdAt(next, 0)))
  }

  // There is one exactly when a terminal is left: one it was split with, else the
  // one that took its place, else the one before it.
  lemma FocusAfterMeans(next: seq<TerminalTab>, at: int, groupId: string)
    requires 0 <= at <= |next|
    ensures var focus := FocusAfter(next, at, groupId);
            && (focus.Some? <==> next != [])
            && (focus.Some? ==> exists i ::
                  && 0 <= i < |next| && next[i].id == focus.value
                  && (next[i].groupId == groupId
                      || ((forall tab :: tab in next ==> tab.groupId != groupId)
                          && i == if at < |next| then at else at - 1)))
  {
    var sibling := FindGroup(next, groupId);
    if sibling.Some? {
      var i :| 0 <= i < |next| && next[i] == sibling.value;
    }
  }

  // -- Ids ----------------------------------------------------------------------------------

  function Dashed(n: nat): string {
    ['-'] + Decimal(n)
  }

  // A new terminal's id, made from the clock.
  function TerminalId(shellId: string, n: nat, now: nat, salt: string): string {
    "term-" + shellId + Dashed(n) + Dashed(now) + salt
  }

  // What an id was made from; the place is a restored terminal's.
  datatype Origin = Origin(shellId: string, n: nat, now: nat, place: Option<nat>)

  function IdOf(o: Origin): string {
    TerminalId(o.shellId, o.n, o.now, if o.place.Some? then Dashed(o.place.value) else "")
  }

  // What follows the last dash tells texts apart.
  lemma DashedIff(a: string, m: nat, b: string, n: nat)
    ensures a + Dashed(m) == b + Dashed(n) <==> a == b && m == n
  {
    if a + Dashed(m) == b + Dashed(n) {
      DecimalHasNo(m, '-');
      DecimalHasNo(n, '-');
      NoLonger(a, Decimal(m), b, Decimal(n));
      NoLonger(b, Decimal(n), a, Decimal(m));
      assert (a + Dashed(m))[..|a|] == a && (b + Dashed(n))[..|b|] == b;
      assert (a + Dashed(m))[|a| + 1..] == Decimal(m) && (b + Dashed(n))[|b| + 1..] == Decimal(n);
      DecimalInjective(m, n);
    }
  }

  lemma NoLonger(a: string, d: string, b: string, e: string)
    requires a + (['-'] + d) == b + (['-'] + e) && '-' !in e
    ensures |e| <= |d|
  {
    var s := a + (['-'] + d);
    assert s[|a|] == '-';
  }

  // A restored terminal's id can be read as that of another shell, whose name ends
  // in the number, opened when the clock read the place.
  predicate ReadsAs(restored: Origin, o: Origin) {
    && restored.place == Some(o.now) && o.place.None?
    && o.shellId == restored.shellId + Dashed(restored.n) && o.n == restored.now
  }

  // Two ids are the same exactly when they were made from the same: in one
  // millisecond for one shell and number. But for that one way to read another's.
  lemma SameIdIff(o: Origin, p: Origin)
    ensures IdOf(o) == IdOf(p) <==> o == p || ReadsAs(o, p) || ReadsAs(p, o)
  {
    SameIdParts(o, p);
    SameShellAndNumberIff(o, p);
    SameShellAndNumberIff(p, o);
  }

  // The part of an id before its clock.
  function Head(o: Origin): string {
    "term-" + o.shellId + Dashed(o.n)
  }

  lemma SameIdParts(o: Origin, p: Origin)
    ensures o.place.None? && p.place.None? ==> (IdOf(o) == IdOf(p) <==> Head(o) == Head(p) && o.now == p.now)
    ensures o.place.Some? && p.place.Some? ==>
              (IdOf(o) == IdOf(p) <==> Head(o) == Head(p) && o.now == p.now && o.place == p.place)
    ensures o.place.Some? && p.place.None? ==>
              (IdOf(o) == IdOf(p) <==> Head(o) + Dashed(o.now) == Head(p) && o.place.value == p.now)
    ensures o.place.None? && p.place.Some? ==>
              (IdOf(o) == IdOf(p) <==> Head(o) == Head(p) + Dashed(p.now) && o.now == p.place.value)
  {
    IdIs(o);
    IdIs(p);
    DashedIff(Head(o), o.now, Head(p), p.now);
    if o.place.Some? {
      DashedIff(Head(o) + Dashed(o.now), o.place.value, Head(p), p.now);
    }
    if p.place.Some? {
      DashedIff(Head(o), o.now, Head(p) + Dashed(p.now), p.place.value);
    }
    if o.place.Some? && p.place.Some? {
      DashedIff(Head(o) + Dashed(o.now), o.place.value, Head(p) + Dashed(p.now), p.place.value);
    }
  }

  lemma IdIs(o: Origin)
    ensures IdOf(o) == if o.place.Some? then Head(o) + Dashed(o.now) + Dashed(o.place.value)
                       else Head(o) + Dashed(o.now)
  {
    assert Head(o) + Dashed(o.now) + "" == Head(o) + Dashed(o.now);
  }

  lemma SameShellAndNumberIff(o: Origin, p: Origin)
    ensures Head(o) == Head(p) <==> o.shellId == p.shellId && o.n == p.n
    ensures Head(o) + Dashed(o.now) == Head(p) <==> p.shellId == o.shellId + Dashed(o.n) && p.n == o.now
  {
    DashedIff("term-" + o.shellId, o.n, "term-" + p.shellId, p.n);
    DashedIff(Head(o), o.now, "term-" + p.shellId, p.n);
    assert ("term-" + o.shellId)[5..] == o.shellId && ("term-" + p.shellId)[5..] == p.shellId;
    Regrouped("term-", o.shellId, Dashed(o.n));
    assert ("term-" + (o.shellId + Dashed(o.n)))[5..] == o.shellId + Dashed(o.n);
  }

  // -- What is restored ---------------------------------------------------------------------

  // What the ids given on restoring are made from, whatever the clock says at each.
  function RestoredOrigin(kept: seq<SavedTab>, clock: nat -> nat, i: nat): Origin
    requires i < |kept|
  {
    Origin(kept[i].shellId, kept[i].n, clock(i), Some(i))
  }

  function RestoredIds(kept: seq<SavedTab>, clock: nat -> nat): (ids: seq<string>)
    ensures |ids| == |kept|
  {
    seq(|kept|, i requires 0 <= i < |kept| => IdOf(RestoredOrigin(kept, clock, i)))
  }

  lemma RestoredIdsDiffer(kept: seq<SavedTab>, clock: nat -> nat)
    ensures AllDifferent(RestoredIds(kept, clock))
  {
    var ids := RestoredIds(kept, clock);
    forall i, j | 0 <= i < j < |ids|
      ensures ids[i] != ids[j]
    {
      SameIdIff(RestoredOrigin(kept, clock, i), RestoredOrigin(kept, clock, j));
    }
  }

  // -- What comes back ------------------------------------------------------------------------

  // The records with their groups numbered anew, by first appearance.
  function Renumbered(kept: seq<SavedTab>): (records: seq<SavedTab>)
    ensures |records| == |kept|
  {
    var groups := Numbered(SavedGroups(kept));
    seq(|kept|, i requires 0 <= i < |kept| => kept[i].(group := groups[i]))
  }

  lemma KeptComesBack(kept: seq<SavedTab>, ids: seq<string>)
    requires |ids| == |kept| && AllDifferent(ids)
    ensures SavedTabs(RestoredTabs(kept, ids)) == Renumbered(kept)
  {
    var groups, tabs := SavedGroups(kept), RestoredTabs(kept, ids);
    var restored := seq(|groups|, i requires 0 <= i < |groups| => ids[IndexOf(groups, groups[i])]);
    assert GroupIds(tabs) == restored;
    FirstsKeepPattern(groups, ids);
    SamePatternSameNumbers(groups, restored);
    forall i | 0 <= i < |kept|
      ensures SavedTabs(tabs)[i] == Renumbered(kept)[i]
    {
      assert tabs[i].shellId == kept[i].shellId && tabs[i].n == kept[i].n;
      assert tabs[i].customLabel == kept[i].customLabel;
    }
  }

  lemma SavedIsNumbered(tabs: seq<TerminalTab>)
    ensures Renumbered(SavedTabs(tabs)) == SavedTabs(tabs)
  {
    var groups := GroupIds(tabs);
    assert SavedGroups(SavedTabs(tabs)) == Numbered(groups);
    NumbersKeepPattern(groups);
    SamePatternSameNumbers(groups, Numbered(groups));
  }

  lemma FocusComesBack(tabs: seq<TerminalTab>, active: nat, ids: seq<string>)
    requires |tabs| == |ids| && AllDifferent(ids)
    requires forall i :: 0 <= i < |ids| ==> tabs[i].id == ids[i]
    requires active == 0 || active < |ids|
    ensures SavedFocus(tabs, RestoredFocus(active, ids)) == active
  {
  }

  lemma KeptSaved(tabs: seq<TerminalTab>, shells: seq<string>)
    requires forall tab :: tab in tabs ==> tab.shellId in shells
    ensures Kept(SavedTabs(tabs), shells) == SavedTabs(tabs)
  {
    KeptAll(SavedTabs(tabs), shells);
  }

  lemma SavedFocusComesBack(tabs: seq<TerminalTab>, active: nat, ids: seq<string>)
    requires |tabs| == |ids| && AllDifferent(ids) && (active == 0 || active < |ids|)
    ensures SavedFocus(RestoredTabs(SavedTabs(tabs), ids), RestoredFocus(active, ids)) == active
  {
    FocusComesBack(RestoredTabs(SavedTabs(tabs), ids), active, ids);
  }

  // Saving, restoring and saving again gives the records of the shells still there,
  // in order, their groups numbered anew; with every shell there the same record,
  // its focus included.
  lemma SavedComesBack(tabs: seq<TerminalTab>, activeId: Option<string>, shells: seq<string>, clock: nat -> nat)
    ensures var saved := ToPersisted(tabs, activeId);
            var kept := Kept(saved.tabs, shells);
            var ids := RestoredIds(kept, clock);
            && SavedTabs(RestoredTabs(kept, ids)) == Renumbered(kept)
            && ((forall tab :: tab in tabs ==> tab.shellId in shells) ==>
                  && kept == saved.tabs
                  && ToPersisted(RestoredTabs(kept, ids), RestoredFocus(saved.active, ids)) == saved)
  {
    var kept := Kept(SavedTabs(tabs), shells);
    var ids := RestoredIds(kept, clock);
    RestoredIdsDiffer(kept, clock);
    KeptComesBack(kept, ids);
    if forall tab :: tab in tabs ==> tab.shellId in shells {
      KeptSaved(tabs, shells);
      SavedIsNumbered(tabs);
      SavedFocusComesBack(tabs, SavedFocus(tabs, activeId), ids);
    }
  }

  // Where the record at `at` comes to stand when it is kept.
  function KeptPlace(tabs: seq<SavedTab>, at: nat, shells: seq<string>): nat
    requires at <= |tabs|
  {
    |Kept(tabs[..at], shells)|
  }

  lemma {:induction false} KeptConcat(a: seq<SavedTab>, b: seq<SavedTab>, shells: seq<string>)
    ensures Kept(a + b, shells) == Kept(a, shells) + Kept(b, shells)
  {
    if a == [] {
      assert a + b == b;
    } else {
      assert (a + b)[1..] == a[1..] + b;
      KeptConcat(a[1..], b, shells);
      var first := if a[0].shellId in shells then [a[0]] else [];
      Regrouped(first, Kept(a[1..], shells), Kept(b, shells));
    }
  }

  lemma {:induction false} KeptCounts(tabs: seq<SavedTab>, shells: seq<string>)
    ensures |Kept(tabs, shells)| == |tabs| <==> forall tab :: tab in tabs ==> tab.shellId in shells
    ensures Kept(tabs, shells) == [] <==> forall tab :: tab in tabs ==> tab.shellId !in shells
  {
    if tabs != [] {
      KeptCounts(tabs[1..], shells);
      assert tabs == [tabs[0]] + tabs[1..];
    }
  }

  lemma KeptAround(tabs: seq<SavedTab>, at: nat, shells: seq<string>)
    requires at < |tabs| && tabs[at].shellId in shells
    ensures Kept(tabs, shells) == Kept(tabs[..at], shells) + [tabs[at]] + Kept(tabs[at + 1..], shells)
  {
    assert tabs == tabs[..at] + ([tabs[at]] + tabs[at + 1..]);
    KeptConcat(tabs[..at], [tabs[at]] + tabs[at + 1..], shells);
    KeptConcat([tabs[at]], tabs[at + 1..], shells);
    assert Kept([tabs[at]], shells) == [tabs[at]];
  }

  // The focus restored is on the terminal whose record was at `at`.
  predicate IsFocusedAgain(tabs: seq<SavedTab>, at: nat, shells: seq<string>, clock: nat -> nat)
    requires at < |tabs|
  {
    var ids := RestoredIds(Kept(tabs, shells), clock);
    && tabs[at].shellId in shells && KeptPlace(tabs, at, shells) < |ids|
    && RestoredFocus(at, ids) == Some(ids[KeptPlace(tabs, at, shells)])
  }

  // The place saved for the focus is one among all the records. So the focus comes
  // back if and only if its shell is there, and so is every one before it or none
  // after it.
  lemma FocusComesBackIff(tabs: seq<TerminalTab>, id: string, shells: seq<string>, clock: nat -> nat)
    requires Has(tabs, id)
    ensures var at, saved := Position(tabs, id), SavedTabs(tabs);
            && SavedFocus(tabs, Some(id)) == at
            && (IsFocusedAgain(saved, at, shells, clock) <==>
                  saved[at].shellId in shells && (AllThere(saved, 0, at, shells) || NoneThere(saved, at + 1, shells)))
  {
    RecordIsFocusedIff(SavedTabs(tabs), Position(tabs, id), shells, clock);
  }

  lemma RecordIsFocusedIff(tabs: seq<SavedTab>, at: nat, shells: seq<string>, clock: nat -> nat)
    requires at < |tabs|
    ensures IsFocusedAgain(tabs, at, shells, clock) <==>
            tabs[at].shellId in shells && (AllThere(tabs, 0, at, shells) || NoneThere(tabs, at + 1, shells))
  {
    if tabs[at].shellId in shells {
      PlaceIsFocusedIff(tabs, at, shells, clock);
      SliceKept(tabs, 0, at, shells);
      SliceKept(tabs, at + 1, |tabs|, shells);
      assert tabs[0..at] == tabs[..at] && tabs[at + 1..|tabs|] == tabs[at + 1..];
    }
  }

  predicate AllThere(tabs: seq<SavedTab>, from: nat, to: nat, shells: seq<string>)
    requires to <= |tabs|
  {
    forall i :: from <= i < to ==> tabs[i].shellId in shells
  }

  predicate NoneThere(tabs: seq<SavedTab>, from: nat, shells: seq<string>) {
    forall i :: from <= i < |tabs| ==> tabs[i].shellId !in shells
  }

  // The same of the records between two places.
  lemma SliceKept(tabs: seq<SavedTab>, from: nat, to: nat, shells: seq<string>)
    requires from <= to <= |tabs|
    ensures |Kept(tabs[from..to], shells)| == to - from <==> AllThere(tabs, from, to, shells)
    ensures to == |tabs| ==> (Kept(tabs[from..to], shells) == [] <==> NoneThere(tabs, from, shells))
  {
    var slice := tabs[from..to];
    KeptCounts(slice, shells);
    forall i | from <= i < to
      ensures tabs[i] in slice
    {
      assert slice[i - from] == tabs[i];
    }
  }

  lemma PlaceIsFocusedIff(tabs: seq<SavedTab>, at: nat, shells: seq<string>, clock: nat -> nat)
    requires at < |tabs| && tabs[at].shellId in shells
    ensures IsFocusedAgain(tabs, at, shells, clock) <==>
            |Kept(tabs[..at], shells)| == at || Kept(tabs[at + 1..], shells) == []
  {
    var kept := Kept(tabs, shells);
    var ids := RestoredIds(kept, clock);
    KeptAround(tabs, at, shells);
    RestoredIdsDiffer(kept, clock);
    var place, index := KeptPlace(tabs, at, shells), if at < |ids| then at else |ids| - 1;
    assert place <= at && (ids[index] == ids[place] <==> index == place);
  }

  // Three terminals, the second focused: when the first one's shell is gone, the
  // third is focused.
  lemma FocusMovesOn(
    first: TerminalTab, second: TerminalTab, third: TerminalTab, shells: seq<string>, clock: nat -> nat)
    requires first.id != second.id
    requires first.shellId !in shells && second.shellId in shells && third.shellId in shells
    ensures var saved := ToPersisted([first, second, third], Some(second.id));
            var kept := Kept(saved.tabs, shells);
            && kept == saved.tabs[1..]
            && RestoredFocus(saved.active, RestoredIds(kept, clock)) == Some(RestoredIds(kept, clock)[1])
  {
    var tabs := [first, second, third];
    var saved := SavedTabs(tabs);
    assert Position(tabs, second.id) == 1;
    assert saved[1..][1..] == [saved[2]] && saved[2..][1..] == [];
    assert Kept([saved[2]], shells) == [saved[2]];
    assert Kept(saved[1..], shells) == [saved[1]] + [saved[2]];
  }

  // No two records are of one shell and number.
  ghost predicate PairsDiffer(tabs: seq<SavedTab>) {
    tabs == []
    || ((forall other :: other in tabs[1..] ==> other.shellId != tabs[0].shellId || other.n != tabs[0].n)
        && PairsDiffer(tabs[1..]))
  }

  lemma {:induction false} KeptIn(tabs: seq<SavedTab>, shells: seq<string>)
    ensures forall tab :: tab in Kept(tabs, shells) ==> tab in tabs
  {
    if tabs != [] {
      KeptIn(tabs[1..], shells);
    }
  }

  lemma {:induction false} KeptDiffer(tabs: seq<SavedTab>, shells: seq<string>)
    requires PairsDiffer(tabs)
    ensures PairsDiffer(Kept(tabs, shells))
  {
    if tabs != [] {
      KeptDiffer(tabs[1..], shells);
      KeptIn(tabs[1..], shells);
      if tabs[0].shellId in shells {
        assert Kept(tabs, shells)[1..] == Kept(tabs[1..], shells);
      } else {
        assert Kept(tabs, shells) == Kept(tabs[1..], shells);
      }
    }
  }

  // The pairs of some records, read at their places.
  lemma {:induction false} PairsDifferAt(tabs: seq<SavedTab>, i: nat, j: nat)
    requires PairsDiffer(tabs) && i < j < |tabs|
    ensures tabs[i].shellId != tabs[j].shellId || tabs[i].n != tabs[j].n
  {
    if i == 0 {
      assert tabs[1..][j - 1] in tabs[1..];
    } else {
      PairsDifferAt(tabs[1..], i - 1, j - 1);
    }
  }

  lemma {:induction false} DifferFromPlaces(tabs: seq<SavedTab>)
    requires forall i, j :: 0 <= i < j < |tabs| ==> tabs[i].shellId != tabs[j].shellId || tabs[i].n != tabs[j].n
    ensures PairsDiffer(tabs)
  {
    if tabs != [] {
      DifferFromPlaces(tabs[1..]);
    }
  }

  lemma {:induction false} NewFromPlaces(tabs: seq<TerminalTab>)
    requires forall i, j :: 0 <= i < j < |tabs| ==>
               && tabs[i].id != tabs[j].id
               && (tabs[i].shellId != tabs[j].shellId || tabs[i].n != tabs[j].n)
    ensures AllNew(tabs)
  {
    if tabs != [] {
      NewFromPlaces(tabs[1..]);
    }
  }

  // -- Runs --------------------------------------------------------------------------------

  // The terminals open, and the focused one.
  datatype Open = Open(tabs: seq<TerminalTab>, activeId: Option<string>)

  const NO_TERMINALS := Open([], None)

  // A new terminal of `shellId`, in a group of its own or in `groupId`.
  function Added(s: Open, shellId: string, groupId: Option<string>, cwd: Option<string>, now: nat): Open {
    var n := LowestFree(Used(s.tabs, shellId));
    var id := TerminalId(shellId, n, now, "");
    Open(s.tabs + [TerminalTab(id, shellId, n, None, if groupId.Some? then groupId.value else id, cwd)], Some(id))
  }

  function FocusedTab(s: Open): (tab: Option<TerminalTab>)
    ensures tab.Some? ==> tab.value in s.tabs
  {
    var at := if s.activeId.Some? then Position(s.tabs, s.activeId.value) else -1;
    if at >= 0 then Some(s.tabs[at]) else None
  }

  // Another terminal of the focused one's shell beside it, when that shell is
  // still there, else of the first shell.
  function SplitOff(s: Open, shells: seq<string>, now: nat): Open {
    var active := FocusedTab(s);
    if active.None? || shells == [] then s
    else
      var shellId := if active.value.shellId in shells then active.value.shellId else shells[0];
      Added(s, shellId, Some(active.value.groupId), None, now)
  }

  // A terminal closed; the focus stays unless it was on that one.
  function Closed(s: Open, id: string): Open {
    var at := Position(s.tabs, id);
    var next := Without(s.tabs, id);
    Open(next,
         if s.activeId != Some(id) then s.activeId
         else if at == -1 then IdAt(next, 0)
         else FocusAfter(next, at, s.tabs[at].groupId))
  }

  function Focused(s: Open, i: nat): Open {
    if i < |s.tabs| then s.(activeId := Some(s.tabs[i].id)) else s
  }

  // What is saved is opened again, of the shells still there. With none, what is
  // open stays, or one terminal of the first shell starts.
  function Restored(
    s: Open, saved: Option<PersistedTerminals>, shells: seq<string>, clock: nat -> nat, now: nat): Open
  {
    var kept := if saved.Some? then Kept(saved.value.tabs, shells) else [];
    if kept != [] then
      var ids := RestoredIds(kept, clock);
      Open(RestoredTabs(kept, ids), RestoredFocus(saved.value.active, ids))
    else if s.tabs == [] && shells != [] then Added(s, shells[0], None, None, now)
    else s
  }

  datatype Event =
    | Adds(shellId: string, groupId: Option<string>, cwd: Option<string>, now: nat)
    | Splits(shells: seq<string>, now: nat)
    | Closes(id: string)
    | Focuses(i: nat)
    | Restores(saved: Option<PersistedTerminals>, shells: seq<string>, clock: nat -> nat, now: nat)

  function Next(s: Open, event: Event): Open {
    match event
    case Adds(shellId, groupId, cwd, now) => Added(s, shellId, groupId, cwd, now)
    case Splits(shells, now) => SplitOff(s, shells, now)
    case Closes(id) => Closed(s, id)
    case Focuses(i) => Focused(s, i)
    case Restores(saved, shells, clock, now) => Restored(s, saved, shells, clock, now)
  }

  function After(events: seq<Event>): Open {
    if events == [] then NO_TERMINALS
    else Next(After(events[..|events| - 1]), events[|events| - 1])
  }

  // The tab's id was made for its shell and number, by a place below `start` if it
  // was restored.
  ghost predicate IsMade(tab: TerminalTab, start: nat) {
    exists o: Origin ::
      && tab.id == IdOf(o) && o.shellId == tab.shellId && o.n == tab.n
      && (o.place.Some? ==> o.place.value < start)
  }

  // What every operation keeps of the terminals and the focus.
  ghost predicate Consistent(s: Open, start: nat) {
    && AllNew(s.tabs) && (forall tab :: tab in s.tabs ==> IsMade(tab, start))
    && (s.activeId.Some? <==> s.tabs != [])
    && (s.activeId.Some? ==> Has(s.tabs, s.activeId.value))
  }

  // From `start` on as the clock counts, milliseconds since 1970: more of them
  // than terminals were ever saved.
  ghost predicate IsLate(event: Event, start: nat) {
    match event
    case Adds(_, _, _, now) => now >= start
    case Splits(_, now) => now >= start
    case Restores(saved, _, _, now) => now >= start && (saved.Some? ==> |saved.value.tabs| <= start)
    case _ => true
  }

  // And what is saved is of different terminals.
  ghost predicate Fits(event: Event, start: nat) {
    IsLate(event, start) && (event.Restores? && event.saved.Some? ==> PairsDiffer(event.saved.value.tabs))
  }

  lemma AddedIsNew(tabs: seq<TerminalTab>, tab: TerminalTab, now: nat, start: nat)
    requires forall other :: other in tabs ==> IsMade(other, start)
    requires now >= start && tab.id == TerminalId(tab.shellId, tab.n, now, "")
    requires tab.n !in Used(tabs, tab.shellId)
    ensures IsNew(tab, tabs) && IsMade(tab, start)
  {
    var o := Origin(tab.shellId, tab.n, now, None);
    assert tab.id == IdOf(o);
    forall other | other in tabs
      ensures other.id != tab.id && (other.shellId != tab.shellId || other.n != tab.n)
    {
      var p: Origin :| other.id == IdOf(p) && p.shellId == other.shellId && p.n == other.n
                       && (p.place.Some? ==> p.place.value < start);
      SameIdIff(p, o);
    }
  }

  lemma AddedIsConsistent(s: Open, shellId: string, groupId: Option<string>, cwd: Option<string>, now: nat, start: nat)
    requires Consistent(s, start) && now >= start
    ensures Consistent(Added(s, shellId, groupId, cwd, now), start)
  {
    var n := LowestFree(Used(s.tabs, shellId));
    var id := TerminalId(shellId, n, now, "");
    var tab := TerminalTab(id, shellId, n, None, if groupId.Some? then groupId.value else id, cwd);
    AddedIsNew(s.tabs, tab, now, start);
    NewIsConsistent(s, tab, start);
  }

  lemma NewIsConsistent(s: Open, tab: TerminalTab, start: nat)
    requires Consistent(s, start) && IsNew(tab, s.tabs) && IsMade(tab, start)
    ensures Consistent(Open(s.tabs + [tab], Some(tab.id)), start)
  {
    AllNewSnoc(s.tabs, tab);
    assert tab in s.tabs + [tab];
  }

  lemma ClosedIsConsistent(s: Open, id: string, start: nat)
    requires Consistent(s, start)
    ensures Consistent(Closed(s, id), start)
  {
    var at, next := Position(s.tabs, id), Without(s.tabs, id);
    WithoutKeeps(s.tabs, id);
    WithoutCounts(s.tabs, id);
    if s.activeId == Some(id) {
      FocusAfterMeans(next, at, s.tabs[at].groupId);
    } else if s.activeId.Some? {
      HasWithout(s.tabs, id, s.activeId.value);
    }
  }

  // Restored terminals are consistent exactly when those kept of the record are of
  // different shells or numbers.
  lemma RestoredIsConsistentIff(kept: seq<SavedTab>, active: nat, clock: nat -> nat, start: nat)
    requires |kept| <= start
    ensures var ids := RestoredIds(kept, clock);
            Consistent(Open(RestoredTabs(kept, ids), RestoredFocus(active, ids)), start) <==> PairsDiffer(kept)
  {
    FocusIsRestored(kept, RestoredIds(kept, clock), active);
    RestoredAreMade(kept, clock, start);
    RestoredAreNewIff(kept, clock);
  }

  lemma RestoredAreMade(kept: seq<SavedTab>, clock: nat -> nat, start: nat)
    requires |kept| <= start
    ensures forall tab :: tab in RestoredTabs(kept, RestoredIds(kept, clock)) ==> IsMade(tab, start)
  {
    var tabs := RestoredTabs(kept, RestoredIds(kept, clock));
    forall i | 0 <= i < |tabs|
      ensures IsMade(tabs[i], start)
    {
      assert tabs[i].id == IdOf(RestoredOrigin(kept, clock, i));
    }
  }

  lemma RestoredAreNewIff(kept: seq<SavedTab>, clock: nat -> nat)
    ensures AllNew(RestoredTabs(kept, RestoredIds(kept, clock))) <==> PairsDiffer(kept)
  {
    var tabs := RestoredTabs(kept, RestoredIds(kept, clock));
    if PairsDiffer(kept) {
      RestoredAreNew(kept, clock);
    }
    if AllNew(tabs) {
      forall i, j | 0 <= i < j < |kept|
        ensures kept[i].shellId != kept[j].shellId || kept[i].n != kept[j].n
      {
        AllNewMeans(tabs, i, j);
      }
      DifferFromPlaces(kept);
    }
  }

  lemma RestoredAreNew(kept: seq<SavedTab>, clock: nat -> nat)
    requires PairsDiffer(kept)
    ensures AllNew(RestoredTabs(kept, RestoredIds(kept, clock)))
  {
    var tabs := RestoredTabs(kept, RestoredIds(kept, clock));
    RestoredIdsDiffer(kept, clock);
    forall i, j | 0 <= i < j < |tabs|
      ensures tabs[i].id != tabs[j].id
      ensures tabs[i].shellId != tabs[j].shellId || tabs[i].n != tabs[j].n
    {
      PairsDifferAt(kept, i, j);
    }
    NewFromPlaces(tabs);
  }

  lemma FocusIsRestored(kept: seq<SavedTab>, ids: seq<string>, active: nat)
    requires |ids| == |kept|
    ensures var tabs, focus := RestoredTabs(kept, ids), RestoredFocus(active, ids);
            (focus.Some? <==> tabs != []) && (focus.Some? ==> Has(tabs, focus.value))
  {
    var tabs, focus := RestoredTabs(kept, ids), RestoredFocus(active, ids);
    if focus.Some? {
      var index := if active < |ids| then active else |ids| - 1;
      assert tabs[index] in tabs && tabs[index].id == focus.value;
    }
  }

  // What consistent terminals save can be restored, whatever shells are gone by then.
  lemma SavedPairsDiffer(s: Open, start: nat)
    requires Consistent(s, start)
    ensures PairsDiffer(SavedTabs(s.tabs))
  {
    forall i, j | 0 <= i < j < |s.tabs|
      ensures SavedTabs(s.tabs)[i].shellId != SavedTabs(s.tabs)[j].shellId
              || SavedTabs(s.tabs)[i].n != SavedTabs(s.tabs)[j].n
    {
      AllNewMeans(s.tabs, i, j);
    }
    DifferFromPlaces(SavedTabs(s.tabs));
  }

  lemma StepKeepsConsistent(s: Open, event: Event, start: nat)
    requires Consistent(s, start) && Fits(event, start)
    ensures Consistent(Next(s, event), start)
  {
    match event
    case Adds(shellId, groupId, cwd, now) => AddedIsConsistent(s, shellId, groupId, cwd, now, start);
    case Splits(shells, now) =>
      var active := FocusedTab(s);
      if active.Some? && shells != [] {
        var shellId := if active.value.shellId in shells then active.value.shellId else shells[0];
        AddedIsConsistent(s, shellId, Some(active.value.groupId), None, now, start);
      }
    case Closes(id) => ClosedIsConsistent(s, id, start);
    case Focuses(i) =>
      if i < |s.tabs| {
        assert s.tabs[i] in s.tabs;
      }
    case Restores(saved, shells, clock, now) =>
      var kept := if saved.Some? then Kept(saved.value.tabs, shells) else [];
      if kept != [] {
        KeptDiffer(saved.value.tabs, shells);
        RestoredIsConsistentIff(kept, saved.value.active, clock, start);
      } else if s.tabs == [] && shells != [] {
        AddedIsConsistent(s, shells[0], None, None, now, start);
      }
  }

  // After any run ids are unique, so are pairs of shell and number, and a terminal
  // that is there is focused exactly when any is.
  lemma {:induction false} RunIsConsistent(events: seq<Event>, start: nat)
    requires forall i :: 0 <= i < |events| ==> Fits(events[i], start)
    ensures Consistent(After(events), start)
  {
    if events != [] {
      RunIsConsistent(events[..|events| - 1], start);
      StepKeepsConsistent(After(events[..|events| - 1]), events[|events| - 1], start);
    }
  }

  // -- What opening and closing do ------------------------------------------------------------

  // `tab` is the one terminal more of `next`, and focused.
  ghost predicate IsOneMore(s: Open, next: Open, tab: TerminalTab) {
    && next.tabs == s.tabs + [tab] && next.activeId == Some(tab.id)
    && IsLowestFree(Used(s.tabs, tab.shellId), tab.n)
    && tab.customLabel == None
  }

  // A terminal starts a group of its own unless it is told to join one.
  lemma AddedIsOneMore(s: Open, shellId: string, groupId: Option<string>, cwd: Option<string>, now: nat)
    ensures exists tab ::
              && IsOneMore(s, Added(s, shellId, groupId, cwd, now), tab)
              && tab.shellId == shellId && tab.cwd == cwd && tab.id == TerminalId(shellId, tab.n, now, "")
              && (groupId.None? ==> tab.groupId == tab.id) && (groupId.Some? ==> tab.groupId == groupId.value)
  {
    var next := Added(s, shellId, groupId, cwd, now);
    assert IsOneMore(s, next, next.tabs[|s.tabs|]);
  }

  // Splitting opens one in the focused terminal's group: of its shell when that is
  // still there, else of the first. With nothing focused or no shell nothing happens.
  lemma SplitIsBeside(s: Open, shells: seq<string>, now: nat, at: nat)
    requires at < |s.tabs| && s.activeId == Some(s.tabs[at].id)
    requires forall k :: 0 <= k < at ==> s.tabs[k].id != s.tabs[at].id
    ensures shells == [] ==> SplitOff(s, shells, now) == s
    ensures shells != [] ==> exists tab ::
              && IsOneMore(s, SplitOff(s, shells, now), tab)
              && tab.groupId == s.tabs[at].groupId && tab.cwd == None
              && (s.tabs[at].shellId in shells ==> tab.shellId == s.tabs[at].shellId)
              && (s.tabs[at].shellId !in shells ==> tab.shellId == shells[0])
  {
    assert Position(s.tabs, s.tabs[at].id) == at;
    if shells != [] {
      var next := SplitOff(s, shells, now);
      assert IsOneMore(s, next, next.tabs[|s.tabs|]);
    }
  }

  lemma SplitOfNothing(s: Open, shells: seq<string>, now: nat)
    requires s.activeId.None? || forall tab :: tab in s.tabs ==> Some(tab.id) != s.activeId
    ensures SplitOff(s, shells, now) == s
  {
  }

  // Closing takes exactly that terminal, and moves the focus only off it.
  lemma ClosedIsGone(s: Open, id: string)
    ensures var next := Closed(s, id);
            && next.tabs == Without(s.tabs, id)
            && (s.activeId != Some(id) ==> next.activeId == s.activeId)
            && (s.activeId == Some(id) && Has(s.tabs, id) ==>
                  var at := Position(s.tabs, id);
                  next.activeId == FocusAfter(next.tabs, at, s.tabs[at].groupId))
    ensures forall at :: 0 <= at < |s.tabs| && s.tabs[at].id == id && AllNew(s.tabs) ==>
              Closed(s, id).tabs == s.tabs[..at] + s.tabs[at + 1..]
  {
    forall at | 0 <= at < |s.tabs| && s.tabs[at].id == id && AllNew(s.tabs)
      ensures Without(s.tabs, id) == s.tabs[..at] + s.tabs[at + 1..]
    {
      WithoutOne(s.tabs, at);
    }
  }

  lemma {:induction false} WithoutOne(tabs: seq<TerminalTab>, at: nat)
    requires AllNew(tabs) && at < |tabs|
    ensures Without(tabs, tabs[at].id) == tabs[..at] + tabs[at + 1..]
  {
    var rest := tabs[1..];
    if at == 0 {
      WithoutNone(rest, tabs[0].id);
    } else {
      assert rest[at - 1] == tabs[at] && tabs[at] in rest;
      WithoutOne(rest, at - 1);
      assert Without(tabs, tabs[at].id) == [tabs[0]] + Without(rest, tabs[at].id);
      FirstStays(tabs, at);
    }
  }

  lemma FirstStays<T>(s: seq<T>, at: nat)
    requires 0 < at < |s|
    ensures [s[0]] + (s[1..][..at - 1] + s[1..][at..]) == s[..at] + s[at + 1..]
  {
  }

  lemma {:induction false} WithoutNone(tabs: seq<TerminalTab>, id: string)
    requires forall tab :: tab in tabs ==> tab.id != id
    ensures Without(tabs, id) == tabs
  {
    if tabs != [] {
      WithoutNone(tabs[1..], id);
    }
  }

  // -- Ids over a run ------------------------------------------------------------------------

  function AddedOrigin(s: Open, shellId: string, now: nat): Origin {
    Origin(shellId, LowestFree(Used(s.tabs, shellId)), now, None)
  }

  // What the ids of the terminals that one event opens are made from.
  function OriginsOf(s: Open, event: Event): seq<Origin> {
    match event
    case Adds(shellId, _, _, now) => [AddedOrigin(s, shellId, now)]
    case Splits(shells, now) =>
      var active := FocusedTab(s);
      if active.None? || shells == [] then []
      else [AddedOrigin(s, if active.value.shellId in shells then active.value.shellId else shells[0], now)]
    case Restores(saved, shells, clock, now) =>
      var kept := if saved.Some? then Kept(saved.value.tabs, shells) else [];
      if kept != [] then seq(|kept|, i requires 0 <= i < |kept| => RestoredOrigin(kept, clock, i))
      else if s.tabs == [] && shells != [] then [AddedOrigin(s, shells[0], now)]
      else []
    case _ => []
  }

  // The same of all the terminals a run opens, in turn.
  function Given(events: seq<Event>): seq<Origin> {
    if events == [] then []
    else
      var front, last := events[..|events| - 1], events[|events| - 1];
      Given(front) + OriginsOf(After(front), last)
  }

  // The ids of the terminals that are there were given.
  lemma {:induction false} TabsWereGiven(events: seq<Event>)
    ensures forall tab :: tab in After(events).tabs ==> exists o :: o in Given(events) && tab.id == IdOf(o)
  {
    if events != [] {
      var front, last := events[..|events| - 1], events[|events| - 1];
      TabsWereGiven(front);
      forall tab | tab in After(events).tabs && tab !in After(front).tabs
        ensures exists o :: o in OriginsOf(After(front), last) && tab.id == IdOf(o)
      {
        NewWasGiven(After(front), last, tab);
      }
    }
  }

  lemma NewWasGiven(s: Open, event: Event, tab: TerminalTab)
    requires tab in Next(s, event).tabs && tab !in s.tabs
    ensures exists o :: o in OriginsOf(s, event) && tab.id == IdOf(o)
  {
    var kept := if event.Restores? && event.saved.Some? then Kept(event.saved.value.tabs, event.shells) else [];
    if kept != [] {
      var i := RestoredPlace(kept, event.clock, tab);
      assert OriginsOf(s, event)[i] in OriginsOf(s, event);
    } else {
      assert tab.id == IdOf(OriginsOf(s, event)[0]);
    }
  }

  lemma RestoredPlace(kept: seq<SavedTab>, clock: nat -> nat, tab: TerminalTab) returns (i: nat)
    requires tab in RestoredTabs(kept, RestoredIds(kept, clock))
    ensures i < |kept| && tab.id == IdOf(RestoredOrigin(kept, clock, i))
  {
    i :| 0 <= i < |kept| && RestoredTabs(kept, RestoredIds(kept, clock))[i] == tab;
  }

  ghost predicate IsTimely(o: Origin, start: nat) {
    if o.place.Some? then o.place.value < start else o.now >= start
  }

  lemma OriginsAreTimely(s: Open, event: Event, start: nat)
    requires IsLate(event, start)
    ensures forall o :: o in OriginsOf(s, event) ==> IsTimely(o, start)
  {
    match event
    case Restores(saved, shells, clock, now) =>
      var kept := if saved.Some? then Kept(saved.value.tabs, shells) else [];
      if kept != [] {
        assert |kept| <= start;
        var origins := OriginsOf(s, event);
        assert |origins| == |kept|;
        forall i | 0 <= i < |origins|
          ensures IsTimely(origins[i], start)
        {
          assert origins[i] == RestoredOrigin(kept, clock, i);
        }
      }
    case _ =>
  }

  lemma {:induction false} GivenAreTimely(events: seq<Event>, start: nat)
    requires forall i :: 0 <= i < |events| ==> IsLate(events[i], start)
    ensures forall o :: o in Given(events) ==> IsTimely(o, start)
  {
    if events != [] {
      var front, last := events[..|events| - 1], events[|events| - 1];
      GivenAreTimely(front, start);
      assert IsLate(last, start);
      OriginsAreTimely(After(front), last, start);
    }
  }

  // Ids are meant never to be given twice. One is exactly when it is given for a
  // shell and a number that were given one in the same millisecond already.
  lemma GivenAgainIff(events: seq<Event>, start: nat, i: nat, j: nat)
    requires forall i :: 0 <= i < |events| ==> IsLate(events[i], start)
    requires i < j < |Given(events)|
    ensures IdOf(Given(events)[i]) == IdOf(Given(events)[j]) <==> Given(events)[i] == Given(events)[j]
  {
    GivenAreTimely(events, start);
    assert Given(events)[i] in Given(events) && Given(events)[j] in Given(events);
    SameIdIff(Given(events)[i], Given(events)[j]);
  }

  // So it is when a terminal is closed and another of its shell opened at once.
  lemma ClosedIdGivenAgain(shellId: string, now: nat)
    ensures var once := [Adds(shellId, None, None, now)];
            var id := After(once).tabs[0].id;
            After(once + [Closes(id)]).tabs == []
            && After(once + [Closes(id)] + [Adds(shellId, None, None, now)]) == After(once)
  {
    var once := [Adds(shellId, None, None, now)];
    var id := After(once).tabs[0].id;
    AfterSnoc([], once[0]);
    AfterSnoc(once, Closes(id));
    AfterSnoc(once + [Closes(id)], Adds(shellId, None, None, now));
    assert After(once).tabs[1..] == [];
  }

  lemma AfterSnoc(events: seq<Event>, event: Event)
    ensures After(events + [event]) == Next(After(events), event)
  {
    assert (events + [event])[..|events|] == events;
  }

  class Terminals {
    var tabs: seq<TerminalTab>
    var activeId: Option<string>

    function Snapshot(): Open
      reads this
    {
      Open(tabs, activeId)
    }

    constructor ()
      ensures Snapshot() == NO_TERMINALS
    {
      tabs, activeId := [], None;
    }

    method AddTerminal(shellId: string, groupId: Option<string>, cwd: Option<string>, now: nat)
      modifies this
      ensures Snapshot() == Added(old(Snapshot()), shellId, groupId, cwd, now)
    {
      var used := Used(tabs, shellId);
      var n := 1;
      while n in used
        invariant n >= 1 && forall m :: 1 <= m < n ==> m in used
        invariant Snapshot() == old(Snapshot())
        decreases |used| + 1 - n
      {
        NumberBound(used, n + 1);
        n := n + 1;
      }
      var id := TerminalId(shellId, n, now, "");
      tabs := tabs + [TerminalTab(id, shellId, n, None, if groupId.Some? then groupId.value else id, cwd)];
      activeId := Some(id);
    }

    method SplitTerminal(shells: seq<string>, now: nat)
      modifies this
      ensures Snapshot() == SplitOff(old(Snapshot()), shells, now)
    {
      var active := FocusedTab(Snapshot());
      if active.Some? && shells != [] {
        var shellId := if active.value.shellId in shells then active.value.shellId else shells[0];
        AddTerminal(shellId, Some(active.value.groupId), None, now);
      }
    }

    method CloseTerminal(id: string)
      modifies this
      ensures Snapshot() == Closed(old(Snapshot()), id)
    {
      var index := Position(tabs, id);
      var next := Without(tabs, id);
      if activeId == Some(id) {
        var sibling := if index >= 0 then FindGroup(next, tabs[index].groupId) else None;
        activeId := if sibling.Some? then Some(sibling.value.id)
                    else OrElse(IdAt(next, index), OrElse(IdAt(next, index - 1), IdAt(next, 0)));
      }
      tabs := next;
    }

    method Focus(i: nat)
      modifies this
      ensures Snapshot() == Focused(old(Snapshot()), i)
    {
      if i < |tabs| {
        activeId := Some(tabs[i].id);
      }
    }

    method Restore(saved: Option<PersistedTerminals>, shells: seq<string>, clock: nat -> nat, now: nat)
      modifies this
      ensures Snapshot() == Restored(old(Snapshot()), saved, shells, clock, now)
    {
      var kept := if saved.Some? then Kept(saved.value.tabs, shells) else [];
      if kept != [] {
        var ids := RestoredIds(kept, clock);
        tabs, activeId := RestoredTabs(kept, ids), RestoredFocus(saved.value.active, ids);
      } else if tabs == [] && shells != [] {
        AddTerminal(shells[0], None, None, now);
      }
    }

    method Take(event: Event)
      modifies this
      ensures Snapshot() == Next(old(Snapshot()), event)
    {
      match event
      case Adds(shellId, groupId, cwd, now) => AddTerminal(shellId, groupId, cwd, now);
      case Splits(shells, now) => SplitTerminal(shells, now);
      case Closes(id) => CloseTerminal(id);
      case Focuses(place) => Focus(place);
      case Restores(saved, shells, clock, now) => Restore(saved, shells, clock, now);
    }
  }

  ghost predicate AllFit(events: seq<Event>, start: nat) {
    forall i :: 0 <= i < |events| ==> Fits(events[i], start)
  }

  lemma FittingRunIsConsistent(events: seq<Event>, start: nat)
    ensures AllFit(events, start) ==> Consistent(After(events), start)
  {
    if AllFit(events, start) {
      RunIsConsistent(events, start);
    }
  }

  // Any run, of what the panel does and is told.
  method Run(events: seq<Event>, ghost start: nat) returns (terminals: Terminals)
    ensures fresh(terminals) && terminals.Snapshot() == After(events)
    ensures AllFit(events, start) ==> Consistent(terminals.Snapshot(), start)
  {
    FittingRunIsConsistent(events, start);
    terminals := new Terminals();
    for i := 0 to |events|
      invariant fresh(terminals) && terminals.Snapshot() == After(events[..i])
    {
      assert events[..i + 1] == events[..i] + [events[i]];
      AfterSnoc(events[..i], events[i]);
      terminals.Take(events[i]);
    }
    assert events[..|events|] == events;
  }
}
