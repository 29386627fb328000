// Which branches of a row tree are open.
module Expansions {
  import opened Sequences
  import opened Shapes
  import opened RowBuilders
  import opened RowTrees

  // Some row of the tree has a message.
  ghost predicate HasMessage(row: InspectorRow) {
    exists r :: r in AllRows(row) && r.messages != []
  }

  // The ids `withIssuesOpen` should add: the branches with a message on or
  // under them.
  ghost predicate ShouldOpen(root: InspectorRow, id: string) {
    exists r :: r in AllRows(root) && r.children.Branch? && HasMessage(r) && r.id == id
  }

  // Every row counts the messages on it and under it.
  ghost predicate CountsIssues(root: InspectorRow) {
    forall r :: r in AllRows(root) ==> r.issueCount == TotalMessages(AllRows(r))
  }

  lemma {:induction false} TotalIffSome(rows: seq<InspectorRow>)
    ensures TotalMessages(rows) > 0 <==> exists r :: r in rows && r.messages != []
  {
    if rows != [] {
      TotalIffSome(rows[1..]);
      if r :| r in rows && r.messages != [] {
        assert r == rows[0] || r in rows[1..];
      }
    }
  }

  // A row's rows are all the rows of the tree it is in.
  lemma {:induction false} RowsOfRows(root: InspectorRow, row: InspectorRow, r: InspectorRow)
    requires row in AllRows(root) && r in AllRows(row)
    ensures r in AllRows(root)
    decreases root
  {
    if row != root {
      InAllRowsOf(root.children.rows, row);
      var i :| 0 <= i < |root.children.rows| && row in AllRows(root.children.rows[i]);
      RowsOfRows(root.children.rows[i], row, r);
      InAllRowsOf(root.children.rows, r);
    }
  }

  lemma CountsBelow(root: InspectorRow, i: nat)
    requires CountsIssues(root) && root.children.Branch? && i < |root.children.rows|
    ensures CountsIssues(root.children.rows[i])
  {
    forall r | r in AllRows(root.children.rows[i])
      ensures r in AllRows(root)
    {
      InAllRowsOf(root.children.rows, r);
    }
  }

  // A tree with no issue opens nothing.
  lemma NothingToOpen(row: InspectorRow)
    requires CountsIssues(row) && (row.children.Leaf? || row.issueCount == 0)
    ensures forall id :: !ShouldOpen(row, id)
  {
    forall r | r in AllRows(row) && r.children.Branch?
      ensures !HasMessage(r)
    {
      assert row in AllRows(row);
      TotalIffSome(AllRows(row));
      if q :| q in AllRows(r) && q.messages != [] {
        RowsOfRows(row, r, q);
      }
    }
  }

  // A branch with issues opens itself and what its children open.
  lemma OpensByChildren(row: InspectorRow, id: string)
    requires CountsIssues(row) && row.children.Branch? && row.issueCount > 0
    ensures ShouldOpen(row, id) <==>
            row.id == id || exists i :: 0 <= i < |row.children.rows| && ShouldOpen(row.children.rows[i], id)
  {
    assert row in AllRows(row);
    TotalIffSome(AllRows(row));
    var rows := row.children.rows;
    if ShouldOpen(row, id) && row.id != id {
      var r :| r in AllRows(row) && r.children.Branch? && HasMessage(r) && r.id == id;
      InAllRowsOf(rows, r);
      var i :| 0 <= i < |rows| && r in AllRows(rows[i]);
      assert ShouldOpen(rows[i], id);
    }
    if i :| 0 <= i < |rows| && ShouldOpen(rows[i], id) {
      var r :| r in AllRows(rows[i]) && r.children.Branch? && HasMessage(r) && r.id == id;
      InAllRowsOf(rows, r);
    }
  }

  // The set both traversals add to.
  class OpenBranches {
    var ids: set<string>

    constructor (ids: set<string>)
      ensures this.ids == ids
    {
      this.ids := ids;
    }

    method VisitIssues(row: InspectorRow)
      requires CountsIssues(row)
      modifies this
      ensures forall id :: id in ids <==> id in old(ids) || ShouldOpen(row, id)
      decreases row
    {
      if row.children.Leaf? || row.issueCount == 0 {
        NothingToOpen(row);
        return;
      }
      ids := ids + {row.id};
      var rows := row.children.rows;
      for i := 0 to |rows|
        invariant forall id :: id in ids <==>
                    id in old(ids) || id == row.id || exists k :: 0 <= k < i && ShouldOpen(rows[k], id)
      {
        CountsBelow(row, i);
        VisitIssues(rows[i]);
      }
      forall id
        ensures ShouldOpen(row, id) <==>
                row.id == id || exists i :: 0 <= i < |rows| && ShouldOpen(rows[i], id)
      {
        OpensByChildren(row, id);
      }
    }

    method VisitDefault(row: InspectorRow, remaining: int)
      requires IsStepped(row)
      modifies this
      ensures forall id :: id in ids <==> id in old(ids) || IsShallowBranch(row, remaining, id)
      decreases row
    {
      if row.children.Leaf? || remaining <= 0 {
        NothingShallow(row, remaining);
        return;
      }
      ids := ids + {row.id};
      var rows := row.children.rows;
      for i := 0 to |rows|
        invariant forall id :: id in ids <==>
                    id in old(ids) || id == row.id ||
                    exists k :: 0 <= k < i && IsShallowBranch(rows[k], remaining - 1, id)
      {
        SteppedBelow(row, i);
        VisitDefault(rows[i], remaining - 1);
      }
      forall id
        ensures IsShallowBranch(row, remaining, id) <==>
                row.id == id || exists k :: 0 <= k < |rows| && IsShallowBranch(rows[k], remaining - 1, id)
      {
        ShallowByChildren(row, remaining, id);
      }
    }
  }

  // -- What is open at first ------------------------------------------------------------

  // Every child is one step further than its parent.
  ghost predicate IsStepped(root: InspectorRow) {
    forall r :: r in AllRows(root) ==> StepsDown(r)
  }

  // A branch whose path is fewer than `depth` steps longer than the root's.
  ghost predicate IsShallowBranch(root: InspectorRow, depth: int, id: string) {
    exists r :: r in AllRows(root) && IsShallow(root, depth, r) && r.id == id
  }

  predicate IsShallow(root: InspectorRow, depth: int, r: InspectorRow) {
    r.children.Branch? && |r.path| < |root.path| + depth
  }

  lemma SteppedBelow(root: InspectorRow, i: nat)
    requires IsStepped(root) && root.children.Branch? && i < |root.children.rows|
    ensures IsStepped(root.children.rows[i])
    ensures |root.children.rows[i].path| == |root.path| + 1
  {
    assert root in AllRows(root);
    assert StepsDown(root) && IsStep(root.path, root.children.rows[i]);
    forall r | r in AllRows(root.children.rows[i])
      ensures r in AllRows(root)
    {
      InAllRowsOf(root.children.rows, r);
    }
  }

  // No row's path is shorter than the root's.
  lemma {:induction false} PathsGrow(root: InspectorRow, r: InspectorRow)
    requires IsStepped(root) && r in AllRows(root)
    ensures |root.path| <= |r.path|
    decreases root
  {
    if r != root {
      InAllRowsOf(root.children.rows, r);
      var i :| 0 <= i < |root.children.rows| && r in AllRows(root.children.rows[i]);
      SteppedBelow(root, i);
      PathsGrow(root.children.rows[i], r);
    }
  }

  lemma NothingShallow(row: InspectorRow, depth: int)
    requires IsStepped(row) && (row.children.Leaf? || depth <= 0)
    ensures forall id :: !IsShallowBranch(row, depth, id)
  {
    forall r | r in AllRows(row)
      ensures !IsShallow(row, depth, r)
    {
      PathsGrow(row, r);
    }
  }

  lemma ShallowByChildren(row: InspectorRow, depth: int, id: string)
    requires IsStepped(row) && row.children.Branch? && depth > 0
    ensures IsShallowBranch(row, depth, id) <==>
            row.id == id ||
            exists k :: 0 <= k < |row.children.rows| && IsShallowBranch(row.children.rows[k], depth - 1, id)
  {
    var rows := row.children.rows;
    assert row in AllRows(row);
    if row.id == id {
      assert IsShallow(row, depth, row);
    } else if IsShallowBranch(row, depth, id) {
      var r :| r in AllRows(row) && IsShallow(row, depth, r) && r.id == id;
      InAllRowsOf(rows, r);
      var k :| 0 <= k < |rows| && r in AllRows(rows[k]);
      SteppedBelow(row, k);
      assert IsShallow(rows[k], depth - 1, r);
      assert IsShallowBranch(rows[k], depth - 1, id);
    } else if k :| 0 <= k < |rows| && IsShallowBranch(rows[k], depth - 1, id) {
      var r :| r in AllRows(rows[k]) && IsShallow(rows[k], depth - 1, r) && r.id == id;
      SteppedBelow(row, k);
      InAllRowsOf(rows, r);
      assert IsShallow(row, depth, r);
    }
  }

  // Every branch with a message on or under it is open, and none without one
  // that was not open before.
  method WithIssuesOpen(root: InspectorRow, open: set<string>) returns (next: set<string>)
    requires CountsIssues(root)
    ensures forall id :: id in next <==> id in open || ShouldOpen(root, id)
  {
    var branches := new OpenBranches(open);
    branches.VisitIssues(root);
    next := branches.ids;
  }

  method DefaultExpansion(root: InspectorRow, depth: int) returns (open: set<string>)
    requires IsStepped(root)
    ensures forall id :: id in open <==> IsShallowBranch(root, depth, id)
  {
    var branches := new OpenBranches({});
    branches.VisitDefault(root, depth);
    open := branches.ids;
  }

  // No problem is hidden: every row over a row with a message should open.
  lemma AncestorsShouldOpen(root: InspectorRow, ancestor: InspectorRow, row: InspectorRow)
    requires ancestor in AllRows(root) && row in AllRows(ancestor) && row != ancestor
    requires row.messages != []
    ensures ShouldOpen(root, ancestor.id)
  {
    assert ancestor.children.Branch?;
    assert HasMessage(ancestor);
  }

  // A message stands under the row, not on it.
  ghost predicate HasMessageUnder(row: InspectorRow) {
    row.children.Branch? && exists r :: r in AllRowsOf(row.children.rows) && r.messages != []
  }

  lemma MessageIsOnOrUnder(row: InspectorRow)
    requires row.children.Branch?
    ensures HasMessage(row) <==> row.messages != [] || HasMessageUnder(row)
  {
    assert AllRows(row) == [row] + AllRowsOf(row.children.rows);
    if row.messages != [] {
      assert row in AllRows(row);
    }
  }

  // The branches that should open are those with a message under them if and only
  // if no branch has messages of its own alone.
  lemma OpensWhatIsUnderIff(root: InspectorRow)
    requires DistinctRowIds(AllRows(root))
    ensures (forall r :: r in AllRows(root) && r.children.Branch? ==>
               (ShouldOpen(root, r.id) <==> HasMessageUnder(r))) <==>
            (forall r :: r in AllRows(root) && r.children.Branch? && r.messages != [] ==> HasMessageUnder(r))
  {
    forall r | r in AllRows(root) && r.children.Branch?
      ensures ShouldOpen(root, r.id) <==> r.messages != [] || HasMessageUnder(r)
    {
      MessageIsOnOrUnder(r);
      if ShouldOpen(root, r.id) {
        var q :| q in AllRows(root) && q.children.Branch? && HasMessage(q) && q.id == r.id;
        assert q == r;
      }
    }
  }

  // An empty list with a message: nothing is under it, and it should open.
  lemma OwnMessageOpens(row: InspectorRow)
    requires row.children == Branch([]) && row.messages != []
    ensures ShouldOpen(row, row.id) && !HasMessageUnder(row)
  {
    MessageIsOnOrUnder(row);
    assert row in AllRows(row);
  }

  // The trees that are built count their issues, and go down step by step.
  lemma {:induction false} BuiltTreesCount(b: Builder, closed: bool, row: InspectorRow)
    requires IsSound(b, closed, row)
    ensures CountsIssues(row) && IsStepped(row)
    decreases row
  {
    IssueCountIsTotal(b, closed, row);
    if row.children.Branch? {
      var rows := row.children.rows;
      forall r | r in AllRows(row) && r != row
        ensures r.issueCount == TotalMessages(AllRows(r))
      {
        InAllRowsOf(rows, r);
        var i :| 0 <= i < |rows| && r in AllRows(rows[i]);
        SoundChild(b, closed, row, i);
        BuiltTreesCount(b, closed, rows[i]);
      }
    }
  }
}
