// What holds of every row tree, whatever the value and the definitions.
module RowTrees {
  import opened DataPaths
  import opened Sequences
  import opened Strings
  import opened Shapes
  import opened RowBuilders
  import opened RowReadings

  // -- The rows of a tree -----------------------------------------------------------

  // A row and everything under it, in order.
  function AllRows(row: InspectorRow): seq<InspectorRow>
    decreases row, 0
  {
    [row] + if row.children.Branch? then AllRowsOf(row.children.rows) else []
  }

  function AllRowsOf(rows: seq<InspectorRow>): seq<InspectorRow>
    decreases rows, 1
  {
    if rows == [] then [] else AllRows(rows[0]) + AllRowsOf(rows[1..])
  }

  // Some row is under another: a row of one of its children's trees.
  lemma {:induction false} InAllRowsOf(rows: seq<InspectorRow>, r: InspectorRow)
    ensures r in AllRowsOf(rows) <==> exists i :: 0 <= i < |rows| && r in AllRows(rows[i])
  {
    if rows != [] {
      InAllRowsOf(rows[1..], r);
      if r in AllRowsOf(rows[1..]) {
        var i :| 0 <= i < |rows| - 1 && r in AllRows(rows[1..][i]);
        assert r in AllRows(rows[i + 1]);
      }
      if i :| 1 <= i < |rows| && r in AllRows(rows[i]) {
        assert r in AllRows(rows[1..][i - 1]);
      }
    }
  }

  // -- What every row is made of -------------------------------------------------------

  function Last(path: DataPath): Segment
    requires path != []
  {
    path[|path| - 1]
  }

  // The parts a row is made of agree: its id and messages are its path's, and its
  // count adds its children's to its own.
  ghost predicate IsMade(b: Builder, row: InspectorRow) {
    && row.id == PathId(row.path)
    && row.messages == MessagesOf(b, row.id)
    && row.issueCount == |row.messages| + if row.children.Branch? then SumIssues(row.children.rows) else 0
  }

  ghost predicate IsStep(path: DataPath, child: InspectorRow) {
    child.path != [] && child.path == path + [Last(child.path)]
  }

  // Its children are one step further.
  ghost predicate StepsDown(row: InspectorRow) {
    row.children.Branch? ==> forall i :: 0 <= i < |row.children.rows| ==> IsStep(row.path, row.children.rows[i])
  }

  predicate IsUnknown(problem: Option<RowProblem>) {
    problem.Some? && problem.value.UnknownDefinition?
  }

  ghost predicate IsSoundRow(b: Builder, closed: bool, row: InspectorRow) {
    IsMade(b, row) && StepsDown(row) && (closed ==> !IsUnknown(row.problem))
  }

  // Each row of a tree is so made; where every reference is known, `closed`, none
  // of them has the problem of one that is not.
  ghost predicate IsSound(b: Builder, closed: bool, row: InspectorRow) {
    forall r :: r in AllRows(row) ==> IsSoundRow(b, closed, r)
  }

  lemma SoundParent(b: Builder, closed: bool, row: InspectorRow)
    requires IsSoundRow(b, closed, row)
    requires row.children.Branch? ==>
               forall i :: 0 <= i < |row.children.rows| ==> IsSound(b, closed, row.children.rows[i])
    ensures IsSound(b, closed, row)
  {
    forall r | r in AllRows(row)
      ensures IsSoundRow(b, closed, r)
    {
      if r != row {
        InAllRowsOf(row.children.rows, r);
      }
    }
  }

  ghost predicate AreSound(b: Builder, closed: bool, path: DataPath, rows: seq<InspectorRow>) {
    forall i :: 0 <= i < |rows| ==> IsSound(b, closed, rows[i]) && IsStep(path, rows[i])
  }

  // The same of a row made with the rows of some fields.
  lemma SoundFields(
    b: Builder, closed: bool, site: RowSite, display: RowDisplay, editor: Option<RowEditor>,
    value: Option<DataValue>, rows: seq<InspectorRow>)
    requires AreSound(b, closed, site.path, rows)
    ensures IsSound(b, closed, Make(b, site, display, editor, value, None, BranchOf(rows)))
  {
    SoundParent(b, closed, Make(b, site, display, editor, value, None, BranchOf(rows)));
  }

  lemma SoundChild(b: Builder, closed: bool, row: InspectorRow, i: nat)
    requires IsSound(b, closed, row) && row.children.Branch? && i < |row.children.rows|
    ensures IsSound(b, closed, row.children.rows[i])
  {
    forall r | r in AllRows(row.children.rows[i])
      ensures r in AllRows(row)
    {
      InAllRowsOf(row.children.rows, r);
    }
  }

  ghost predicate DefinitionsClosed(definitions: Definitions) {
    forall i :: 0 <= i < |definitions| ==> DefinitionResolved(definitions[i].1, definitions)
  }

  lemma {:induction false} GenericSound(
    b: Builder, closed: bool, site: RowSite, value: DataValue, problem: Option<RowProblem>)
    requires closed ==> !IsUnknown(problem)
    ensures IsSound(b, closed, Generic(b, site, value, problem))
    ensures Generic(b, site, value, problem).path == site.path
    decreases Size(value)
  {
    var row := Generic(b, site, value, problem);
    match value
    case List(items) =>
      forall i | 0 <= i < |items|
        ensures IsSound(b, closed, row.children.rows[i]) && IsStep(site.path, row.children.rows[i])
      {
        ItemIsSmaller(items, i);
        GenericSound(b, closed, Child(site, Index(i)), items[i], None);
      }
      SoundParent(b, closed, row);
    case Map(entries) =>
      forall i | 0 <= i < |entries|
        ensures IsSound(b, closed, row.children.rows[i]) && IsStep(site.path, row.children.rows[i])
      {
        EntryIsSmaller(entries, i);
        GenericSound(b, closed, Child(site, Key(entries[i].0)), entries[i].1, None);
      }
      SoundParent(b, closed, row);
    case _ => SoundParent(b, closed, row);
  }

  // Every row tree is sound: whatever the value, the shape and the definitions.
  lemma {:induction false} RowSound(
    b: Builder, closed: bool, site: RowSite, shape: ShapeNode, value: Option<DataValue>)
    requires closed ==> DefinitionsClosed(b.definitions) && Resolved(shape, b.definitions)
    ensures IsSound(b, closed, Row(b, site, shape, value))
    ensures Row(b, site, shape, value).path == site.path
    decreases SizeOf(value), 4
  {
    StripReferences(shape);
    var (node, optional) := Strip(shape);
    if value.None? || (optional && value.value.Null?) {
      SoundParent(b, closed, Absent(b, site, optional));
    } else {
      PresentSound(b, closed, site, node, value.value);
    }
  }

  // For an accepted description no row, at any depth and for any value, names a
  // definition that is not there.
  lemma RowKnown(b: Builder, site: RowSite, shape: ShapeNode, value: Option<DataValue>)
    requires DefinitionsClosed(b.definitions) && Resolved(shape, b.definitions)
    ensures AllKnown(Row(b, site, shape, value))
  {
    RowSound(b, true, site, shape, value);
  }

  ghost predicate AllKnown(row: InspectorRow) {
    forall r :: r in AllRows(row) ==> !IsUnknown(r.problem)
  }

  lemma {:induction false} StripReferences(shape: ShapeNode)
    ensures References(Strip(shape).0) == References(shape)
  {
    if shape.NamedShape? || shape.OptionalShape? {
      StripReferences(shape.of);
    }
  }

  lemma {:induction false} PresentSound(b: Builder, closed: bool, site: RowSite, node: ShapeNode, value: DataValue)
    requires closed ==> DefinitionsClosed(b.definitions) && Resolved(node, b.definitions)
    ensures IsSound(b, closed, Present(b, site, node, value))
    ensures Present(b, site, node, value).path == site.path
    decreases Size(value), 3
  {
    match node
    case DefShape(name) =>
      assert name in References(node);
      DefinitionSound(b, closed, site, name, value);
    case ListShape(of) => ListSound(b, closed, site, of, value);
    case MapShape(of) => MapSound(b, closed, site, of, value);
    case AnyShape => GenericSound(b, closed, site, value, None);
    case _ => ScalarSound(b, closed, site, node, value);
  }

  lemma {:induction false} ListSound(b: Builder, closed: bool, site: RowSite, of: ShapeNode, value: DataValue)
    requires closed ==> DefinitionsClosed(b.definitions) && Resolved(of, b.definitions)
    ensures IsSound(b, closed, ListRow(b, site, of, value)) && ListRow(b, site, of, value).path == site.path
    decreases Size(value), 2
  {
    if value.List? {
      var row := ListRow(b, site, of, value);
      forall i | 0 <= i < |value.items|
        ensures IsSound(b, closed, row.children.rows[i]) && IsStep(site.path, row.children.rows[i])
      {
        ItemIsSmaller(value.items, i);
        RowSound(b, closed, Child(site, Index(i)), of, Some(value.items[i]));
      }
      SoundParent(b, closed, row);
    } else {
      GenericSound(b, closed, site, value, Some(Mismatch("list", ValueKind(value))));
    }
  }

  lemma {:induction false} MapSound(b: Builder, closed: bool, site: RowSite, of: ShapeNode, value: DataValue)
    requires closed ==> DefinitionsClosed(b.definitions) && Resolved(of, b.definitions)
    ensures IsSound(b, closed, MapRow(b, site, of, value)) && MapRow(b, site, of, value).path == site.path
    decreases Size(value), 2
  {
    if value.Map? {
      var row := MapRow(b, site, of, value);
      forall i | 0 <= i < |value.entries|
        ensures IsSound(b, closed, row.children.rows[i]) && IsStep(site.path, row.children.rows[i])
      {
        EntryIsSmaller(value.entries, i);
        RowSound(b, closed, Child(site, Key(value.entries[i].0)), of, Some(value.entries[i].1));
      }
      SoundParent(b, closed, row);
    } else {
      GenericSound(b, closed, site, value, Some(Mismatch("map", ValueKind(value))));
    }
  }

  lemma ScalarSound(b: Builder, closed: bool, site: RowSite, node: ShapeNode, value: DataValue)
    ensures IsSound(b, closed, Scalar(b, site, node, value)) && Scalar(b, site, node, value).path == site.path
  {
    if ScalarEditor(node, value, site).None? {
      GenericSound(b, closed, site, value, Some(Mismatch(ShapeKind(node), ValueKind(value))));
    } else {
      SoundParent(b, closed, Scalar(b, site, node, value));
    }
  }

  lemma {:induction false} FieldsSound(
    b: Builder, closed: bool, site: RowSite, fields: seq<FieldShape>, entries: seq<(string, DataValue)>)
    requires closed ==> DefinitionsClosed(b.definitions) && FieldsResolved(fields, b.definitions)
    ensures AreSound(b, closed, site.path, FieldRows(b, site, fields, entries))
    decreases SizeOfEntries(entries), 5
  {
    forall i | 0 <= i < |fields|
      ensures IsSound(b, closed, FieldRows(b, site, fields, entries)[i])
      ensures IsStep(site.path, FieldRows(b, site, fields, entries)[i])
    {
      FieldIsSmaller(entries, fields[i].name);
      RowSound(b, closed, FieldSite(site, fields[i]), fields[i].shape, Get(entries, fields[i].name));
    }
  }

  lemma {:induction false} DefinitionSound(b: Builder, closed: bool, site: RowSite, name: string, value: DataValue)
    requires closed ==> DefinitionsClosed(b.definitions) && Get(b.definitions, name).Some?
    ensures IsSound(b, closed, DefinitionRow(b, site, name, value))
    ensures DefinitionRow(b, site, name, value).path == site.path
    decreases Size(value), 2
  {
    var row := DefinitionRow(b, site, name, value);
    var found: Option<Definition> := Get(b.definitions, name);
    match found
    case None => GenericSound(b, closed, site, value, Some(UnknownDefinition(name)));
    case Some(definition) =>
      var k :| 0 <= k < |b.definitions| && b.definitions[k] == (name, definition);
      assert closed ==> DefinitionResolved(definition, b.definitions);
      match definition {
        case Struct(fields) =>
          if value.Map? {
            FieldsSound(b, closed, site, fields, value.entries);
            var rows := FieldRows(b, site, fields, value.entries);
            SoundFields(b, closed, site, ShowStruct(name), None, None, rows);
            assert row == Make(b, site, ShowStruct(name), None, None, None, BranchOf(rows));
          } else {
            GenericSound(b, closed, site, value, Some(Mismatch(name, ValueKind(value))));
          }
        case Enum(tag, variants) => EnumSound(b, closed, site, tag, variants, value);
      }
  }

  lemma {:induction false} EnumSound(
    b: Builder, closed: bool, site: RowSite, tag: Option<string>, variants: seq<VariantShape>, value: DataValue)
    requires closed ==> DefinitionsClosed(b.definitions) && DefinitionResolved(Enum(tag, variants), b.definitions)
    ensures IsSound(b, closed, EnumRow(b, site, tag, variants, value))
    ensures EnumRow(b, site, tag, variants, value).path == site.path
    decreases Size(value), 1
  {
    var named := VariantName(tag, value);
    if named.None? {
      GenericSound(b, closed, site, value, Some(Mismatch(if tag.None? then "string" else "map", ValueKind(value))));
    } else {
      NamedSound(b, closed, site, tag, variants, value, named.value);
    }
  }

  lemma {:induction false} NamedSound(
    b: Builder, closed: bool, site: RowSite, tag: Option<string>, variants: seq<VariantShape>, value: DataValue,
    name: string)
    requires closed ==> DefinitionsClosed(b.definitions) && DefinitionResolved(Enum(tag, variants), b.definitions)
    requires VariantName(tag, value) == Some(name)
    ensures IsSound(b, closed, EnumRow(b, site, tag, variants, value))
    ensures EnumRow(b, site, tag, variants, value).path == site.path
    decreases Size(value), 0
  {
    var row, found := EnumRow(b, site, tag, variants, value), FindVariant(variants, name);
    var editor := Some(VariantEditor(Switchable(variants, tag, name), tag));
    if found.None? {
      SoundParent(b, closed, row);
    } else {
      var rows := if found.value.fields.Some? && value.Map?
                  then FieldRows(b, site, found.value.fields.value, value.entries) else [];
      if rows != [] {
        var i :| 0 <= i < |variants| && variants[i] == found.value;
        assert closed ==> VariantResolved(variants[i], b.definitions);
        FieldsSound(b, closed, site, found.value.fields.value, value.entries);
      }
      SoundFields(b, closed, site, ShowVariant(name), editor, Some(String(name)), rows);
      assert row == Make(b, site, ShowVariant(name), editor, Some(String(name)), None, BranchOf(rows));
    }
  }

  // -- Each row shows the value at its path ---------------------------------------------

  // The value one step below.
  function At(value: Option<DataValue>, segment: Segment): Option<DataValue> {
    match (value, segment)
    case (Some(List(items)), Index(i)) => if i < |items| then Some(items[i]) else None
    case (Some(Map(entries)), Key(key)) => Get(entries, key)
    case _ => None
  }

  ghost predicate Shows(display: RowDisplay, value: Option<DataValue>) {
    match display
    case ShowScalar(v) => value == Some(v)
    case ShowList(n) => value.Some? && value.value.List? && |value.value.items| == n
    case ShowMap(n) => value.Some? && value.value.Map? && |value.value.entries| == n
    case ShowStruct(_) => value.Some? && value.value.Map?
    case ShowVariant(name) =>
      || value == Some(String(name))
      || exists tag :: At(value, Key(tag)) == Some(String(name))
    case ShowNone => value == None || value == Some(Null)
    case ShowDefault => value == None
    case ShowMissing => value == None
  }

  ghost predicate AreChildren(path: DataPath, rows: seq<InspectorRow>) {
    && (forall i :: 0 <= i < |rows| ==> IsStep(path, rows[i]))
    && (forall i, j :: 0 <= i < j < |rows| ==>
          SegmentText(Last(rows[i].path)) != SegmentText(Last(rows[j].path)))
  }

  // A list's rows are its items and a map's its entries, all of them, in order.
  ghost predicate Covers(row: InspectorRow, value: Option<DataValue>) {
    match (row.display, value)
    case (ShowList(n), Some(List(_))) =>
      && row.children.Branch? && |row.children.rows| == n
      && forall i :: 0 <= i < n ==> row.children.rows[i].path == row.path + [Index(i)]
    case (ShowMap(n), Some(Map(entries))) =>
      && row.children.Branch? && |row.children.rows| == n == |entries|
      && forall i :: 0 <= i < n ==> row.children.rows[i].path == row.path + [Key(entries[i].0)]
    case _ => true
  }

  // What an editor would change is what the row shows.
  ghost predicate EditsWhatItShows(row: InspectorRow) {
    && (row.editor.Some? ==> row.value.Some?)
    && (row.value.Some? ==>
          || row.display == ShowScalar(row.value.value)
          || (row.value.value.String? && row.display == ShowVariant(row.value.value.text)))
  }

  // The row by itself, with what it says of its children.
  ghost predicate RowStands(b: Builder, row: InspectorRow, value: Option<DataValue>) {
    && IsMade(b, row)
    && Shows(row.display, value)
    && Covers(row, value)
    && EditsWhatItShows(row)
    && (row.children.Branch? ==> AreChildren(row.path, row.children.rows))
  }

  // The tree mirrors the value: every row shows what stands at its path, its
  // children one step further, no two at one step.
  ghost predicate Mirrors(b: Builder, row: InspectorRow, value: Option<DataValue>)
    decreases row
  {
    match row.children
    case Leaf => RowStands(b, row, value)
    case Branch(rows) =>
      && RowStands(b, row, value)
      && forall i :: 0 <= i < |rows| ==> Mirrors(b, rows[i], At(value, Last(rows[i].path)))
  }

  // Objects have each key once, at every depth.
  ghost predicate IsObjectTree(value: DataValue)
    decreases value
  {
    match value
    case List(items) => forall i :: 0 <= i < |items| ==> IsObjectTree(items[i])
    case Map(entries) =>
      && DistinctKeys(entries)
      && forall i :: 0 <= i < |entries| ==> IsEntryTree(entries[i])
    case _ => true
  }

  ghost predicate IsEntryTree(entry: (string, DataValue))
    decreases entry
  {
    IsObjectTree(entry.1)
  }

  ghost predicate DistinctFields(fields: seq<FieldShape>) {
    forall i, j :: 0 <= i < j < |fields| ==> fields[i].name != fields[j].name
  }

  ghost predicate DistinctFieldNames(definition: Definition) {
    match definition
    case Struct(fields) => DistinctFields(fields)
    case Enum(_, variants) =>
      forall i :: 0 <= i < |variants| && variants[i].fields.Some? ==> DistinctFields(variants[i].fields.value)
  }

  ghost predicate AllFieldNamesDistinct(definitions: Definitions) {
    forall i :: 0 <= i < |definitions| ==> DistinctFieldNames(definitions[i].1)
  }

  lemma IndexedChildren(site: RowSite, rows: seq<InspectorRow>)
    requires forall i :: 0 <= i < |rows| ==> rows[i].path == site.path + [Index(i)]
    ensures AreChildren(site.path, rows)
  {
    forall i, j | 0 <= i < j < |rows|
      ensures SegmentText(Last(rows[i].path)) != SegmentText(Last(rows[j].path))
    {
      if Decimal(i) == Decimal(j) {
        DecimalInjective(i, j);
      }
    }
  }

  lemma KeyedChildren(site: RowSite, rows: seq<InspectorRow>, entries: seq<(string, DataValue)>)
    requires DistinctKeys(entries) && |rows| == |entries|
    requires forall i :: 0 <= i < |rows| ==> rows[i].path == site.path + [Key(entries[i].0)]
    ensures AreChildren(site.path, rows)
    ensures forall i :: 0 <= i < |rows| ==> Last(rows[i].path) == Key(entries[i].0)
  {
    forall i, j | 0 <= i < j < |rows|
      ensures SegmentText(Last(rows[i].path)) != SegmentText(Last(rows[j].path))
    {
      assert entries[i].0 != entries[j].0;
    }
  }

  // A list's rows mirror it when each mirrors its item; likewise for a map.
  lemma ListParent(b: Builder, site: RowSite, row: InspectorRow, items: seq<DataValue>)
    requires IsMade(b, row) && row.display == ShowList(|items|) && row.path == site.path
    requires EditsWhatItShows(row)
    requires row.children.Branch? && |row.children.rows| == |items|
    requires forall i :: 0 <= i < |items| ==> row.children.rows[i].path == site.path + [Index(i)]
    requires forall i :: 0 <= i < |items| ==> Mirrors(b, row.children.rows[i], Some(items[i]))
    ensures Mirrors(b, row, Some(List(items)))
  {
    var rows := row.children.rows;
    IndexedChildren(site, rows);
    forall i | 0 <= i < |rows|
      ensures Mirrors(b, rows[i], At(Some(List(items)), Last(rows[i].path)))
    {
      assert At(Some(List(items)), Index(i)) == Some(items[i]);
    }
  }

  lemma MapParent(b: Builder, site: RowSite, row: InspectorRow, entries: seq<(string, DataValue)>)
    requires DistinctKeys(entries)
    requires IsMade(b, row) && row.display == ShowMap(|entries|) && row.path == site.path
    requires EditsWhatItShows(row)
    requires row.children.Branch? && |row.children.rows| == |entries|
    requires forall i :: 0 <= i < |entries| ==> row.children.rows[i].path == site.path + [Key(entries[i].0)]
    requires forall i :: 0 <= i < |entries| ==> Mirrors(b, row.children.rows[i], Some(entries[i].1))
    ensures Mirrors(b, row, Some(Map(entries)))
  {
    var rows := row.children.rows;
    KeyedChildren(site, rows, entries);
    forall i | 0 <= i < |rows|
      ensures Mirrors(b, rows[i], At(Some(Map(entries)), Last(rows[i].path)))
    {
      GetAt(entries, i);
    }
  }

  lemma {:induction false} GenericMirrors(b: Builder, site: RowSite, value: DataValue, problem: Option<RowProblem>)
    requires IsObjectTree(value)
    ensures Mirrors(b, Generic(b, site, value, problem), Some(value))
    ensures Generic(b, site, value, problem).path == site.path
    decreases Size(value)
  {
    var row := Generic(b, site, value, problem);
    match value
    case List(items) =>
      forall i | 0 <= i < |items|
        ensures row.children.rows[i].path == site.path + [Index(i)]
        ensures Mirrors(b, row.children.rows[i], Some(items[i]))
      {
        ItemIsSmaller(items, i);
        GenericMirrors(b, Child(site, Index(i)), items[i], None);
      }
      ListParent(b, site, row, items);
    case Map(entries) =>
      forall i | 0 <= i < |entries|
        ensures row.children.rows[i].path == site.path + [Key(entries[i].0)]
        ensures Mirrors(b, row.children.rows[i], Some(entries[i].1))
      {
        EntryIsSmaller(entries, i);
        assert IsEntryTree(entries[i]);
        GenericMirrors(b, Child(site, Key(entries[i].0)), entries[i].1, None);
      }
      MapParent(b, site, row, entries);
    case _ =>
  }

  lemma {:induction false} RowMirrors(b: Builder, site: RowSite, shape: ShapeNode, value: Option<DataValue>)
    requires AllFieldNamesDistinct(b.definitions)
    requires value.Some? ==> IsObjectTree(value.value)
    ensures Mirrors(b, Row(b, site, shape, value), value)
    ensures Row(b, site, shape, value).path == site.path
    decreases SizeOf(value), 4
  {
    var (node, optional) := Strip(shape);
    if value.Some? && !(optional && value.value.Null?) {
      PresentMirrors(b, site, node, value.value);
    }
  }

  lemma {:induction false} PresentMirrors(b: Builder, site: RowSite, node: ShapeNode, value: DataValue)
    requires AllFieldNamesDistinct(b.definitions) && IsObjectTree(value)
    ensures Mirrors(b, Present(b, site, node, value), Some(value))
    ensures Present(b, site, node, value).path == site.path
    decreases Size(value), 3
  {
    match node
    case DefShape(name) =>
      assert Present(b, site, node, value) == DefinitionRow(b, site, name, value);
      DefinitionMirrors(b, site, name, value);
    case ListShape(of) =>
      assert Present(b, site, node, value) == ListRow(b, site, of, value);
      ListMirrors(b, site, of, value);
    case MapShape(of) =>
      assert Present(b, site, node, value) == MapRow(b, site, of, value);
      MapMirrors(b, site, of, value);
    case AnyShape => GenericMirrors(b, site, value, None);
    case _ => ScalarMirrors(b, site, node, value);
  }

  lemma ScalarMirrors(b: Builder, site: RowSite, node: ShapeNode, value: DataValue)
    requires IsObjectTree(value)
    ensures Mirrors(b, Scalar(b, site, node, value), Some(value))
    ensures Scalar(b, site, node, value).path == site.path
  {
    if ScalarEditor(node, value, site).None? {
      GenericMirrors(b, site, value, Some(Mismatch(ShapeKind(node), ValueKind(value))));
    }
  }

  lemma {:induction false} ListMirrors(b: Builder, site: RowSite, of: ShapeNode, value: DataValue)
    requires AllFieldNamesDistinct(b.definitions) && IsObjectTree(value)
    ensures Mirrors(b, ListRow(b, site, of, value), Some(value))
    ensures ListRow(b, site, of, value).path == site.path
    decreases Size(value), 2
  {
    if value.List? {
      var row := ListRow(b, site, of, value);
      forall i | 0 <= i < |value.items|
        ensures row.children.rows[i].path == site.path + [Index(i)]
        ensures Mirrors(b, row.children.rows[i], Some(value.items[i]))
      {
        ItemIsSmaller(value.items, i);
        RowMirrors(b, Child(site, Index(i)), of, Some(value.items[i]));
      }
      ListParent(b, site, row, value.items);
    } else {
      GenericMirrors(b, site, value, Some(Mismatch("list", ValueKind(value))));
    }
  }

  lemma {:induction false} MapMirrors(b: Builder, site: RowSite, of: ShapeNode, value: DataValue)
    requires AllFieldNamesDistinct(b.definitions) && IsObjectTree(value)
    ensures Mirrors(b, MapRow(b, site, of, value), Some(value))
    ensures MapRow(b, site, of, value).path == site.path
    decreases Size(value), 2
  {
    if value.Map? {
      var row, entries := MapRow(b, site, of, value), value.entries;
      forall i | 0 <= i < |entries|
        ensures row.children.rows[i].path == site.path + [Key(entries[i].0)]
        ensures Mirrors(b, row.children.rows[i], Some(entries[i].1))
      {
        EntryIsSmaller(entries, i);
        assert IsEntryTree(entries[i]);
        RowMirrors(b, Child(site, Key(entries[i].0)), of, Some(entries[i].1));
      }
      MapParent(b, site, row, entries);
    } else {
      GenericMirrors(b, site, value, Some(Mismatch("map", ValueKind(value))));
    }
  }

  lemma {:induction false} FieldsMirror(
    b: Builder, site: RowSite, fields: seq<FieldShape>, entries: seq<(string, DataValue)>)
    requires AllFieldNamesDistinct(b.definitions) && IsObjectTree(Map(entries)) && DistinctFields(fields)
    ensures var rows := FieldRows(b, site, fields, entries);
            && AreChildren(site.path, rows)
            && forall i :: 0 <= i < |rows| ==> Mirrors(b, rows[i], At(Some(Map(entries)), Last(rows[i].path)))
    decreases SizeOfEntries(entries), 5
  {
    var rows := FieldRows(b, site, fields, entries);
    forall i | 0 <= i < |fields|
      ensures rows[i].path == site.path + [Key(fields[i].name)]
      ensures Mirrors(b, rows[i], Get(entries, fields[i].name))
    {
      FieldIsSmaller(entries, fields[i].name);
      FieldIsTree(entries, fields[i].name);
      RowMirrors(b, FieldSite(site, fields[i]), fields[i].shape, Get(entries, fields[i].name));
    }
    forall i, j | 0 <= i < j < |rows|
      ensures SegmentText(Last(rows[i].path)) != SegmentText(Last(rows[j].path))
    {
      assert fields[i].name != fields[j].name;
    }
  }

  lemma FieldIsTree(entries: seq<(string, DataValue)>, key: string)
    requires IsObjectTree(Map(entries))
    ensures Get(entries, key).Some? ==> IsObjectTree(Get(entries, key).value)
  {
    var value := Get(entries, key);
    if value.Some? {
      var i :| 0 <= i < |entries| && entries[i] == (key, value.value);
      assert IsEntryTree(entries[i]);
    }
  }

  lemma {:induction false} DefinitionMirrors(b: Builder, site: RowSite, name: string, value: DataValue)
    requires AllFieldNamesDistinct(b.definitions) && IsObjectTree(value)
    ensures Mirrors(b, DefinitionRow(b, site, name, value), Some(value))
    ensures DefinitionRow(b, site, name, value).path == site.path
    decreases Size(value), 2
  {
    var found: Option<Definition> := Get(b.definitions, name);
    match found
    case None => GenericMirrors(b, site, value, Some(UnknownDefinition(name)));
    case Some(definition) =>
      var k :| 0 <= k < |b.definitions| && b.definitions[k] == (name, definition);
      assert DistinctFieldNames(definition);
      match definition {
        case Struct(fields) =>
          if value.Map? {
            FieldsMirror(b, site, fields, value.entries);
          } else {
            GenericMirrors(b, site, value, Some(Mismatch(name, ValueKind(value))));
          }
        case Enum(tag, variants) => EnumMirrors(b, site, tag, variants, value);
      }
  }

  lemma {:induction false} EnumMirrors(
    b: Builder, site: RowSite, tag: Option<string>, variants: seq<VariantShape>, value: DataValue)
    requires AllFieldNamesDistinct(b.definitions) && IsObjectTree(value)
    requires DistinctFieldNames(Enum(tag, variants))
    ensures Mirrors(b, EnumRow(b, site, tag, variants, value), Some(value))
    ensures EnumRow(b, site, tag, variants, value).path == site.path
    decreases Size(value), 1
  {
    var named := VariantName(tag, value);
    if named.None? {
      GenericMirrors(b, site, value, Some(Mismatch(if tag.None? then "string" else "map", ValueKind(value))));
    } else {
      assert Shows(ShowVariant(named.value), Some(value)) by {
        if tag.Some? {
          assert At(Some(value), Key(tag.value)) == Some(String(named.value));
        }
      }
      var variant := FindVariant(variants, named.value);
      if variant.Some? && variant.value.fields.Some? && value.Map? {
        var i :| 0 <= i < |variants| && variants[i] == variant.value;
        FieldsMirror(b, site, variant.value.fields.value, value.entries);
      }
    }
  }

  // -- What follows for the whole tree ----------------------------------------------------

  function TotalMessages(rows: seq<InspectorRow>): nat {
    if rows == [] then 0 else |rows[0].messages| + TotalMessages(rows[1..])
  }

  lemma {:induction false} TotalConcat(a: seq<InspectorRow>, b: seq<InspectorRow>)
    ensures TotalMessages(a + b) == TotalMessages(a) + TotalMessages(b)
  {
    if a == [] {
      assert a + b == b;
    } else {
      assert (a + b)[1..] == a[1..] + b;
      TotalConcat(a[1..], b);
    }
  }

  // A row's count is of all the messages on it and under it.
  lemma {:induction false} IssueCountIsTotal(b: Builder, closed: bool, row: InspectorRow)
    requires IsSound(b, closed, row)
    ensures row.issueCount == TotalMessages(AllRows(row))
    decreases row, 0
  {
    assert row in AllRows(row);
    if row.children.Branch? {
      var rows := row.children.rows;
      forall i | 0 <= i < |rows|
        ensures IsSound(b, closed, rows[i])
      {
        SoundChild(b, closed, row, i);
      }
      SumIsTotal(b, closed, rows);
      TotalConcat([row], AllRowsOf(rows));
    }
  }

  lemma {:induction false} SumIsTotal(b: Builder, closed: bool, rows: seq<InspectorRow>)
    requires forall i :: 0 <= i < |rows| ==> IsSound(b, closed, rows[i])
    ensures SumIssues(rows) == TotalMessages(AllRowsOf(rows))
    decreases rows, 1
  {
    if rows != [] {
      IssueCountIsTotal(b, closed, rows[0]);
      SumIsTotal(b, closed, rows[1..]);
      TotalConcat(AllRows(rows[0]), AllRowsOf(rows[1..]));
    }
  }

  ghost predicate DistinctRowIds(rows: seq<InspectorRow>) {
    forall i, j :: 0 <= i < j < |rows| ==> rows[i].id != rows[j].id
  }

  // Every row has its path's id, and no two children go the same step.
  ghost predicate Placed(row: InspectorRow)
    decreases row
  {
    && row.id == PathId(row.path)
    && (row.children.Branch? ==>
          && AreChildren(row.path, row.children.rows)
          && forall i :: 0 <= i < |row.children.rows| ==> Placed(row.children.rows[i]))
  }

  lemma {:induction false} MirrorsPlaced(b: Builder, row: InspectorRow, value: Option<DataValue>)
    requires Mirrors(b, row, value)
    ensures Placed(row)
    decreases row
  {
    if row.children.Branch? {
      forall i | 0 <= i < |row.children.rows|
        ensures Placed(row.children.rows[i])
      {
        MirrorsPlaced(b, row.children.rows[i], At(value, Last(row.children.rows[i].path)));
      }
    }
  }

  // Every row of a tree is somewhere below the tree's own path, and has its id.
  ghost predicate Below(path: DataPath, row: InspectorRow) {
    Texts(path) <= Texts(row.path) && row.id == PathId(row.path)
  }

  lemma {:induction false} RowsAreBelow(row: InspectorRow, r: InspectorRow)
    requires Placed(row) && r in AllRows(row)
    ensures Below(row.path, r)
    decreases row
  {
    if r != row {
      var rows := row.children.rows;
      InAllRowsOf(rows, r);
      var i :| 0 <= i < |rows| && r in AllRows(rows[i]);
      RowsAreBelow(rows[i], r);
      TextsSnoc(row.path, Last(rows[i].path));
    }
  }

  lemma TextsSnoc(path: DataPath, segment: Segment)
    ensures Texts(path + [segment]) == Texts(path) + [SegmentText(segment)]
  {
  }

  // A row in the tree of a child reads, one step down, as the child's segment.
  lemma ChildRowsRead(path: DataPath, child: InspectorRow, r: InspectorRow)
    requires child.path != [] && child.path == path + [Last(child.path)]
    requires Placed(child) && r in AllRows(child)
    ensures |path| < |Texts(r.path)| && Texts(r.path)[|path|] == SegmentText(Last(child.path))
    ensures r.id == PathId(r.path)
  {
    RowsAreBelow(child, r);
    TextsSnoc(path, Last(child.path));
    assert Texts(child.path)[|path|] == SegmentText(Last(child.path));
  }

  // All row ids of a tree are distinct.
  lemma {:induction false} IdsAreDistinct(row: InspectorRow)
    requires Placed(row)
    ensures DistinctRowIds(AllRows(row))
    decreases row, 0
  {
    if row.children.Branch? {
      var rows := row.children.rows;
      ChildIdsAreDistinct(row.path, rows);
      forall r | r in AllRowsOf(rows)
        ensures r.id != row.id
      {
        InAllRowsOf(rows, r);
        var i :| 0 <= i < |rows| && r in AllRows(rows[i]);
        ChildRowsRead(row.path, rows[i], r);
        PathIdIffTexts(row.path, r.path);
      }
      DistinctConcat([row], AllRowsOf(rows));
    }
  }

  lemma {:induction false} ChildIdsAreDistinct(path: DataPath, rows: seq<InspectorRow>)
    requires AreChildren(path, rows) && forall i :: 0 <= i < |rows| ==> Placed(rows[i])
    ensures DistinctRowIds(AllRowsOf(rows))
    decreases rows, 1
  {
    if rows != [] {
      IdsAreDistinct(rows[0]);
      ChildIdsAreDistinct(path, rows[1..]);
      forall r, q | r in AllRows(rows[0]) && q in AllRowsOf(rows[1..])
        ensures r.id != q.id
      {
        ChildrenApart(path, rows, r, q);
      }
      DistinctConcat(AllRows(rows[0]), AllRowsOf(rows[1..]));
    }
  }

  lemma ChildrenApart(path: DataPath, rows: seq<InspectorRow>, r: InspectorRow, q: InspectorRow)
    requires rows != [] && AreChildren(path, rows) && forall i :: 0 <= i < |rows| ==> Placed(rows[i])
    requires r in AllRows(rows[0]) && q in AllRowsOf(rows[1..])
    ensures r.id != q.id
  {
    InAllRowsOf(rows[1..], q);
    var i :| 0 <= i < |rows| - 1 && q in AllRows(rows[1..][i]);
    assert rows[1..][i] == rows[i + 1];
    ChildRowsRead(path, rows[0], r);
    ChildRowsRead(path, rows[i + 1], q);
    PathIdIffTexts(r.path, q.path);
  }

  lemma DistinctConcat(a: seq<InspectorRow>, b: seq<InspectorRow>)
    requires DistinctRowIds(a) && DistinctRowIds(b)
    requires forall r, q :: r in a && q in b ==> r.id != q.id
    ensures DistinctRowIds(a + b)
  {
    forall i, j | 0 <= i < j < |a + b|
      ensures (a + b)[i].id != (a + b)[j].id
    {
      if i < |a| <= j {
        assert (a + b)[i] in a && (a + b)[j] in b;
      }
    }
  }

  // -- The row tree of a described value ----------------------------------------------------

  // The rows of `value`, whatever it is: every row reads its value as its shape says
  // and shows what stands at its path under an id of its own, every issue is counted
  // once, and of a description that was accepted every reference is known.
  method BuildRows(
    root: ShapeNode, definitions: Definitions, value: Option<DataValue>, rootName: string,
    diagnostics: seq<InspectorDiagnostic>) returns (row: InspectorRow, ghost b: Builder)
    requires value.Some? ==> IsObjectTree(value.value)
    ensures b.definitions == definitions
    ensures forall id :: MessagesOf(b, id) == MessagesAt(diagnostics, id)
    ensures Reads(definitions, RowSite([], rootName, None, true), root, value, row)
    ensures IsSound(b, Closed(root, definitions), row)
    ensures Closed(root, definitions) ==> AllKnown(row)
    ensures row.issueCount == TotalMessages(AllRows(row))
    ensures AllFieldNamesDistinct(definitions) ==> Mirrors(b, row, value) && DistinctRowIds(AllRows(row))
  {
    var builder := NewBuilder(definitions, diagnostics);
    var site := RowSite([], rootName, None, true);
    row := Row(builder, site, root, value);
    b := builder;
    RowReads(b, site, root, value);
    RowSound(b, Closed(root, definitions), site, root, value);
    IssueCountIsTotal(b, Closed(root, definitions), row);
    if AllFieldNamesDistinct(definitions) {
      RowMirrors(b, site, root, value);
      MirrorsPlaced(b, row, value);
      IdsAreDistinct(row);
    }
  }
}
