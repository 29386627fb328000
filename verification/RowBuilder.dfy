// How a value becomes rows once its shape is known. There is no failure: where
// value and shape disagree a row says so.
module RowBuilders {
  import opened DataPaths
  import opened Sequences
  import opened Shapes

  datatype RowDisplay =
    | ShowScalar(value: DataValue)
    | ShowVariant(name: string)
    | ShowList(length: nat)
    | ShowMap(length: nat)
    | ShowStruct(name: string)
    | ShowNone
    | ShowDefault
    | ShowMissing

  datatype RowProblem =
    | Mismatch(expected: string, found: string)
    | UnknownVariant(name: string)
    | UnknownDefinition(name: string)
    | Missing

  datatype RowEditor =
    | BooleanEditor
    | IntegerEditor(min: real, max: real)
    | NumberEditor(range: Option<(real, real)>)
    | TextEditor
    | VariantEditor(options: seq<string>, tag: Option<string>)

  datatype InspectorRow = InspectorRow(
    id: string,
    path: DataPath,
    name: string,
    display: RowDisplay,
    editor: Option<RowEditor>,
    value: Option<DataValue>,
    problem: Option<RowProblem>,
    messages: seq<string>,
    issueCount: nat,
    children: RowChildren)

  // An empty list is a branch too: it can be opened, to nothing.
  datatype RowChildren = Leaf | Branch(rows: seq<InspectorRow>)

  // What is known of a row before its value is looked at.
  datatype RowSite = RowSite(path: DataPath, name: string, range: Option<(real, real)>, required: bool)

  datatype InspectorDiagnostic = InspectorDiagnostic(path: DataPath, message: string)

  // What the builder was made with: the definitions and the messages by row id.
  datatype Builder = Builder(definitions: Definitions, messages: map<string, seq<string>>)

  // -- Kinds of values ------------------------------------------------------------

  function ValueKind(value: DataValue): string {
    match value
    case Null => "null"
    case Bool(_) => "boolean"
    case Number(_) => "number"
    case String(_) => "string"
    case List(_) => "list"
    case Map(_) => "map"
  }

  predicate IsInteger(number: real) {
    number == number.Floor as real
  }

  // How deep rows can go: every child shows a smaller value than its parent.
  function Size(value: DataValue): nat
    decreases value, 0
  {
    match value
    case List(items) => 1 + SizeOfItems(items)
    case Map(entries) => 1 + SizeOfEntries(entries)
    case _ => 1
  }

  function SizeOfItems(items: seq<DataValue>): nat
    decreases items, 1
  {
    if items == [] then 0 else Size(items[0]) + SizeOfItems(items[1..])
  }

  function SizeOfEntries(entries: seq<(string, DataValue)>): nat
    decreases entries, 1
  {
    if entries == [] then 0 else SizeOfEntry(entries[0]) + SizeOfEntries(entries[1..])
  }

  function SizeOfEntry(entry: (string, DataValue)): nat
    decreases entry, 1
  {
    Size(entry.1)
  }

  function SizeOf(value: Option<DataValue>): nat {
    if value.Some? then Size(value.value) else 0
  }

  lemma {:induction false} ItemIsSmaller(items: seq<DataValue>, i: nat)
    requires i < |items|
    ensures Size(items[i]) <= SizeOfItems(items)
  {
    if i > 0 {
      ItemIsSmaller(items[1..], i - 1);
    }
  }

  lemma {:induction false} EntryIsSmaller(entries: seq<(string, DataValue)>, i: nat)
    requires i < |entries|
    ensures Size(entries[i].1) <= SizeOfEntries(entries)
  {
    if i > 0 {
      EntryIsSmaller(entries[1..], i - 1);
    }
  }

  lemma FieldIsSmaller(entries: seq<(string, DataValue)>, key: string)
    ensures SizeOf(Get(entries, key)) <= SizeOfEntries(entries)
  {
    var value := Get(entries, key);
    if value.Some? {
      var i :| 0 <= i < |entries| && entries[i] == (key, value.value);
      EntryIsSmaller(entries, i);
    }
  }

  // -- Shapes ------------------------------------------------------------------------

  // A shape without its names and options, and whether it had an option.
  function Strip(shape: ShapeNode): (stripped: (ShapeNode, bool))
    ensures !stripped.0.NamedShape? && !stripped.0.OptionalShape?
  {
    match shape
    case NamedShape(_, of) => Strip(of)
    case OptionalShape(of) => (Strip(of).0, true)
    case _ => (shape, false)
  }

  method Unwrap(shape: ShapeNode) returns (node: ShapeNode, optional: bool)
    ensures (node, optional) == Strip(shape)
  {
    node, optional := shape, false;
    while node.NamedShape? || node.OptionalShape?
      invariant Strip(shape) == (Strip(node).0, optional || Strip(node).1)
      decreases node
    {
      optional := optional || node.OptionalShape?;
      node := node.of;
    }
  }

  // None on a mismatch; else the editor, and no editor for what may only be read.
  function ScalarEditor(node: ShapeNode, value: DataValue, site: RowSite): Option<Option<RowEditor>> {
    match node
    case BoolShape => if value.Bool? then Some(Some(BooleanEditor)) else None
    case IntShape(min, max) =>
      if value.Number? && IsInteger(value.number) then Some(Some(IntegerEditor(min, max))) else None
    case FloatShape(_) => if value.Number? then Some(Some(NumberEditor(site.range))) else None
    case StringShape => if value.String? then Some(Some(TextEditor)) else None
    case AtomShape => if value.String? then Some(Some(TextEditor)) else None
    case _ => if value.String? then Some(None) else None
  }

  function ShapeKind(node: ShapeNode): string {
    match node
    case AnyShape => "any"
    case BoolShape => "bool"
    case IntShape(_, _) => "int"
    case FloatShape(_) => "float"
    case StringShape => "string"
    case AtomShape => "atom"
    case BytesShape => "bytes"
    case RefShape(_, _) => "ref"
    case NamedShape(_, _) => "named"
    case ListShape(_) => "list"
    case MapShape(_) => "map"
    case OptionalShape(_) => "optional"
    case DefShape(_) => "def"
  }

  predicate NeedsFields(variant: VariantShape) {
    variant.fields.Some? && exists i :: 0 <= i < |variant.fields.value| && variant.fields.value[i].required
  }

  // The names an editor offers, in the order of the variants.
  function Switchable(variants: seq<VariantShape>, tag: Option<string>, current: string): seq<string> {
    if variants == [] then []
    else
      var first := variants[0];
      (if tag.None? || first.name == current || !NeedsFields(first) then [first.name] else [])
      + Switchable(variants[1..], tag, current)
  }

  function FindVariant(variants: seq<VariantShape>, name: string): (found: Option<VariantShape>)
    ensures found.Some? ==> found.value in variants && found.value.name == name
  {
    if variants == [] then None
    else if variants[0].name == name then Some(variants[0])
    else FindVariant(variants[1..], name)
  }

  // -- Rows ------------------------------------------------------------------------------

  function SumIssues(rows: seq<InspectorRow>): nat {
    if rows == [] then 0 else rows[0].issueCount + SumIssues(rows[1..])
  }

  function MessagesOf(b: Builder, id: string): seq<string> {
    if id in b.messages then b.messages[id] else []
  }

  function Make(
    b: Builder, site: RowSite, display: RowDisplay, editor: Option<RowEditor>, value: Option<DataValue>,
    problem: Option<RowProblem>, children: RowChildren): InspectorRow
  {
    var id := PathId(site.path);
    var messages := MessagesOf(b, id);
    var issues := |messages| + if children.Branch? then SumIssues(children.rows) else 0;
    InspectorRow(id, site.path, site.name, display, editor, value, problem, messages, issues, children)
  }

  function Child(site: RowSite, segment: Segment): RowSite {
    RowSite(site.path + [segment], SegmentText(segment), None, true)
  }

  function FieldSite(site: RowSite, field: FieldShape): RowSite {
    RowSite(site.path + [Key(field.name)], field.name, field.range, field.required)
  }

  // One row and all below it; `None` stands for a value that is not there.
  function Row(b: Builder, site: RowSite, shape: ShapeNode, value: Option<DataValue>): InspectorRow
    decreases SizeOf(value), 4
  {
    var (node, optional) := Strip(shape);
    if value.None? || (optional && value.value.Null?) then Absent(b, site, optional)
    else Present(b, site, node, value.value)
  }

  function Absent(b: Builder, site: RowSite, optional: bool): InspectorRow {
    if optional then Make(b, site, ShowNone, None, None, None, Leaf)
    else if !site.required then Make(b, site, ShowDefault, None, None, None, Leaf)
    else Make(b, site, ShowMissing, None, None, Some(Missing), Leaf)
  }

  function Present(b: Builder, site: RowSite, node: ShapeNode, value: DataValue): InspectorRow
    decreases Size(value), 3
  {
    match node
    case DefShape(name) => DefinitionRow(b, site, name, value)
    case ListShape(of) => ListRow(b, site, of, value)
    case MapShape(of) => MapRow(b, site, of, value)
    case AnyShape => Generic(b, site, value, None)
    case _ => Scalar(b, site, node, value)
  }

  function Scalar(b: Builder, site: RowSite, node: ShapeNode, value: DataValue): InspectorRow {
    var editor := ScalarEditor(node, value, site);
    if editor.None? then Generic(b, site, value, Some(Mismatch(ShapeKind(node), ValueKind(value))))
    else Make(b, site, ShowScalar(value), editor.value, Some(value), None, Leaf)
  }

  // Rows for a value no shape helps with; only the first carries the problem.
  function Generic(b: Builder, site: RowSite, value: DataValue, problem: Option<RowProblem>): InspectorRow
    decreases Size(value), 0
  {
    match value
    case List(items) =>
      var rows := seq(|items|, i requires 0 <= i < |items| =>
        ItemIsSmaller(items, i);
        Generic(b, Child(site, Index(i)), items[i], None));
      Make(b, site, ShowList(|items|), None, None, problem, Branch(rows))
    case Map(entries) =>
      var rows := seq(|entries|, i requires 0 <= i < |entries| =>
        EntryIsSmaller(entries, i);
        Generic(b, Child(site, Key(entries[i].0)), entries[i].1, None));
      Make(b, site, ShowMap(|entries|), None, None, problem, Branch(rows))
    case _ => Make(b, site, ShowScalar(value), None, None, problem, Leaf)
  }

  function ListRow(b: Builder, site: RowSite, of: ShapeNode, value: DataValue): InspectorRow
    decreases Size(value), 2
  {
    match value
    case List(items) =>
      var rows := seq(|items|, i requires 0 <= i < |items| =>
        ItemIsSmaller(items, i);
        Row(b, Child(site, Index(i)), of, Some(items[i])));
      Make(b, site, ShowList(|items|), None, None, None, Branch(rows))
    case _ => Generic(b, site, value, Some(Mismatch("list", ValueKind(value))))
  }

  function MapRow(b: Builder, site: RowSite, of: ShapeNode, value: DataValue): InspectorRow
    decreases Size(value), 2
  {
    match value
    case Map(entries) =>
      var rows := seq(|entries|, i requires 0 <= i < |entries| =>
        EntryIsSmaller(entries, i);
        Row(b, Child(site, Key(entries[i].0)), of, Some(entries[i].1)));
      Make(b, site, ShowMap(|entries|), None, None, None, Branch(rows))
    case _ => Generic(b, site, value, Some(Mismatch("map", ValueKind(value))))
  }

  function FieldRows(
    b: Builder, site: RowSite, fields: seq<FieldShape>, entries: seq<(string, DataValue)>): (rows: seq<InspectorRow>)
    ensures |rows| == |fields|
    decreases SizeOfEntries(entries), 5
  {
    seq(|fields|, i requires 0 <= i < |fields| =>
      FieldIsSmaller(entries, fields[i].name);
      Row(b, FieldSite(site, fields[i]), fields[i].shape, Get(entries, fields[i].name)))
  }

  // A branch only when there is something under it.
  function BranchOf(rows: seq<InspectorRow>): RowChildren {
    if rows != [] then Branch(rows) else Leaf
  }

  function DefinitionRow(b: Builder, site: RowSite, name: string, value: DataValue): InspectorRow
    decreases Size(value), 2
  {
    var definition: Option<Definition> := Get(b.definitions, name);
    match definition
    case None => Generic(b, site, value, Some(UnknownDefinition(name)))
    case Some(Enum(tag, variants)) => EnumRow(b, site, tag, variants, value)
    case Some(Struct(fields)) =>
      (match value
       case Map(entries) =>
         Make(b, site, ShowStruct(name), None, None, None, BranchOf(FieldRows(b, site, fields, entries)))
       case _ => Generic(b, site, value, Some(Mismatch(name, ValueKind(value)))))
  }

  // The name of the variant a value is of.
  function VariantName(tag: Option<string>, value: DataValue): Option<string> {
    var name := if tag.None? then Some(value) else if value.Map? then Get(value.entries, tag.value) else None;
    if name.Some? && name.value.String? then Some(name.value.text) else None
  }

  function EnumRow(
    b: Builder, site: RowSite, tag: Option<string>, variants: seq<VariantShape>, value: DataValue): InspectorRow
    decreases Size(value), 1
  {
    match VariantName(tag, value)
    case None =>
      Generic(b, site, value, Some(Mismatch(if tag.None? then "string" else "map", ValueKind(value))))
    case Some(name) =>
      var editor := Some(VariantEditor(Switchable(variants, tag, name), tag));
      match FindVariant(variants, name)
      case None =>
        Make(b, site, ShowVariant(name), editor, Some(String(name)), Some(UnknownVariant(name)), Leaf)
      case Some(variant) =>
        var rows := if variant.fields.Some? && value.Map?
                    then FieldRows(b, site, variant.fields.value, value.entries) else [];
        Make(b, site, ShowVariant(name), editor, Some(String(name)), None, BranchOf(rows))
  }

  // The messages of every row: the diagnostics of its path, in order.
  function MessagesAt(diagnostics: seq<InspectorDiagnostic>, id: string): seq<string> {
    if diagnostics == [] then []
    else
      var last := diagnostics[|diagnostics| - 1];
      MessagesAt(diagnostics[..|diagnostics| - 1], id) + if PathId(last.path) == id then [last.message] else []
  }

  method NewBuilder(definitions: Definitions, diagnostics: seq<InspectorDiagnostic>) returns (b: Builder)
    ensures b.definitions == definitions
    ensures forall id :: MessagesOf(b, id) == MessagesAt(diagnostics, id)
  {
    var messages: map<string, seq<string>> := map[];
    for i := 0 to |diagnostics|
      invariant forall id :: MessagesOf(Builder(definitions, messages), id) == MessagesAt(diagnostics[..i], id)
    {
      var id := PathId(diagnostics[i].path);
      assert diagnostics[..i + 1][..i] == diagnostics[..i];
      messages := messages[id := (if id in messages then messages[id] else []) + [diagnostics[i].message]];
    }
    assert diagnostics[..|diagnostics|] == diagnostics;
    b := Builder(definitions, messages);
  }

  // The messages of exactly the diagnostics at a row's path, in their order.
  ghost predicate AreMessagesAt(messages: seq<string>, diagnostics: seq<InspectorDiagnostic>, id: string) {
    exists places: seq<nat> :: AreTheirPlaces(places, messages, diagnostics, id)
  }

  ghost predicate AreTheirPlaces(
    places: seq<nat>, messages: seq<string>, diagnostics: seq<InspectorDiagnostic>, id: string)
  {
    && |places| == |messages|
    && (forall k :: 0 <= k < |places| ==>
          places[k] < |diagnostics| && messages[k] == diagnostics[places[k]].message)
    && (forall k, l :: 0 <= k < l < |places| ==> places[k] < places[l])
    && (forall i: nat :: i < |diagnostics| ==> (i in places <==> PathId(diagnostics[i].path) == id))
  }

  lemma LastPlace(
    places: seq<nat>, messages: seq<string>, front: seq<InspectorDiagnostic>, last: InspectorDiagnostic, id: string)
    requires AreTheirPlaces(places, messages, front, id)
    ensures PathId(last.path) == id ==>
              AreTheirPlaces(places + [|front|], messages + [last.message], front + [last], id)
    ensures PathId(last.path) != id ==> AreTheirPlaces(places, messages, front + [last], id)
  {
    var all := front + [last];
    assert forall i: nat :: i < |front| ==> all[i] == front[i];
    assert |front| !in places;
    forall i: nat
      ensures i in places + [|front|] <==> i in places || i == |front|
    {
    }
  }

  lemma {:induction false} MessagesAreAt(diagnostics: seq<InspectorDiagnostic>, id: string) returns (places: seq<nat>)
    ensures AreTheirPlaces(places, MessagesAt(diagnostics, id), diagnostics, id)
  {
    if diagnostics == [] {
      places := [];
    } else {
      var front, last := diagnostics[..|diagnostics| - 1], diagnostics[|diagnostics| - 1];
      places := MessagesAreAt(front, id);
      var messages := MessagesAt(front, id);
      LastPlace(places, messages, front, last, id);
      assert front + [last] == diagnostics && messages + [] == messages;
      if PathId(last.path) == id {
        places := places + [|front|];
      }
    }
  }
}
