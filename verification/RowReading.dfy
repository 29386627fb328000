// What the rows of a value have to say, told by its shape and the value alone, and
// that the rows which are built say it.
module RowReadings {
  import opened DataPaths
  import opened Sequences
  import opened Shapes
  import opened RowBuilders

  // -- What a row says -----------------------------------------------------------------

  ghost predicate Stands(row: InspectorRow, site: RowSite, display: RowDisplay, problem: Option<RowProblem>) {
    row.path == site.path && row.name == site.name && row.display == display && row.problem == problem
  }

  // A row that can't be edited.
  ghost predicate IsFixed(row: InspectorRow) {
    row.editor == None && row.value == None
  }

  ghost predicate IsEdited(row: InspectorRow, site: RowSite, value: DataValue, editor: Option<RowEditor>) {
    && Stands(row, site, ShowScalar(value), None)
    && row.editor == editor && row.value == Some(value) && row.children == Leaf
  }

  predicate IsKind(value: DataValue, kind: string) {
    match value
    case Null => kind == "null"
    case Bool(_) => kind == "boolean"
    case Number(_) => kind == "number"
    case String(_) => kind == "string"
    case List(_) => kind == "list"
    case Map(_) => kind == "map"
  }

  // The problem of a value that is not what is `expected`.
  ghost predicate IsMismatch(problem: Option<RowProblem>, expected: string, value: DataValue) {
    problem.Some? && problem.value.Mismatch? && problem.value.expected == expected && IsKind(value, problem.value.found)
  }

  // Plain data: a row for every item and entry, in order, none of them a problem.
  ghost predicate IsPlain(row: InspectorRow, site: RowSite, value: DataValue, problem: Option<RowProblem>)
    decreases row
  {
    && IsFixed(row)
    && match value
       case List(items) =>
         && Stands(row, site, ShowList(|items|), problem)
         && row.children.Branch? && |row.children.rows| == |items|
         && forall i :: 0 <= i < |items| ==>
              IsPlain(row.children.rows[i], ItemSite(site, i), items[i], None)
       case Map(entries) =>
         && Stands(row, site, ShowMap(|entries|), problem)
         && row.children.Branch? && |row.children.rows| == |entries|
         && forall i :: 0 <= i < |entries| ==>
              IsPlain(row.children.rows[i], EntrySite(site, entries[i].0), entries[i].1, None)
       case _ => Stands(row, site, ShowScalar(value), problem) && row.children == Leaf
  }

  function ItemSite(site: RowSite, i: nat): RowSite {
    RowSite(site.path + [Index(i)], SegmentText(Index(i)), None, true)
  }

  function EntrySite(site: RowSite, key: string): RowSite {
    RowSite(site.path + [Key(key)], key, None, true)
  }

  // -- What an editor offers ------------------------------------------------------------

  // Switching keeps no other field, so a tagged variant may need none.
  ghost predicate IsOffered(tag: Option<string>, current: string, variant: VariantShape) {
    || tag.None? || variant.name == current || variant.fields.None?
    || forall field :: field in variant.fields.value ==> !field.required
  }

  ghost function Offered(tag: Option<string>, variants: seq<VariantShape>, current: string): (offered: seq<bool>)
    ensures |offered| == |variants|
    ensures forall i :: 0 <= i < |variants| ==> (offered[i] <==> IsOffered(tag, current, variants[i]))
  {
    seq(|variants|, i requires 0 <= i < |variants| => IsOffered(tag, current, variants[i]))
  }

  // The names of exactly the variants offered, in their order.
  ghost predicate AreOptions(options: seq<string>, variants: seq<VariantShape>, offered: seq<bool>)
    requires |offered| == |variants|
  {
    exists places: seq<nat> :: ArePlaces(places, options, variants, offered)
  }

  ghost predicate ArePlaces(
    places: seq<nat>, options: seq<string>, variants: seq<VariantShape>, offered: seq<bool>)
    requires |offered| == |variants|
  {
    && |places| == |options|
    && (forall k :: 0 <= k < |places| ==> places[k] < |variants| && options[k] == variants[places[k]].name)
    && (forall k, l :: 0 <= k < l < |places| ==> places[k] < places[l])
    && (forall i: nat :: i < |variants| ==> (i in places <==> offered[i]))
  }

  // -- Reading a value as a shape ----------------------------------------------------------

  // `row` reads `value`, none when absent, as `shape`.
  ghost predicate Reads(
    definitions: Definitions, site: RowSite, shape: ShapeNode, value: Option<DataValue>, row: InspectorRow)
    decreases row, 4, shape
  {
    match shape
    case NamedShape(_, of) => Reads(definitions, site, of, value, row)
    case OptionalShape(of) =>
      if value.None? || value.value.Null? then Stands(row, site, ShowNone, None) && IsFixed(row) && row.children == Leaf
      else Reads(definitions, site, of, value, row)
    case _ =>
      if value.Some? then ReadsValue(definitions, site, shape, value.value, row)
      else
        && (if site.required then Stands(row, site, ShowMissing, Some(Missing))
            else Stands(row, site, ShowDefault, None))
        && IsFixed(row) && row.children == Leaf
  }

  ghost predicate ReadsValue(
    definitions: Definitions, site: RowSite, shape: ShapeNode, value: DataValue, row: InspectorRow)
    decreases row, 3
  {
    match shape
    case BoolShape =>
      if value.Bool? then IsEdited(row, site, value, Some(BooleanEditor)) else IsMisfit(row, site, value, "bool")
    case IntShape(min, max) =>
      if value.Number? && value.number == value.number.Floor as real
      then IsEdited(row, site, value, Some(IntegerEditor(min, max)))
      else IsMisfit(row, site, value, "int")
    case FloatShape(_) =>
      if value.Number? then IsEdited(row, site, value, Some(NumberEditor(site.range)))
      else IsMisfit(row, site, value, "float")
    case StringShape =>
      if value.String? then IsEdited(row, site, value, Some(TextEditor)) else IsMisfit(row, site, value, "string")
    case AtomShape =>
      if value.String? then IsEdited(row, site, value, Some(TextEditor)) else IsMisfit(row, site, value, "atom")
    case BytesShape =>
      if value.String? then IsEdited(row, site, value, None) else IsMisfit(row, site, value, "bytes")
    case RefShape(_, _) =>
      if value.String? then IsEdited(row, site, value, None) else IsMisfit(row, site, value, "ref")
    case ListShape(of) =>
      if !value.List? then IsMisfit(row, site, value, "list")
      else
        && Stands(row, site, ShowList(|value.items|), None) && IsFixed(row)
        && row.children.Branch? && |row.children.rows| == |value.items|
        && forall i :: 0 <= i < |value.items| ==>
             Reads(definitions, ItemSite(site, i), of, Some(value.items[i]), row.children.rows[i])
    case MapShape(of) =>
      if !value.Map? then IsMisfit(row, site, value, "map")
      else
        && Stands(row, site, ShowMap(|value.entries|), None) && IsFixed(row)
        && row.children.Branch? && |row.children.rows| == |value.entries|
        && forall i :: 0 <= i < |value.entries| ==>
             var (key, item) := value.entries[i];
             Reads(definitions, EntrySite(site, key), of, Some(item), row.children.rows[i])
    case DefShape(name) => ReadsDefined(definitions, site, name, value, row)
    case _ => IsPlain(row, site, value, None)
  }

  // The value is no such scalar, and shown as plain data.
  ghost predicate IsMisfit(row: InspectorRow, site: RowSite, value: DataValue, expected: string) {
    IsPlain(row, site, value, row.problem) && IsMismatch(row.problem, expected, value)
  }

  ghost predicate ReadsDefined(
    definitions: Definitions, site: RowSite, name: string, value: DataValue, row: InspectorRow)
    decreases row, 2
  {
    var definition: Option<Definition> := Get(definitions, name);
    match definition
    case None => IsPlain(row, site, value, Some(UnknownDefinition(name)))
    case Some(Struct(fields)) =>
      if !value.Map? then IsMisfit(row, site, value, name)
      else
        && Stands(row, site, ShowStruct(name), None) && IsFixed(row)
        && ReadsFields(definitions, site, fields, value.entries, row)
    case Some(Enum(tag, variants)) => ReadsVariant(definitions, site, tag, variants, value, row)
  }

  // A row for every field, in order, present or not; none, and no branch, without fields.
  ghost predicate ReadsFields(
    definitions: Definitions, site: RowSite, fields: seq<FieldShape>, entries: seq<(string, DataValue)>,
    row: InspectorRow)
    decreases row, 0
  {
    if fields == [] then row.children == Leaf
    else
      && row.children.Branch? && |row.children.rows| == |fields|
      && forall i :: 0 <= i < |fields| ==>
           var field := fields[i];
           var below := RowSite(site.path + [Key(field.name)], field.name, field.range, field.required);
           Reads(definitions, below, field.shape, Get(entries, field.name), row.children.rows[i])
  }

  // A plain enum's value is the variant's name; a tagged one's is under the tag.
  predicate IsNamed(tag: Option<string>, value: DataValue, name: string) {
    if tag.None? then value == String(name) else value.Map? && Get(value.entries, tag.value) == Some(String(name))
  }

  ghost predicate ReadsVariant(
    definitions: Definitions, site: RowSite, tag: Option<string>, variants: seq<VariantShape>, value: DataValue,
    row: InspectorRow)
    decreases row, 1, 1
  {
    || (exists name :: IsNamed(tag, value, name) && ReadsNamed(definitions, site, tag, variants, value, name, row))
    || (&& (forall name :: !IsNamed(tag, value, name))
        && IsMisfit(row, site, value, if tag.None? then "string" else "map"))
  }

  ghost predicate IsFirstNamed(variants: seq<VariantShape>, name: string, i: nat) {
    i < |variants| && variants[i].name == name && forall k :: 0 <= k < i ==> variants[k].name != name
  }

  // The name, the editor that switches it, and the first variant's rows.
  ghost predicate ReadsNamed(
    definitions: Definitions, site: RowSite, tag: Option<string>, variants: seq<VariantShape>, value: DataValue,
    name: string, row: InspectorRow)
    decreases row, 1, 0
  {
    && row.value == Some(String(name)) && EditsVariant(row.editor, tag, variants, name)
    && ((&& (forall variant :: variant in variants ==> variant.name != name)
         && Stands(row, site, ShowVariant(name), Some(UnknownVariant(name))) && row.children == Leaf)
        || (&& Stands(row, site, ShowVariant(name), None)
            && exists i: nat :: IsFirstNamed(variants, name, i) &&
                 ReadsFields(definitions, site, if value.Map? then FieldsOf(variants[i]) else [],
                             if value.Map? then value.entries else [], row)))
  }

  ghost predicate EditsVariant(
    editor: Option<RowEditor>, tag: Option<string>, variants: seq<VariantShape>, current: string)
  {
    && editor.Some? && editor.value.VariantEditor? && editor.value.tag == tag
    && AreOptions(editor.value.options, variants, Offered(tag, variants, current))
  }

  function FieldsOf(variant: VariantShape): seq<FieldShape> {
    if variant.fields.Some? then variant.fields.value else []
  }

  // -- The rows that are built ----------------------------------------------------------------

  lemma {:induction false} PlainRows(b: Builder, site: RowSite, value: DataValue, problem: Option<RowProblem>)
    ensures IsPlain(Generic(b, site, value, problem), site, value, problem)
    decreases Size(value)
  {
    var row := Generic(b, site, value, problem);
    match value
    case List(items) =>
      forall i | 0 <= i < |items|
        ensures IsPlain(row.children.rows[i], ItemSite(site, i), items[i], None)
      {
        ItemIsSmaller(items, i);
        PlainRows(b, Child(site, Index(i)), items[i], None);
      }
    case Map(entries) =>
      forall i | 0 <= i < |entries|
        ensures IsPlain(row.children.rows[i], EntrySite(site, entries[i].0), entries[i].1, None)
      {
        EntryIsSmaller(entries, i);
        PlainRows(b, Child(site, Key(entries[i].0)), entries[i].1, None);
      }
    case _ =>
  }

  lemma MisfitRow(b: Builder, site: RowSite, value: DataValue, expected: string)
    ensures IsMisfit(Generic(b, site, value, Some(Mismatch(expected, ValueKind(value)))), site, value, expected)
  {
    PlainRows(b, site, value, Some(Mismatch(expected, ValueKind(value))));
  }

  lemma OfferedFirst(first: VariantShape, tag: Option<string>, current: string)
    ensures IsOffered(tag, current, first) <==> tag.None? || first.name == current || !NeedsFields(first)
  {
    if NeedsFields(first) {
      var i :| 0 <= i < |first.fields.value| && first.fields.value[i].required;
      assert first.fields.value[i] in first.fields.value;
    }
  }

  // The same places one further on.
  function Moved(places: seq<nat>): (moved: seq<nat>)
    ensures |moved| == |places| && forall k :: 0 <= k < |places| ==> moved[k] == places[k] + 1
  {
    seq(|places|, k requires 0 <= k < |places| => places[k] + 1)
  }

  lemma InMoved(places: seq<nat>, i: nat)
    ensures i in Moved(places) <==> i > 0 && i - 1 in places
  {
    if i > 0 && i - 1 in places {
      var k :| 0 <= k < |places| && places[k] == i - 1;
      assert Moved(places)[k] == i;
    }
  }

  lemma SkipsFirst(
    places: seq<nat>, options: seq<string>, variants: seq<VariantShape>, offered: seq<bool>)
    requires |offered| == |variants| > 0 && !offered[0]
    requires ArePlaces(places, options, variants[1..], offered[1..])
    ensures ArePlaces(Moved(places), options, variants, offered)
  {
    forall i: nat | i < |variants|
      ensures i in Moved(places) <==> offered[i]
    {
      InMoved(places, i);
      assert i > 0 ==> offered[i] == offered[1..][i - 1];
    }
  }

  lemma TakesFirst(
    places: seq<nat>, options: seq<string>, variants: seq<VariantShape>, offered: seq<bool>)
    requires |offered| == |variants| > 0 && offered[0]
    requires ArePlaces(places, options, variants[1..], offered[1..])
    ensures ArePlaces([0] + Moved(places), [variants[0].name] + options, variants, offered)
  {
    var all := [0] + Moved(places);
    forall i: nat | i < |variants|
      ensures i in all <==> offered[i]
    {
      InMoved(places, i);
      assert i in all <==> i == 0 || i in Moved(places);
      assert i > 0 ==> offered[i] == offered[1..][i - 1];
    }
  }

  // A variant editor offers exactly the variants that can be switched to.
  lemma {:induction false} OptionsAreOffered(variants: seq<VariantShape>, tag: Option<string>, current: string)
    returns (places: seq<nat>)
    ensures ArePlaces(places, Switchable(variants, tag, current), variants, Offered(tag, variants, current))
  {
    if variants == [] {
      places := [];
    } else {
      var options, offered := Switchable(variants[1..], tag, current), Offered(tag, variants, current);
      places := OptionsAreOffered(variants[1..], tag, current);
      assert Offered(tag, variants[1..], current) == offered[1..];
      OfferedFirst(variants[0], tag, current);
      if offered[0] {
        TakesFirst(places, options, variants, offered);
        places := [0] + Moved(places);
      } else {
        SkipsFirst(places, options, variants, offered);
        assert [] + options == options;
        places := Moved(places);
      }
    }
  }

  // Reading sees through names and options.
  lemma {:induction false} ReadsStripped(
    definitions: Definitions, site: RowSite, shape: ShapeNode, value: Option<DataValue>, row: InspectorRow)
    ensures var (node, optional) := Strip(shape);
            Reads(definitions, site, shape, value, row) <==>
            if optional && (value.None? || value.value.Null?)
            then Stands(row, site, ShowNone, None) && IsFixed(row) && row.children == Leaf
            else Reads(definitions, site, node, value, row)
    decreases shape
  {
    if shape.NamedShape? || shape.OptionalShape? {
      ReadsStripped(definitions, site, shape.of, value, row);
    }
  }

  // Every row that is built reads its value as its shape says, whatever both are.
  lemma {:induction false} RowReads(b: Builder, site: RowSite, shape: ShapeNode, value: Option<DataValue>)
    ensures Reads(b.definitions, site, shape, value, Row(b, site, shape, value))
    decreases SizeOf(value), 4
  {
    var (node, optional) := Strip(shape);
    ReadsStripped(b.definitions, site, shape, value, Row(b, site, shape, value));
    if value.Some? && !(optional && value.value.Null?) {
      PresentReads(b, site, node, value.value);
    }
  }

  lemma {:induction false} PresentReads(b: Builder, site: RowSite, node: ShapeNode, value: DataValue)
    requires !node.NamedShape? && !node.OptionalShape?
    ensures ReadsValue(b.definitions, site, node, value, Present(b, site, node, value))
    decreases Size(value), 3
  {
    match node
    case DefShape(name) => DefinitionReads(b, site, name, value);
    case ListShape(of) =>
      if value.List? {
        ListReads(b, site, of, value);
      } else {
        MisfitRow(b, site, value, "list");
      }
    case MapShape(of) =>
      if value.Map? {
        MapReads(b, site, of, value);
      } else {
        MisfitRow(b, site, value, "map");
      }
    case AnyShape => PlainRows(b, site, value, None);
    case _ => ScalarReads(b, site, node, value);
  }

  lemma ScalarReads(b: Builder, site: RowSite, node: ShapeNode, value: DataValue)
    requires !node.AnyShape? && !node.NamedShape? && !node.OptionalShape?
    requires !node.DefShape? && !node.ListShape? && !node.MapShape?
    ensures ReadsValue(b.definitions, site, node, value, Scalar(b, site, node, value))
  {
    if ScalarEditor(node, value, site).None? {
      MisfitRow(b, site, value, ShapeKind(node));
    }
  }

  lemma {:induction false} ListReads(b: Builder, site: RowSite, of: ShapeNode, value: DataValue)
    requires value.List?
    ensures ReadsValue(b.definitions, site, ListShape(of), value, ListRow(b, site, of, value))
    decreases Size(value), 2
  {
    var row := ListRow(b, site, of, value);
    forall i | 0 <= i < |value.items|
      ensures Reads(b.definitions, ItemSite(site, i), of, Some(value.items[i]), row.children.rows[i])
    {
      ItemIsSmaller(value.items, i);
      RowReads(b, Child(site, Index(i)), of, Some(value.items[i]));
    }
  }

  lemma {:induction false} MapReads(b: Builder, site: RowSite, of: ShapeNode, value: DataValue)
    requires value.Map?
    ensures ReadsValue(b.definitions, site, MapShape(of), value, MapRow(b, site, of, value))
    decreases Size(value), 2
  {
    var row := MapRow(b, site, of, value);
    forall i | 0 <= i < |value.entries|
      ensures Reads(b.definitions, EntrySite(site, value.entries[i].0), of, Some(value.entries[i].1),
                    row.children.rows[i])
    {
      EntryIsSmaller(value.entries, i);
      RowReads(b, Child(site, Key(value.entries[i].0)), of, Some(value.entries[i].1));
    }
  }

  lemma {:induction false} FieldsRead(
    b: Builder, site: RowSite, fields: seq<FieldShape>, entries: seq<(string, DataValue)>, row: InspectorRow)
    requires row.children == BranchOf(FieldRows(b, site, fields, entries))
    ensures ReadsFields(b.definitions, site, fields, entries, row)
    decreases SizeOfEntries(entries), 6
  {
    var rows := FieldRows(b, site, fields, entries);
    forall i | 0 <= i < |fields|
      ensures Reads(b.definitions, FieldSite(site, fields[i]), fields[i].shape, Get(entries, fields[i].name), rows[i])
    {
      FieldIsSmaller(entries, fields[i].name);
      RowReads(b, FieldSite(site, fields[i]), fields[i].shape, Get(entries, fields[i].name));
    }
  }

  lemma {:induction false} DefinitionReads(b: Builder, site: RowSite, name: string, value: DataValue)
    ensures ReadsDefined(b.definitions, site, name, value, DefinitionRow(b, site, name, value))
    decreases Size(value), 2
  {
    var found: Option<Definition> := Get(b.definitions, name);
    match found
    case None => PlainRows(b, site, value, Some(UnknownDefinition(name)));
    case Some(Struct(fields)) =>
      if value.Map? {
        FieldsRead(b, site, fields, value.entries, DefinitionRow(b, site, name, value));
      } else {
        MisfitRow(b, site, value, name);
      }
    case Some(Enum(tag, variants)) => VariantReads(b, site, tag, variants, value);
  }

  lemma {:induction false} FindsVariant(variants: seq<VariantShape>, name: string)
    ensures FindVariant(variants, name).None? ==> forall variant :: variant in variants ==> variant.name != name
    ensures FindVariant(variants, name).Some? ==>
              exists i: nat :: IsFirstNamed(variants, name, i) && variants[i] == FindVariant(variants, name).value
  {
    if variants != [] && variants[0].name != name {
      var rest := variants[1..];
      FindsVariant(rest, name);
      if FindVariant(variants, name).Some? {
        var i: nat :| IsFirstNamed(rest, name, i) && rest[i] == FindVariant(rest, name).value;
        assert forall k :: 1 <= k < i + 1 ==> variants[k] == rest[k - 1];
        assert IsFirstNamed(variants, name, i + 1) && variants[i + 1] == rest[i];
      }
    } else if variants != [] {
      assert IsFirstNamed(variants, name, 0);
    }
  }

  lemma {:induction false} VariantReads(
    b: Builder, site: RowSite, tag: Option<string>, variants: seq<VariantShape>, value: DataValue)
    ensures ReadsVariant(b.definitions, site, tag, variants, value, EnumRow(b, site, tag, variants, value))
    decreases Size(value), 1, 1
  {
    var named := VariantName(tag, value);
    if named.None? {
      MisfitRow(b, site, value, if tag.None? then "string" else "map");
    } else {
      assert IsNamed(tag, value, named.value);
      NamedReads(b, site, tag, variants, value, named.value);
    }
  }

  lemma {:induction false} NamedReads(
    b: Builder, site: RowSite, tag: Option<string>, variants: seq<VariantShape>, value: DataValue, name: string)
    requires VariantName(tag, value) == Some(name)
    ensures ReadsNamed(b.definitions, site, tag, variants, value, name, EnumRow(b, site, tag, variants, value))
    decreases Size(value), 1, 0
  {
    var row := EnumRow(b, site, tag, variants, value);
    EditorOffers(variants, tag, name);
    FindsVariant(variants, name);
    var variant := FindVariant(variants, name);
    if variant.Some? {
      var i: nat :| IsFirstNamed(variants, name, i) && variants[i] == variant.value;
      assert Stands(row, site, ShowVariant(name), None);
      FoundReads(b, site, tag, variants, value, name, variant.value);
    } else {
      assert Stands(row, site, ShowVariant(name), Some(UnknownVariant(name))) && row.children == Leaf;
    }
  }

  lemma {:induction false} FoundReads(
    b: Builder, site: RowSite, tag: Option<string>, variants: seq<VariantShape>, value: DataValue, name: string,
    variant: VariantShape)
    requires VariantName(tag, value) == Some(name) && FindVariant(variants, name) == Some(variant)
    ensures ReadsFields(b.definitions, site, if value.Map? then FieldsOf(variant) else [],
                        if value.Map? then value.entries else [], EnumRow(b, site, tag, variants, value))
    decreases Size(value), 0
  {
    if value.Map? && variant.fields.Some? {
      FieldsRead(b, site, variant.fields.value, value.entries, EnumRow(b, site, tag, variants, value));
    }
  }

  lemma EditorOffers(variants: seq<VariantShape>, tag: Option<string>, current: string)
    ensures EditsVariant(Some(VariantEditor(Switchable(variants, tag, current), tag)), tag, variants, current)
  {
    var places := OptionsAreOffered(variants, tag, current);
  }
}
