// When a value fits its shape, and that the rows tell exactly when it does not.
module Conformance {
  import opened DataPaths
  import opened Sequences
  import opened Shapes
  import opened RowBuilders
  import opened RowTrees

  // -- What it means to fit -------------------------------------------------------

  // `value` (none when absent) is what `shape` describes.
  ghost predicate Fits(definitions: Definitions, shape: ShapeNode, required: bool, value: Option<DataValue>)
    decreases SizeOf(value), 2, shape
  {
    match shape
    case NamedShape(_, of) => Fits(definitions, of, required, value)
    case OptionalShape(of) => value == None || value == Some(Null) || Fits(definitions, of, required, value)
    case _ => if value.None? then !required else IsOf(definitions, shape, value.value)
  }

  ghost predicate IsOf(definitions: Definitions, shape: ShapeNode, value: DataValue)
    decreases Size(value), 1
  {
    match shape
    case AnyShape => true
    case BoolShape => value.Bool?
    case IntShape(_, _) => value.Number? && IsInteger(value.number)
    case FloatShape(_) => value.Number?
    case ListShape(of) =>
      && value.List?
      && forall i :: 0 <= i < |value.items| ==> ItemFits(definitions, of, value.items, i)
    case MapShape(of) =>
      && value.Map?
      && forall i :: 0 <= i < |value.entries| ==> EntryFits(definitions, of, value.entries, i)
    case DefShape(name) => Get(definitions, name).Some? && IsDefined(definitions, Get(definitions, name).value, value)
    case _ => value.String?
  }

  ghost predicate ItemFits(definitions: Definitions, of: ShapeNode, items: seq<DataValue>, i: int)
    requires 0 <= i < |items|
    decreases SizeOfItems(items), 3
  {
    ItemIsSmaller(items, i);
    Fits(definitions, of, true, Some(items[i]))
  }

  ghost predicate EntryFits(definitions: Definitions, of: ShapeNode, entries: seq<(string, DataValue)>, i: int)
    requires 0 <= i < |entries|
    decreases SizeOfEntries(entries), 3
  {
    EntryIsSmaller(entries, i);
    Fits(definitions, of, true, Some(entries[i].1))
  }

  ghost predicate FieldFits(definitions: Definitions, field: FieldShape, entries: seq<(string, DataValue)>)
    decreases SizeOfEntries(entries), 3
  {
    FieldIsSmaller(entries, field.name);
    Fits(definitions, field.shape, field.required, Get(entries, field.name))
  }

  // A struct has its fields; an enum's value names a variant, with its fields
  // when it is an object.
  ghost predicate IsDefined(definitions: Definitions, definition: Definition, value: DataValue)
    decreases Size(value), 0
  {
    match definition
    case Struct(fields) =>
      && value.Map?
      && forall i :: 0 <= i < |fields| ==> FieldFits(definitions, fields[i], value.entries)
    case Enum(tag, variants) =>
      var name := VariantName(tag, value);
      && name.Some?
      && var variant := FindVariant(variants, name.value);
         && variant.Some?
         && (variant.value.fields.Some? && value.Map? ==>
               var fields := variant.value.fields.value;
               forall i :: 0 <= i < |fields| ==> FieldFits(definitions, fields[i], value.entries))
  }

  // -- Rows without problems -----------------------------------------------------------

  ghost predicate Fine(row: InspectorRow) {
    forall r :: r in AllRows(row) ==> r.problem == None
  }

  ghost predicate AllFine(rows: seq<InspectorRow>) {
    forall i :: 0 <= i < |rows| ==> Fine(rows[i])
  }

  lemma FineIff(row: InspectorRow)
    ensures Fine(row) <==> row.problem == None && (row.children.Branch? ==> AllFine(row.children.rows))
  {
    assert row in AllRows(row);
    if row.children.Branch? {
      forall r
        ensures r in AllRowsOf(row.children.rows) <==>
                exists i :: 0 <= i < |row.children.rows| && r in AllRows(row.children.rows[i])
      {
        InAllRowsOf(row.children.rows, r);
      }
    }
  }

  // Plain data is a problem only for what it stands for.
  lemma {:induction false} GenericFine(b: Builder, site: RowSite, value: DataValue, problem: Option<RowProblem>)
    ensures Fine(Generic(b, site, value, problem)) <==> problem == None
    decreases Size(value)
  {
    var row := Generic(b, site, value, problem);
    FineIff(row);
    match value
    case List(items) =>
      forall i | 0 <= i < |items|
        ensures Fine(row.children.rows[i])
      {
        ItemIsSmaller(items, i);
        GenericFine(b, Child(site, Index(i)), items[i], None);
      }
    case Map(entries) =>
      forall i | 0 <= i < |entries|
        ensures Fine(row.children.rows[i])
      {
        EntryIsSmaller(entries, i);
        GenericFine(b, Child(site, Key(entries[i].0)), entries[i].1, None);
      }
    case _ =>
  }

  lemma {:induction false} FitsStripped(
    definitions: Definitions, shape: ShapeNode, required: bool, value: Option<DataValue>)
    ensures var (node, optional) := Strip(shape);
            Fits(definitions, shape, required, value) <==>
            || (optional && (value == None || value == Some(Null)))
            || (if value.None? then !required && !optional else IsOf(definitions, node, value.value))
    decreases shape
  {
    if shape.NamedShape? || shape.OptionalShape? {
      FitsStripped(definitions, shape.of, required, value);
    }
  }

  // A value's tree has no problem exactly when the value fits its shape.
  lemma {:induction false} FineIffFits(b: Builder, site: RowSite, shape: ShapeNode, value: Option<DataValue>)
    ensures Fine(Row(b, site, shape, value)) <==> Fits(b.definitions, shape, site.required, value)
    decreases SizeOf(value), 4
  {
    FitsStripped(b.definitions, shape, site.required, value);
    var (node, optional) := Strip(shape);
    if value.None? || (optional && value.value.Null?) {
      FineIff(Absent(b, site, optional));
    } else {
      FineIffIsOf(b, site, node, value.value);
    }
  }

  lemma {:induction false} FineIffIsOf(b: Builder, site: RowSite, node: ShapeNode, value: DataValue)
    requires !node.NamedShape? && !node.OptionalShape?
    ensures Fine(Present(b, site, node, value)) <==> IsOf(b.definitions, node, value)
    decreases Size(value), 3
  {
    match node
    case DefShape(name) => DefinitionFine(b, site, name, value);
    case ListShape(of) =>
      if value.List? {
        ListFine(b, site, of, value);
      } else {
        GenericFine(b, site, value, Some(Mismatch("list", ValueKind(value))));
      }
    case MapShape(of) =>
      if value.Map? {
        MapFine(b, site, of, value);
      } else {
        GenericFine(b, site, value, Some(Mismatch("map", ValueKind(value))));
      }
    case AnyShape => GenericFine(b, site, value, None);
    case _ => ScalarFine(b, site, node, value);
  }

  lemma ScalarFine(b: Builder, site: RowSite, node: ShapeNode, value: DataValue)
    ensures Fine(Scalar(b, site, node, value)) <==> ScalarEditor(node, value, site).Some?
  {
    if ScalarEditor(node, value, site).None? {
      GenericFine(b, site, value, Some(Mismatch(ShapeKind(node), ValueKind(value))));
    } else {
      FineIff(Scalar(b, site, node, value));
    }
  }

  lemma {:induction false} ListFine(b: Builder, site: RowSite, of: ShapeNode, value: DataValue)
    requires value.List?
    ensures Fine(ListRow(b, site, of, value)) <==> IsOf(b.definitions, ListShape(of), value)
    decreases Size(value), 2
  {
    var row := ListRow(b, site, of, value);
    FineIff(row);
    forall i | 0 <= i < |value.items|
      ensures Fine(row.children.rows[i]) <==> ItemFits(b.definitions, of, value.items, i)
    {
      ItemIsSmaller(value.items, i);
      FineIffFits(b, Child(site, Index(i)), of, Some(value.items[i]));
    }
  }

  lemma {:induction false} MapFine(b: Builder, site: RowSite, of: ShapeNode, value: DataValue)
    requires value.Map?
    ensures Fine(MapRow(b, site, of, value)) <==> IsOf(b.definitions, MapShape(of), value)
    decreases Size(value), 2
  {
    var row := MapRow(b, site, of, value);
    FineIff(row);
    forall i | 0 <= i < |value.entries|
      ensures Fine(row.children.rows[i]) <==> EntryFits(b.definitions, of, value.entries, i)
    {
      EntryIsSmaller(value.entries, i);
      FineIffFits(b, Child(site, Key(value.entries[i].0)), of, Some(value.entries[i].1));
    }
  }

  lemma {:induction false} FieldsFine(
    b: Builder, site: RowSite, fields: seq<FieldShape>, entries: seq<(string, DataValue)>)
    ensures AllFine(FieldRows(b, site, fields, entries)) <==>
            forall i :: 0 <= i < |fields| ==> FieldFits(b.definitions, fields[i], entries)
    decreases SizeOfEntries(entries), 5
  {
    var rows := FieldRows(b, site, fields, entries);
    forall i | 0 <= i < |fields|
      ensures Fine(rows[i]) <==> FieldFits(b.definitions, fields[i], entries)
    {
      FieldIsSmaller(entries, fields[i].name);
      FineIffFits(b, FieldSite(site, fields[i]), fields[i].shape, Get(entries, fields[i].name));
    }
  }

  lemma {:induction false} DefinitionFine(b: Builder, site: RowSite, name: string, value: DataValue)
    ensures Fine(DefinitionRow(b, site, name, value)) <==> IsOf(b.definitions, DefShape(name), value)
    decreases Size(value), 2
  {
    var found: Option<Definition> := Get(b.definitions, name);
    match found
    case None => GenericFine(b, site, value, Some(UnknownDefinition(name)));
    case Some(Struct(fields)) =>
      if value.Map? {
        FieldsFine(b, site, fields, value.entries);
        FineIff(DefinitionRow(b, site, name, value));
      } else {
        GenericFine(b, site, value, Some(Mismatch(name, ValueKind(value))));
      }
    case Some(Enum(tag, variants)) => EnumFine(b, site, tag, variants, value);
  }

  lemma {:induction false} EnumFine(
    b: Builder, site: RowSite, tag: Option<string>, variants: seq<VariantShape>, value: DataValue)
    ensures Fine(EnumRow(b, site, tag, variants, value)) <==> IsDefined(b.definitions, Enum(tag, variants), value)
    decreases Size(value), 1
  {
    var named := VariantName(tag, value);
    if named.None? {
      GenericFine(b, site, value, Some(Mismatch(if tag.None? then "string" else "map", ValueKind(value))));
    } else {
      FineIff(EnumRow(b, site, tag, variants, value));
      var variant := FindVariant(variants, named.value);
      if variant.Some? && variant.value.fields.Some? && value.Map? {
        FieldsFine(b, site, variant.value.fields.value, value.entries);
      }
    }
  }

  // -- Switching a variant ---------------------------------------------------------------

  // The value an editor puts in place of a row's when `name` is chosen.
  function VariantValue(tag: Option<string>, name: string): DataValue {
    if tag.None? then String(name) else Map([(tag.value, String(name))])
  }

  ghost predicate DistinctVariants(variants: seq<VariantShape>) {
    forall i, j :: 0 <= i < j < |variants| ==> variants[i].name != variants[j].name
  }

  ghost predicate TagIsNoField(tag: Option<string>, variants: seq<VariantShape>) {
    forall i :: 0 <= i < |variants| && variants[i].fields.Some? ==>
      forall field :: field in variants[i].fields.value ==> tag != Some(field.name)
  }

  lemma {:induction false} OffersNothingRequired(
    variants: seq<VariantShape>, tag: Option<string>, current: string, name: string)
    requires DistinctVariants(variants) && name in Switchable(variants, tag, current)
    ensures var found := FindVariant(variants, name);
            found.Some? && (tag.None? || name == current || !NeedsFields(found.value))
  {
    if variants[0].name != name {
      OffersNothingRequired(variants[1..], tag, current, name);
    } else if name in Switchable(variants[1..], tag, current) {
      OffersNothingRequired(variants[1..], tag, current, name);
      assert false;
    }
  }

  lemma {:induction false} AbsentFits(definitions: Definitions, shape: ShapeNode)
    ensures Fits(definitions, shape, false, None)
    decreases shape
  {
    if shape.NamedShape? || shape.OptionalShape? {
      AbsentFits(definitions, shape.of);
    }
  }

  // Choosing another variant an editor offers always gives a value that fits,
  // although it keeps no other field.
  lemma SwitchFits(
    definitions: Definitions, tag: Option<string>, variants: seq<VariantShape>, current: string, name: string)
    requires DistinctVariants(variants) && TagIsNoField(tag, variants)
    requires name in Switchable(variants, tag, current) && (name != current || tag.None?)
    ensures IsDefined(definitions, Enum(tag, variants), VariantValue(tag, name))
  {
    var value := VariantValue(tag, name);
    OffersNothingRequired(variants, tag, current, name);
    var variant := FindVariant(variants, name).value;
    if variant.fields.Some? && value.Map? {
      forall i | 0 <= i < |variant.fields.value|
        ensures FieldFits(definitions, variant.fields.value[i], value.entries)
      {
        var field := variant.fields.value[i];
        assert Get(value.entries, field.name) == None;
        AbsentFits(definitions, field.shape);
      }
    }
  }
}
