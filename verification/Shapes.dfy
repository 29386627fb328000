// Values as the inspector shows them, the shapes that describe them, and the
// check that every definition a description names is there.
module Shapes {
  import opened Sequences

  // A value in its JSON form; an object's entries in order.
  datatype DataValue =
    | Null
    | Bool(value: bool)
    | Number(number: real)
    | String(text: string)
    | List(items: seq<DataValue>)
    | Map(entries: seq<(string, DataValue)>)

  datatype ShapeNode =
    | AnyShape
    | BoolShape
    | IntShape(min: real, max: real)
    | FloatShape(bits: real)
    | StringShape
    | AtomShape
    | BytesShape
    | RefShape(kinds: seq<string>, id: ShapeNode)
    | NamedShape(alias: string, of: ShapeNode)
    | ListShape(of: ShapeNode)
    | MapShape(of: ShapeNode)
    | OptionalShape(of: ShapeNode)
    | DefShape(name: string)

  datatype FieldShape = FieldShape(name: string, shape: ShapeNode, required: bool, range: Option<(real, real)>)

  datatype VariantShape = VariantShape(name: string, fields: Option<seq<FieldShape>>)

  datatype Definition =
    | Struct(fields: seq<FieldShape>)
    | Enum(tag: Option<string>, variants: seq<VariantShape>)

  // Definitions by name, in the order they were listed.
  type Definitions = seq<(string, Definition)>

  // The first entry of `key`.
  function Get<V>(entries: seq<(string, V)>, key: string): (value: Option<V>)
    ensures value.Some? ==> (key, value.value) in entries
    ensures value.None? ==> forall e :: e in entries ==> e.0 != key
  {
    if entries == [] then None
    else if entries[0].0 == key then Some(entries[0].1)
    else Get(entries[1..], key)
  }

  ghost predicate DistinctKeys<V>(entries: seq<(string, V)>) {
    forall i, j :: 0 <= i < j < |entries| ==> entries[i].0 != entries[j].0
  }

  lemma {:induction false} GetAt<V>(entries: seq<(string, V)>, i: nat)
    requires DistinctKeys(entries) && i < |entries|
    ensures Get(entries, entries[i].0) == Some(entries[i].1)
  {
    if i > 0 {
      assert entries[0].0 != entries[i].0;
      assert entries[1..][i - 1] == entries[i];
      GetAt(entries[1..], i - 1);
    }
  }

  // -- References to definitions -----------------------------------------------------

  // The definitions a shape names.
  function References(node: ShapeNode): set<string> {
    match node
    case DefShape(name) => {name}
    case ListShape(of) => References(of)
    case MapShape(of) => References(of)
    case OptionalShape(of) => References(of)
    case NamedShape(_, of) => References(of)
    case RefShape(_, id) => References(id)
    case _ => {}
  }

  ghost predicate Resolved(node: ShapeNode, definitions: Definitions) {
    forall name :: name in References(node) ==> Get(definitions, name).Some?
  }

  ghost predicate FieldsResolved(fields: seq<FieldShape>, definitions: Definitions) {
    forall i :: 0 <= i < |fields| ==> Resolved(fields[i].shape, definitions)
  }

  ghost predicate VariantResolved(variant: VariantShape, definitions: Definitions) {
    variant.fields.Some? ==> FieldsResolved(variant.fields.value, definitions)
  }

  ghost predicate DefinitionResolved(definition: Definition, definitions: Definitions) {
    match definition
    case Struct(fields) => FieldsResolved(fields, definitions)
    case Enum(_, variants) =>
      forall i :: 0 <= i < |variants| ==> VariantResolved(variants[i], definitions)
  }

  // Every reference of the description names a definition.
  ghost predicate Closed(root: ShapeNode, definitions: Definitions) {
    && Resolved(root, definitions)
    && forall i :: 0 <= i < |definitions| ==> DefinitionResolved(definitions[i].1, definitions)
  }

  // The name a shape refers to, where nothing has that name.
  function MissingDefinition(node: ShapeNode, definitions: Definitions): (missing: Option<string>)
    ensures missing.None? <==> Resolved(node, definitions)
    ensures missing.Some? ==> missing.value in References(node) && Get(definitions, missing.value).None?
  {
    match node
    case DefShape(name) => if Get(definitions, name).Some? then None else Some(name)
    case ListShape(of) => MissingDefinition(of, definitions)
    case MapShape(of) => MissingDefinition(of, definitions)
    case OptionalShape(of) => MissingDefinition(of, definitions)
    case NamedShape(_, of) => MissingDefinition(of, definitions)
    case RefShape(_, id) => MissingDefinition(id, definitions)
    case _ => None
  }

  // All the fields of an enum's variants.
  function VariantFields(variants: seq<VariantShape>): seq<FieldShape> {
    if variants == [] then []
    else (if variants[0].fields.Some? then variants[0].fields.value else []) + VariantFields(variants[1..])
  }

  lemma FieldsConcat(a: seq<FieldShape>, b: seq<FieldShape>, definitions: Definitions)
    ensures FieldsResolved(a + b, definitions) <==> FieldsResolved(a, definitions) && FieldsResolved(b, definitions)
  {
    var both := a + b;
    assert forall i :: 0 <= i < |a| ==> both[i] == a[i];
    assert forall i :: 0 <= i < |b| ==> both[|a| + i] == b[i];
  }

  lemma {:induction false} VariantFieldsResolved(variants: seq<VariantShape>, definitions: Definitions)
    ensures FieldsResolved(VariantFields(variants), definitions) <==>
            forall i :: 0 <= i < |variants| ==> VariantResolved(variants[i], definitions)
  {
    if variants != [] {
      var first := if variants[0].fields.Some? then variants[0].fields.value else [];
      VariantFieldsResolved(variants[1..], definitions);
      FieldsConcat(first, VariantFields(variants[1..]), definitions);
      assert forall i :: 0 < i < |variants| ==> variants[i] == variants[1..][i - 1];
    }
  }

  function FieldsOf(definition: Definition): seq<FieldShape> {
    match definition
    case Struct(fields) => fields
    case Enum(_, variants) => VariantFields(variants)
  }

  lemma DefinitionFields(definition: Definition, definitions: Definitions)
    ensures FieldsResolved(FieldsOf(definition), definitions) <==> DefinitionResolved(definition, definitions)
  {
    if definition.Enum? {
      VariantFieldsResolved(definition.variants, definitions);
    }
  }

  method MissingInDefinition(definition: Definition, definitions: Definitions) returns (missing: Option<string>)
    ensures missing.None? <==> DefinitionResolved(definition, definitions)
    ensures missing.Some? ==> Get(definitions, missing.value).None?
  {
    var fields := FieldsOf(definition);
    DefinitionFields(definition, definitions);
    for i := 0 to |fields|
      invariant forall k :: 0 <= k < i ==> Resolved(fields[k].shape, definitions)
    {
      missing := MissingDefinition(fields[i].shape, definitions);
      if missing.Some? {
        assert !FieldsResolved(fields, definitions);
        return;
      }
    }
    assert FieldsResolved(fields, definitions);
    return None;
  }

  // Where a missing definition was named: in the root, or in a definition.
  datatype Unresolved = InRoot(name: string) | InDefinition(at: string, name: string)

  // A description is accepted exactly when every reference names a definition.
  method FindUnresolved(root: ShapeNode, definitions: Definitions) returns (missing: Option<Unresolved>)
    ensures missing.None? <==> Closed(root, definitions)
    ensures missing.Some? ==> Get(definitions, missing.value.name).None?
  {
    var fromRoot := MissingDefinition(root, definitions);
    if fromRoot.Some? {
      return Some(InRoot(fromRoot.value));
    }
    for i := 0 to |definitions|
      invariant forall k :: 0 <= k < i ==> DefinitionResolved(definitions[k].1, definitions)
    {
      var inside := MissingInDefinition(definitions[i].1, definitions);
      if inside.Some? {
        return Some(InDefinition(definitions[i].0, inside.value));
      }
    }
    return None;
  }
}
