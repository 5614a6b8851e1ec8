// The portable view of a JSON schema: local references are inlined, keywords outside a portable
// set are dropped. Object keys are modelled by the keywords that matter, and by name otherwise.
module Schemas {
  import opened Wrappers

  datatype Key =
    | Ref | Const | Enum | Properties | Items | AdditionalProperties | AllOf | AnyOf | OneOf
    | Type | Required | Description | Title | Default | PrefixItems | PatternProperties
    | Named(name: string)

  // A string that begins with "#/$defs/" is a reference to the definition it names.
  datatype Text = DefinitionRef(name: Key) | Plain(text: string)

  datatype Json = Null | Bool(b: bool) | Number(n: int) | Str(text: Text) | Arr(items: seq<Json>) | Obj(fields: map<Key, Json>)

  datatype SchemaError = InvalidSchema

  type Definitions = map<Key, Json>

  predicate Portable(k: Key) {
    k in {AdditionalProperties, AllOf, AnyOf, Description, Enum, Items, OneOf, Properties, Required, Type}
  }

  predicate HasReference(f: map<Key, Json>) {
    Ref in f && f[Ref] != Null
  }

  // The definition's fields, overridden by the siblings of the reference.
  function Merge(target: map<Key, Json>, f: map<Key, Json>): map<Key, Json> {
    target + (f - {Ref})
  }

  // The definition a reference leads to: known, not being followed already, and an object.
  function Resolve(f: map<Key, Json>, active: set<Key>, defs: Definitions): Result<Key, SchemaError>
    requires HasReference(f)
  {
    match f[Ref]
    case Str(DefinitionRef(name)) =>
      if name !in defs || name in active then Err(InvalidSchema)
      else if !defs[name].Obj? then Err(InvalidSchema)
      else Ok(name)
    case _ => Err(InvalidSchema)
  }

  function Inline(node: Json, active: set<Key>, defs: Definitions): Result<Json, SchemaError>
    decreases defs.Keys - active, node, 3
  {
    match node
    case Arr(items) =>
      (var r :- InlineList(items, active, defs);
       Ok(Arr(r)))
    case Obj(f) =>
      if HasReference(f) then
        (var name :- Resolve(f, active, defs);
         assert defs.Keys - (active + {name}) < defs.Keys - active by { assert name in defs.Keys - active; }
         Inline(Obj(Merge(defs[name].fields, f)), active + {name}, defs))
      else InlineFields(node, active, defs)
    case _ => Ok(node)
  }

  function InlineList(items: seq<Json>, active: set<Key>, defs: Definitions): (r: Result<seq<Json>, SchemaError>)
    ensures r.Ok? ==> |r.value| == |items|
    decreases defs.Keys - active, items, 0
  {
    if items == [] then Ok([])
    else
      var first :- Inline(items[0], active, defs);
      var rest :- InlineList(items[1..], active, defs);
      Ok([first] + rest)
  }

  function InlineValue(k: Key, value: Json, active: set<Key>, defs: Definitions): Result<Json, SchemaError>
    decreases defs.Keys - active, value, 4
  {
    if k == Properties then
      if !value.Obj? then Err(InvalidSchema)
      else if forall n :: n in value.fields ==> Inline(value.fields[n], active, defs).Ok?
      then Ok(Obj(map n | n in value.fields :: if n in value.fields then Inline(value.fields[n], active, defs).value else Null))
      else Err(InvalidSchema)
    else if k == Items || k == AdditionalProperties then Inline(value, active, defs)
    else if k == AllOf || k == AnyOf || k == OneOf then
      if !value.Arr? then Err(InvalidSchema) else
      (var r :- InlineList(value.items, active, defs);
       Ok(Arr(r)))
    else Ok(value)
  }

  predicate FieldsOk(node: Json, active: set<Key>, defs: Definitions)
    requires node.Obj?
    decreases defs.Keys - active, node, 0
  {
    var f := node.fields;
    && (Const in f ==> Inline(f[Const], active, defs).Ok?)
    && (forall k :: k in f && Portable(k) ==> InlineValue(k, f[k], active, defs).Ok?)
  }

  function Copied(node: Json, active: set<Key>, defs: Definitions): map<Key, Json>
    requires node.Obj? && FieldsOk(node, active, defs)
    decreases defs.Keys - active, node, 1
  {
    var f := node.fields;
    map k | k in f && Portable(k) :: if k in f && Portable(k) then InlineValue(k, f[k], active, defs).value else Null
  }

  // A constant becomes an enumeration of one value, unless the node has an enumeration.
  function InlineFields(node: Json, active: set<Key>, defs: Definitions): Result<Json, SchemaError>
    requires node.Obj?
    decreases defs.Keys - active, node, 2
  {
    var f := node.fields;
    if !FieldsOk(node, active, defs) then Err(InvalidSchema)
    else if Const in f && Enum !in f
    then Ok(Obj(Copied(node, active, defs)[Enum := Arr([Inline(f[Const], active, defs).value])]))
    else Ok(Obj(Copied(node, active, defs)))
  }

  lemma ListStep(items: seq<Json>, active: set<Key>, defs: Definitions)
    requires items != [] && Inline(items[0], active, defs).Ok? && InlineList(items[1..], active, defs).Ok?
    ensures InlineList(items, active, defs) == Ok([Inline(items[0], active, defs).value] + InlineList(items[1..], active, defs).value)
  {
  }

  // What an object without a reference is inlined to, keyword by keyword.
  lemma Unfold(node: Json, active: set<Key>, defs: Definitions)
    requires node.Obj? && !HasReference(node.fields)
    ensures Inline(node, active, defs).Ok? <==>
              && (Const in node.fields ==> Inline(node.fields[Const], active, defs).Ok?)
              && forall k :: k in node.fields && Portable(k) ==> InlineValue(k, node.fields[k], active, defs).Ok?
    ensures Inline(node, active, defs).Ok? ==> Inline(node, active, defs).value.Obj?
    ensures Inline(node, active, defs).Ok? ==>
              var r := Inline(node, active, defs).value.fields;
              forall k :: k in r <==> (k in node.fields && Portable(k)) || (k == Enum && Const in node.fields)
    ensures Inline(node, active, defs).Ok? ==>
              var r := Inline(node, active, defs).value.fields;
              forall k :: k in node.fields && Portable(k) ==> r[k] == InlineValue(k, node.fields[k], active, defs).value
    ensures Inline(node, active, defs).Ok? && Const in node.fields && Enum !in node.fields ==>
              Inline(node, active, defs).value.fields[Enum] == Arr([Inline(node.fields[Const], active, defs).value])
  {
    if FieldsOk(node, active, defs) {
      var copied := Copied(node, active, defs);
      assert InlineFields(node, active, defs).Ok?;
    }
  }
}
