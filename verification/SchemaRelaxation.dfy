// The inlined schema against the source schema: what it may contain, and which instances it
// accepts.
module SchemaRelaxation {
  import opened Schemas
  import opened Wrappers

  // ---- Only portable keywords, and no reference, at any schema position ----

  predicate IsPortable(node: Json)
    decreases node, 1
  {
    match node
    case Arr(items) => forall i :: 0 <= i < |items| ==> IsPortable(items[i])
    case Obj(f) =>
      forall k :: k in f ==> Portable(k) && PortableValue(k, f[k])
    case _ => true
  }

  predicate PortableValue(k: Key, value: Json)
    decreases value, 2
  {
    if k == Properties then value.Obj? && forall n :: n in value.fields ==> IsPortable(value.fields[n])
    else if k == Items || k == AdditionalProperties then IsPortable(value)
    else if k == AllOf || k == AnyOf || k == OneOf then
      value.Arr? && forall i :: 0 <= i < |value.items| ==> IsPortable(value.items[i])
    else true
  }

  lemma {:induction false} InlinedIsPortable(node: Json, active: set<Key>, defs: Definitions)
    requires Inline(node, active, defs).Ok?
    ensures IsPortable(Inline(node, active, defs).value)
    decreases defs.Keys - active, node, 2
  {
    match node
    case Arr(items) => InlinedListIsPortable(items, active, defs);
    case Obj(f) =>
      if HasReference(f) {
        var name := Resolve(f, active, defs).value;
        assert defs.Keys - (active + {name}) < defs.Keys - active by { assert name in defs.Keys - active; }
        InlinedIsPortable(Obj(Merge(defs[name].fields, f)), active + {name}, defs);
      } else {
        Unfold(node, active, defs);
        forall k | k in f && Portable(k)
          ensures PortableValue(k, InlineValue(k, f[k], active, defs).value)
        {
          InlinedValueIsPortable(k, f[k], active, defs);
        }
      }
    case _ =>
  }

  lemma {:induction false} InlinedListIsPortable(items: seq<Json>, active: set<Key>, defs: Definitions)
    requires InlineList(items, active, defs).Ok?
    ensures var r := InlineList(items, active, defs).value; forall i :: 0 <= i < |r| ==> IsPortable(r[i])
    decreases defs.Keys - active, items, 0
  {
    if items != [] {
      InlinedIsPortable(items[0], active, defs);
      InlinedListIsPortable(items[1..], active, defs);
    }
  }

  lemma {:induction false} InlinedValueIsPortable(k: Key, value: Json, active: set<Key>, defs: Definitions)
    requires InlineValue(k, value, active, defs).Ok?
    ensures PortableValue(k, InlineValue(k, value, active, defs).value)
    decreases defs.Keys - active, value, 3
  {
    if k == Properties {
      forall n | n in value.fields { InlinedIsPortable(value.fields[n], active, defs); }
    } else if k == Items || k == AdditionalProperties {
      InlinedIsPortable(value, active, defs);
    } else if k == AllOf || k == AnyOf || k == OneOf {
      InlinedListIsPortable(value.items, active, defs);
    }
  }

  // A portable schema is inlined to itself, so inlining twice is inlining once.
  lemma {:induction false} PortableIsFixpoint(node: Json, active: set<Key>, defs: Definitions)
    requires IsPortable(node)
    ensures Inline(node, active, defs) == Ok(node)
    decreases node, 2
  {
    match node
    case Arr(items) => PortableListIsFixpoint(items, active, defs);
    case Obj(f) =>
      assert Ref !in f && Const !in f by { assert !Portable(Ref) && !Portable(Const); }
      forall k | k in f
        ensures InlineValue(k, f[k], active, defs) == Ok(f[k])
      {
        PortableValueIsFixpoint(k, f[k], active, defs);
      }
      Unfold(node, active, defs);
      assert Inline(node, active, defs).value.fields == f;
    case _ =>
  }

  lemma {:induction false} PortableListIsFixpoint(items: seq<Json>, active: set<Key>, defs: Definitions)
    requires forall i :: 0 <= i < |items| ==> IsPortable(items[i])
    ensures InlineList(items, active, defs) == Ok(items)
    decreases items, 0
  {
    if items != [] {
      PortableIsFixpoint(items[0], active, defs);
      PortableListIsFixpoint(items[1..], active, defs);
      assert [items[0]] + items[1..] == items;
    }
  }

  lemma {:induction false} PortableValueIsFixpoint(k: Key, value: Json, active: set<Key>, defs: Definitions)
    requires PortableValue(k, value)
    ensures InlineValue(k, value, active, defs) == Ok(value)
    decreases value, 3
  {
    if k == Properties {
      forall n | n in value.fields { PortableIsFixpoint(value.fields[n], active, defs); }
      assert (map n | n in value.fields :: if n in value.fields then Inline(value.fields[n], active, defs).value else Null) == value.fields;
    } else if k == Items || k == AdditionalProperties {
      PortableIsFixpoint(value, active, defs);
    } else if k == AllOf || k == AnyOf || k == OneOf {
      PortableListIsFixpoint(value.items, active, defs);
    }
  }

  lemma InliningIsIdempotent(schema: Json, defs: Definitions)
    requires Inline(schema, {}, defs).Ok?
    ensures Inline(Inline(schema, {}, defs).value, {}, map[]) == Inline(schema, {}, defs)
  {
    InlinedIsPortable(schema, {}, defs);
    PortableIsFixpoint(Inline(schema, {}, defs).value, {}, map[]);
  }

  // ---- The meaning of a schema ----

  // The keywords with no special treatment may mean anything: `verbatim` for those that are
  // copied as they are, one at a time, and `dropped` for all those that are left out of a node,
  // together. Without any dropped keyword nothing is demanded.
  datatype Meaning = Meaning(verbatim: (Key, Json, Json) -> bool, dropped: (map<Key, Json>, Json) -> bool)

  ghost predicate Neutral(m: Meaning) {
    forall inst :: m.dropped(map[], inst)
  }

  predicate Annotation(k: Key) {
    k == Description || k == Title || k == Default
  }

  // The assertions that the portable view leaves out.
  function DroppedPart(f: map<Key, Json>): map<Key, Json> {
    f - (set k | k in f && (Portable(k) || Annotation(k) || k == Ref || k == Const))
  }

  function PropertyNames(f: map<Key, Json>): set<Key> {
    if Properties in f && f[Properties].Obj? then f[Properties].fields.Keys else {}
  }

  // JSON Schema 2020-12: the keywords of an object schema are independent assertions, except that
  // additionalProperties applies to the names its properties leave over. A reference is one more
  // assertion beside its siblings (Core section 8.2.3.1 and section 10.2.1, Validation 6.1.3).
  ghost predicate Accepts(node: Json, inst: Json, active: set<Key>, defs: Definitions, m: Meaning)
    decreases defs.Keys - active, node, 2
  {
    match node
    case Bool(b) => b
    case Obj(f) =>
      && (HasReference(f) ==>
            Resolve(f, active, defs).Ok? &&
            var name := Resolve(f, active, defs).value;
            assert defs.Keys - (active + {name}) < defs.Keys - active by { assert name in defs.Keys - active; }
            Accepts(defs[name], inst, active + {name}, defs, m))
      && (Const in f ==> inst == f[Const])
      && m.dropped(DroppedPart(f), inst)
      && (forall k :: k in f && Portable(k) ==> AcceptsValue(k, f[k], PropertyNames(f), inst, active, defs, m))
    case _ => true
  }

  ghost predicate AcceptsValue(k: Key, value: Json, names: set<Key>, inst: Json, active: set<Key>, defs: Definitions, m: Meaning)
    decreases defs.Keys - active, value, 3
  {
    match k
    case Properties =>
      inst.Obj? && value.Obj? ==>
        forall n :: n in value.fields && n in inst.fields ==> Accepts(value.fields[n], inst.fields[n], active, defs, m)
    case AdditionalProperties =>
      inst.Obj? ==> forall n :: n in inst.fields && n !in names ==> Accepts(value, inst.fields[n], active, defs, m)
    case Items =>
      inst.Arr? ==> forall i :: 0 <= i < |inst.items| ==> Accepts(value, inst.items[i], active, defs, m)
    case AllOf => value.Arr? ==> forall i :: 0 <= i < |value.items| ==> Accepts(value.items[i], inst, active, defs, m)
    case AnyOf => value.Arr? ==> exists i :: 0 <= i < |value.items| && Accepts(value.items[i], inst, active, defs, m)
    case OneOf => value.Arr? ==> |Accepting(value.items, inst, active, defs, m)| == 1
    case Enum => value.Arr? ==> inst in value.items
    case Description => true
    case _ => m.verbatim(k, value, inst)
  }

  // The branches of a choice that accept the instance.
  ghost function Accepting(items: seq<Json>, inst: Json, active: set<Key>, defs: Definitions, m: Meaning): set<nat>
    decreases defs.Keys - active, items, 0
  {
    set i: nat | 0 <= i < |items| && Accepts(items[i], inst, active, defs, m)
  }

  // ---- The supported fragment ----

  // No prefixItems or patternProperties anywhere, only annotations beside a reference, and nothing
  // to drop inside a constant or a branch of oneOf.
  ghost predicate Supported(node: Json, active: set<Key>, defs: Definitions)
    decreases defs.Keys - active, node, 2
  {
    match node
    case Obj(f) =>
      if HasReference(f) then
        && (forall k :: k in f ==> k == Ref || Annotation(k))
        && (Resolve(f, active, defs).Ok? ==>
              var name := Resolve(f, active, defs).value;
              assert defs.Keys - (active + {name}) < defs.Keys - active by { assert name in defs.Keys - active; }
              Supported(Obj(Merge(defs[name].fields, f)), active + {name}, defs))
      else
        && PrefixItems !in f && PatternProperties !in f
        && (Const in f ==> IsPortable(f[Const]))
        && (forall k :: k in f && Portable(k) ==> SupportedValue(k, f[k], active, defs))
    case _ => true
  }

  ghost predicate SupportedValue(k: Key, value: Json, active: set<Key>, defs: Definitions)
    decreases defs.Keys - active, value, 3
  {
    match k
    case Properties => value.Obj? ==> forall n :: n in value.fields ==> Supported(value.fields[n], active, defs)
    case AdditionalProperties => Supported(value, active, defs)
    case Items => Supported(value, active, defs)
    case AllOf => value.Arr? ==> forall i :: 0 <= i < |value.items| ==> Supported(value.items[i], active, defs)
    case AnyOf => value.Arr? ==> forall i :: 0 <= i < |value.items| ==> Supported(value.items[i], active, defs)
    case OneOf => value.Arr? ==> forall i :: 0 <= i < |value.items| ==> IsPortable(value.items[i])
    case _ => true
  }

  // ---- Relaxation ----

  // Annotations play no part in acceptance.
  lemma AnnotationsDoNotMatter(f: map<Key, Json>, g: map<Key, Json>, inst: Json, active: set<Key>, defs: Definitions, m: Meaning)
    requires forall k :: !Annotation(k) ==> (k in f <==> k in g) && (k in f ==> f[k] == g[k])
    ensures Accepts(Obj(f), inst, active, defs, m) == Accepts(Obj(g), inst, active, defs, m)
  {
    assert DroppedPart(f) == DroppedPart(g);
    assert PropertyNames(f) == PropertyNames(g);
    if Accepts(Obj(f), inst, active, defs, m) { AnnotationsDoNotMatterOneWay(f, g, inst, active, defs, m); }
    if Accepts(Obj(g), inst, active, defs, m) { AnnotationsDoNotMatterOneWay(g, f, inst, active, defs, m); }
  }

  lemma AnnotationsDoNotMatterOneWay(f: map<Key, Json>, g: map<Key, Json>, inst: Json, active: set<Key>, defs: Definitions, m: Meaning)
    requires forall k :: !Annotation(k) ==> (k in f <==> k in g) && (k in f ==> f[k] == g[k])
    requires DroppedPart(f) == DroppedPart(g) && PropertyNames(f) == PropertyNames(g)
    requires Accepts(Obj(f), inst, active, defs, m)
    ensures Accepts(Obj(g), inst, active, defs, m)
  {
    forall k | k in g && Portable(k)
      ensures AcceptsValue(k, g[k], PropertyNames(g), inst, active, defs, m)
    {
      if !Annotation(k) { assert AcceptsValue(k, f[k], PropertyNames(f), inst, active, defs, m); }
    }
  }

  // A portable schema has no references, so it means the same among any definitions.
  lemma {:induction false} PortableMeansAlike(node: Json, inst: Json, active: set<Key>, defs: Definitions, m: Meaning)
    requires IsPortable(node)
    ensures Accepts(node, inst, active, defs, m) <==> Accepts(node, inst, {}, map[], m)
    decreases node, 1
  {
    if node.Obj? {
      var f := node.fields;
      assert Ref !in f && Const !in f by { assert !Portable(Ref) && !Portable(Const); }
      AcceptsFields(f, inst, active, defs, m);
      AcceptsFields(f, inst, {}, map[], m);
      hide Accepts, AcceptsValue;
      forall k | k in f && Portable(k)
        ensures AcceptsValue(k, f[k], PropertyNames(f), inst, active, defs, m) <==>
                AcceptsValue(k, f[k], PropertyNames(f), inst, {}, map[], m)
      {
        PortableValueMeansAlike(k, f[k], PropertyNames(f), inst, active, defs, m);
      }
    }
  }

  lemma {:induction false} PortableValueMeansAlike(k: Key, value: Json, names: set<Key>, inst: Json, active: set<Key>,
                                                   defs: Definitions, m: Meaning)
    requires PortableValue(k, value)
    ensures AcceptsValue(k, value, names, inst, active, defs, m) <==> AcceptsValue(k, value, names, inst, {}, map[], m)
    decreases value, 3
  {
    hide Accepts, Accepting, IsPortable;
    match k
    case Properties => if inst.Obj? { PortableProperties(value, inst.fields, active, defs, m); }
    case AdditionalProperties => if inst.Obj? { PortableForMembers(value, inst.fields, active, defs, m); }
    case Items =>
      if inst.Arr? { forall i | 0 <= i < |inst.items| { PortableMeansAlike(value, inst.items[i], active, defs, m); } }
    case AllOf => PortableBranches(value.items, inst, active, defs, m);
    case AnyOf => PortableBranches(value.items, inst, active, defs, m);
    case OneOf => PortableChoice(value.items, inst, active, defs, m);
    case _ =>
  }

  lemma {:induction false} PortableProperties(value: Json, members: map<Key, Json>, active: set<Key>, defs: Definitions, m: Meaning)
    requires PortableValue(Properties, value)
    ensures forall n :: n in value.fields && n in members ==>
              (Accepts(value.fields[n], members[n], active, defs, m) <==> Accepts(value.fields[n], members[n], {}, map[], m))
    decreases value, 2
  {
    hide Accepts;
    forall n | n in value.fields && n in members { PortableMeansAlike(value.fields[n], members[n], active, defs, m); }
  }

  lemma {:induction false} PortableForMembers(value: Json, members: map<Key, Json>, active: set<Key>, defs: Definitions, m: Meaning)
    requires IsPortable(value)
    ensures forall n :: n in members ==>
              (Accepts(value, members[n], active, defs, m) <==> Accepts(value, members[n], {}, map[], m))
    decreases value, 2
  {
    hide Accepts;
    forall n | n in members { PortableMeansAlike(value, members[n], active, defs, m); }
  }

  lemma {:induction false} PortableBranches(items: seq<Json>, inst: Json, active: set<Key>, defs: Definitions, m: Meaning)
    requires forall i :: 0 <= i < |items| ==> IsPortable(items[i])
    ensures forall i :: 0 <= i < |items| ==> (Accepts(items[i], inst, active, defs, m) <==> Accepts(items[i], inst, {}, map[], m))
    decreases items, 2
  {
    hide Accepts;
    forall i | 0 <= i < |items| { PortableMeansAlike(items[i], inst, active, defs, m); }
  }

  // As many branches of a choice accept.
  lemma {:induction false} PortableChoice(items: seq<Json>, inst: Json, active: set<Key>, defs: Definitions, m: Meaning)
    requires forall i :: 0 <= i < |items| ==> IsPortable(items[i])
    ensures Accepting(items, inst, active, defs, m) == Accepting(items, inst, {}, map[], m)
    decreases items, 2
  {
    forall i | 0 <= i < |items| { PortableMeansAlike(items[i], inst, active, defs, m); }
  }

  // Every instance of a supported source schema is an instance of its portable view, whatever the
  // dropped and verbatim keywords mean.
  lemma {:induction false} Relaxation(node: Json, inst: Json, active: set<Key>, defs: Definitions, m: Meaning)
    requires Neutral(m) && Supported(node, active, defs) && Inline(node, active, defs).Ok?
    requires Accepts(node, inst, active, defs, m)
    ensures Accepts(Inline(node, active, defs).value, inst, {}, map[], m)
    decreases defs.Keys - active, node, 2
  {
    if node.Obj? {
      var f := node.fields;
      if HasReference(f) {
        var name := Resolve(f, active, defs).value;
        assert defs.Keys - (active + {name}) < defs.Keys - active by { assert name in defs.Keys - active; }
        AnnotationsDoNotMatter(defs[name].fields, Merge(defs[name].fields, f), inst, active + {name}, defs, m);
        Relaxation(Obj(Merge(defs[name].fields, f)), inst, active + {name}, defs, m);
      } else {
        FieldsRelaxed(node, inst, active, defs, m);
      }
    }
  }

  lemma PropertiesKept(value: Json, active: set<Key>, defs: Definitions)
    requires InlineValue(Properties, value, active, defs).Ok?
    ensures value.Obj? && InlineValue(Properties, value, active, defs).value.Obj?
    ensures InlineValue(Properties, value, active, defs).value.fields.Keys == value.fields.Keys
  {
  }

  lemma AcceptsFields(f: map<Key, Json>, inst: Json, active: set<Key>, defs: Definitions, m: Meaning)
    requires !HasReference(f)
    ensures Accepts(Obj(f), inst, active, defs, m) <==>
              && (Const in f ==> inst == f[Const])
              && m.dropped(DroppedPart(f), inst)
              && forall k :: k in f && Portable(k) ==> AcceptsValue(k, f[k], PropertyNames(f), inst, active, defs, m)
  {
  }

  lemma SupportedFields(f: map<Key, Json>, active: set<Key>, defs: Definitions)
    requires !HasReference(f) && Supported(Obj(f), active, defs)
    ensures Const in f ==> IsPortable(f[Const])
    ensures forall k :: k in f && Portable(k) ==> SupportedValue(k, f[k], active, defs)
  {
  }

  // The result's keywords, up to the one that a constant became, are the source's portable ones.
  lemma SameNames(node: Json, active: set<Key>, defs: Definitions)
    requires node.Obj? && !HasReference(node.fields) && Inline(node, active, defs).Ok?
    ensures Inline(node, active, defs).value.Obj?
    ensures var r := Inline(node, active, defs).value.fields;
            && DroppedPart(r) == map[] && !HasReference(r) && Const !in r
            && PropertyNames(r) == PropertyNames(node.fields)
  {
    hide Inline, InlineFields, InlineValue, FieldsOk, Copied;
    Unfold(node, active, defs);
    var f := node.fields;
    if Properties in f {
      assert InlineValue(Properties, f[Properties], active, defs).Ok?;
      PropertiesKept(f[Properties], active, defs);
    }
  }

  lemma {:induction false} FieldsRelaxed(node: Json, inst: Json, active: set<Key>, defs: Definitions, m: Meaning)
    requires node.Obj? && !HasReference(node.fields)
    requires Neutral(m) && Supported(node, active, defs) && Inline(node, active, defs).Ok?
    requires Accepts(node, inst, active, defs, m)
    ensures Accepts(Inline(node, active, defs).value, inst, {}, map[], m)
    decreases defs.Keys - active, node, 1
  {
    hide Inline, InlineFields, InlineValue, FieldsOk, Copied, Accepts, AcceptsValue, Supported, SupportedValue, DroppedPart,
      PropertyNames, HasReference, IsPortable;
    Unfold(node, active, defs);
    SameNames(node, active, defs);
    var f := node.fields;
    var r := Inline(node, active, defs).value.fields;
    AcceptsFields(f, inst, active, defs, m);
    AcceptsFields(r, inst, {}, map[], m);
    SupportedFields(f, active, defs);
    forall k | k in r
      ensures AcceptsValue(k, r[k], PropertyNames(r), inst, {}, map[], m)
    {
      if k in f {
        ValueRelaxed(k, f[k], PropertyNames(f), inst, active, defs, m);
      } else {
        PortableIsFixpoint(f[Const], active, defs);
        EnumOfOne(inst, PropertyNames(r), m);
      }
    }
  }

  lemma EnumOfOne(inst: Json, names: set<Key>, m: Meaning)
    ensures AcceptsValue(Enum, Arr([inst]), names, inst, {}, map[], m)
  {
  }

  lemma {:induction false} ValueRelaxed(k: Key, value: Json, names: set<Key>, inst: Json, active: set<Key>, defs: Definitions, m: Meaning)
    requires Neutral(m) && Portable(k) && SupportedValue(k, value, active, defs) && InlineValue(k, value, active, defs).Ok?
    requires AcceptsValue(k, value, names, inst, active, defs, m)
    ensures AcceptsValue(k, InlineValue(k, value, active, defs).value, names, inst, {}, map[], m)
    decreases defs.Keys - active, value, 3
  {
    match k
    case Properties =>
      if inst.Obj? {
        forall n | n in value.fields && n in inst.fields
          ensures Accepts(Inline(value.fields[n], active, defs).value, inst.fields[n], {}, map[], m)
        {
          Relaxation(value.fields[n], inst.fields[n], active, defs, m);
        }
      }
    case AdditionalProperties =>
      if inst.Obj? {
        forall n | n in inst.fields && n !in names
          ensures Accepts(Inline(value, active, defs).value, inst.fields[n], {}, map[], m)
        {
          Relaxation(value, inst.fields[n], active, defs, m);
        }
      }
    case Items =>
      if inst.Arr? {
        forall i | 0 <= i < |inst.items|
          ensures Accepts(Inline(value, active, defs).value, inst.items[i], {}, map[], m)
        {
          Relaxation(value, inst.items[i], active, defs, m);
        }
      }
    case AllOf => AllBranchesRelaxed(value.items, inst, active, defs, m);
    case AnyOf =>
      var i :| 0 <= i < |value.items| && Accepts(value.items[i], inst, active, defs, m);
      BranchInlined(value.items, i, active, defs);
      Relaxation(value.items[i], inst, active, defs, m);
    case OneOf =>
      PortableListIsFixpoint(value.items, active, defs);
      PortableChoice(value.items, inst, active, defs, m);
    case _ =>
  }

  lemma {:induction false} BranchInlined(items: seq<Json>, i: nat, active: set<Key>, defs: Definitions)
    requires i < |items| && InlineList(items, active, defs).Ok?
    ensures Inline(items[i], active, defs) == Ok(InlineList(items, active, defs).value[i])
  {
    if i > 0 { BranchInlined(items[1..], i - 1, active, defs); }
  }

  lemma {:induction false} AllBranchesRelaxed(items: seq<Json>, inst: Json, active: set<Key>, defs: Definitions, m: Meaning)
    requires Neutral(m) && InlineList(items, active, defs).Ok?
    requires forall i :: 0 <= i < |items| ==> Supported(items[i], active, defs) && Accepts(items[i], inst, active, defs, m)
    ensures var r := InlineList(items, active, defs).value; forall i :: 0 <= i < |r| ==> Accepts(r[i], inst, {}, map[], m)
    decreases defs.Keys - active, items, 0
  {
    var r := InlineList(items, active, defs).value;
    forall i | 0 <= i < |r|
      ensures Accepts(r[i], inst, {}, map[], m)
    {
      BranchInlined(items, i, active, defs);
      Relaxation(items[i], inst, active, defs, m);
    }
  }

  // ---- Outside the fragment ----

  // Without portable keywords only a constant is left.
  lemma NothingPortable(node: Json)
    requires node.Obj? && !HasReference(node.fields)
    requires forall k :: k in node.fields ==> !Portable(k)
    requires Const in node.fields ==> Inline(node.fields[Const], {}, map[]).Ok?
    ensures Inline(node, {}, map[]) ==
            Ok(Obj(if Const in node.fields then map[Enum := Arr([Inline(node.fields[Const], {}, map[]).value])] else map[]))
  {
    Unfold(node, {}, map[]);
    assert Const in node.fields ==> Enum !in node.fields by { assert Portable(Enum); }
    var expected: map<Key, Json> :=
      if Const in node.fields then map[Enum := Arr([Inline(node.fields[Const], {}, map[]).value])] else map[];
    assert Inline(node, {}, map[]).value.fields == expected;
  }

  lemma UnknownKeywordIsDropped(name: string, v: Json)
    ensures Inline(Obj(map[Named(name) := v]), {}, map[]) == Ok(Obj(map[]))
  {
    var f := map[Named(name) := v];
    assert !HasReference(f) && Const !in f;
    NothingPortable(Obj(f));
  }

  lemma EmptySchemaIsKept()
    ensures Inline(Obj(map[]), {}, map[]) == Ok(Obj(map[]))
  {
    PortableIsFixpoint(Obj(map[]), {}, map[]);
  }

  // Every instance of the schema is an instance of what it is inlined to.
  ghost predicate Relaxed(schema: Json, active: set<Key>, defs: Definitions, m: Meaning)
    requires Inline(schema, active, defs).Ok?
  {
    forall inst :: Accepts(schema, inst, active, defs, m) ==> Accepts(Inline(schema, active, defs).value, inst, {}, map[], m)
  }

  lemma EnumMeans(v: Json, inst: Json, m: Meaning)
    requires Neutral(m)
    ensures Accepts(Obj(map[Enum := Arr([v])]), inst, {}, map[], m) <==> inst == v
  {
    var r := map[Enum := Arr([v])];
    assert DroppedPart(r) == map[];
    assert Enum in r && Portable(Enum);
    AcceptsFields(r, inst, {}, map[], m);
    hide Accepts;
    assert AcceptsValue(Enum, r[Enum], PropertyNames(r), inst, {}, map[], m) <==> inst in [v];
  }

  lemma ConstInlined(v: Json, active: set<Key>, defs: Definitions)
    requires Inline(v, active, defs).Ok?
    ensures Inline(Obj(map[Const := v]), active, defs) == Ok(Obj(map[Enum := Arr([Inline(v, active, defs).value])]))
  {
    var node := Obj(map[Const := v]);
    Unfold(node, active, defs);
    assert Inline(node, active, defs).value.fields == map[Enum := Arr([Inline(v, active, defs).value])];
  }

  // Inlining a constant schema accepts no less exactly when nothing inside the constant is
  // dropped or followed, which is when the constant is itself portable.
  lemma ConstantsKeptExactly(v: Json, active: set<Key>, defs: Definitions, m: Meaning)
    requires Neutral(m) && Inline(v, active, defs).Ok?
    ensures Inline(Obj(map[Const := v]), active, defs).Ok?
    ensures Relaxed(Obj(map[Const := v]), active, defs, m) <==> IsPortable(v)
  {
    var schema, kept := Obj(map[Const := v]), Inline(v, active, defs).value;
    ConstInlined(v, active, defs);
    InlinedIsPortable(v, active, defs);
    assert DroppedPart(schema.fields) == map[];
    forall inst
      ensures Accepts(schema, inst, active, defs, m) <==> inst == v
      ensures Accepts(Inline(schema, active, defs).value, inst, {}, map[], m) <==> inst == kept
    {
      AcceptsFields(schema.fields, inst, active, defs, m);
      EnumMeans(kept, inst, m);
    }
    if IsPortable(v) { PortableIsFixpoint(v, active, defs); }
    hide Accepts, Inline, IsPortable;
    assert Relaxed(schema, active, defs, m) <==> v == kept by {
      assert Accepts(schema, v, active, defs, m);
    }
  }

  // In particular a constant object loses a key that is not a portable keyword.
  lemma ObjectConstantsAreRejected(m: Meaning, name: string, v: Json)
    requires Neutral(m)
    ensures var literal := Obj(map[Named(name) := v]);
            var schema := Obj(map[Const := literal]);
            && Inline(schema, {}, map[]) == Ok(Obj(map[Enum := Arr([Obj(map[])])]))
            && Accepts(schema, literal, {}, map[], m)
            && !Accepts(Obj(map[Enum := Arr([Obj(map[])])]), literal, {}, map[], m)
  {
    var literal := Obj(map[Named(name) := v]);
    var f := map[Const := literal];
    UnknownKeywordIsDropped(name, v);
    assert DroppedPart(f) == map[];
    assert !HasReference(f);
    NothingPortable(Obj(f));
    var r := map[Enum := Arr([Obj(map[])])];
    assert Enum in r && Portable(Enum);
    assert literal.fields != map[] by { assert Named(name) in literal.fields; }
    assert !AcceptsValue(Enum, r[Enum], PropertyNames(r), literal, {}, map[], m);
  }

  // ---- A keyword beside a reference ----

  const CLOSED := Named("closed")
  const FIRST := Named("first")
  const SECOND := Named("second")
  const ANYTHING := Obj(map[])
  const CLOSED_FIELDS := map[Properties := Obj(map[FIRST := ANYTHING]), AdditionalProperties := Bool(false)]
  const SIBLING := Obj(map[Ref := Str(DefinitionRef(CLOSED)), Properties := Obj(map[SECOND := ANYTHING])])
  const INLINED_SIBLING := Obj(map[Properties := Obj(map[SECOND := ANYTHING]), AdditionalProperties := Bool(false)])

  lemma AnythingIsAccepted(inst: Json, active: set<Key>, defs: Definitions, m: Meaning)
    requires Neutral(m)
    ensures Accepts(ANYTHING, inst, active, defs, m)
  {
    assert DroppedPart(map[]) == map[];
    AcceptsFields(map[], inst, active, defs, m);
  }

  lemma ClosedAccepts(inst: Json, active: set<Key>, defs: Definitions, m: Meaning)
    requires Neutral(m) && inst == Obj(map[FIRST := Null])
    ensures Accepts(Obj(CLOSED_FIELDS), inst, active, defs, m)
  {
    assert DroppedPart(CLOSED_FIELDS) == map[];
    AcceptsFields(CLOSED_FIELDS, inst, active, defs, m);
    AnythingIsAccepted(Null, active, defs, m);
    hide Accepts;
    assert PropertyNames(CLOSED_FIELDS) == {FIRST};
  }

  lemma SiblingAccepts(inst: Json, m: Meaning)
    requires Neutral(m) && inst == Obj(map[FIRST := Null])
    ensures Accepts(SIBLING, inst, {}, map[CLOSED := Obj(CLOSED_FIELDS)], m)
  {
    var defs := map[CLOSED := Obj(CLOSED_FIELDS)];
    assert DroppedPart(SIBLING.fields) == map[];
    ClosedAccepts(inst, {CLOSED}, defs, m);
    assert {} + {CLOSED} == {CLOSED};
    assert AcceptsValue(Properties, SIBLING.fields[Properties], PropertyNames(SIBLING.fields), inst, {}, defs, m);
  }

  lemma InlinedSiblingRejects(inst: Json, m: Meaning)
    requires inst == Obj(map[FIRST := Null])
    ensures !Accepts(INLINED_SIBLING, inst, {}, map[], m)
  {
    var f := INLINED_SIBLING.fields;
    AcceptsFields(f, inst, {}, map[], m);
    assert PropertyNames(f) == {SECOND};
    assert AdditionalProperties in f && Portable(AdditionalProperties);
    assert !Accepts(f[AdditionalProperties], inst.fields[FIRST], {}, map[], m);
    hide Accepts;
    assert !AcceptsValue(AdditionalProperties, f[AdditionalProperties], PropertyNames(f), inst, {}, map[], m);
  }

  lemma SiblingInlined()
    ensures Inline(SIBLING, {}, map[CLOSED := Obj(CLOSED_FIELDS)]) == Ok(INLINED_SIBLING)
  {
    hide Inline, IsPortable, Merge;
    var defs := map[CLOSED := Obj(CLOSED_FIELDS)];
    InlinedSiblingIsPortable();
    PortableIsFixpoint(INLINED_SIBLING, {CLOSED}, defs);
    SiblingMerged();
    assert {} + {CLOSED} == {CLOSED};
    ReferenceInlined(SIBLING.fields, CLOSED, {}, defs);
  }

  lemma SiblingMerged()
    ensures Merge(CLOSED_FIELDS, SIBLING.fields) == INLINED_SIBLING.fields
  {
    assert SIBLING.fields - {Ref} == map[Properties := Obj(map[SECOND := ANYTHING])];
  }

  lemma InlinedSiblingIsPortable()
    ensures IsPortable(INLINED_SIBLING)
  {
    assert IsPortable(ANYTHING) && IsPortable(Bool(false));
    var properties := Obj(map[SECOND := ANYTHING]);
    assert PortableValue(Properties, properties) by {
      assert forall n :: n in properties.fields ==> properties.fields[n] == ANYTHING;
    }
    assert PortableValue(AdditionalProperties, Bool(false));
    hide PortableValue;
  }

  lemma ReferenceInlined(f: map<Key, Json>, name: Key, active: set<Key>, defs: Definitions)
    requires Ref in f && f[Ref] == Str(DefinitionRef(name)) && name in defs && name !in active && defs[name].Obj?
    ensures Inline(Obj(f), active, defs) == Inline(Obj(Merge(defs[name].fields, f)), active + {name}, defs)
  {
    hide InlineFields, Merge;
  }

  // Inlining lets a sibling of a reference replace the definition's keyword of the same name, where
  // the schema demands both: a definition closed over one property, referenced beside another,
  // accepts the first before inlining and rejects it afterwards.
  lemma SiblingReplacesDefinition(m: Meaning)
    requires Neutral(m)
    ensures var defs := map[CLOSED := Obj(CLOSED_FIELDS)];
            && Inline(SIBLING, {}, defs) == Ok(INLINED_SIBLING)
            && Accepts(SIBLING, Obj(map[FIRST := Null]), {}, defs, m)
            && !Accepts(INLINED_SIBLING, Obj(map[FIRST := Null]), {}, map[], m)
  {
    SiblingInlined();
    SiblingAccepts(Obj(map[FIRST := Null]), m);
    InlinedSiblingRejects(Obj(map[FIRST := Null]), m);
  }

  // A schema of nothing but oneOf means that exactly one branch accepts.
  lemma OneOfMeans(branches: seq<Json>, inst: Json, m: Meaning)
    requires Neutral(m) && |branches| == 2
    ensures Accepts(Obj(map[OneOf := Arr(branches)]), inst, {}, map[], m) <==>
              Accepts(branches[0], inst, {}, map[], m) != Accepts(branches[1], inst, {}, map[], m)
  {
    var f := map[OneOf := Arr(branches)];
    assert DroppedPart(f) == map[];
    var value := f[OneOf];
    assert value == Arr(branches);
    assert !HasReference(f) && Const !in f;
    assert Accepts(Obj(f), inst, {}, map[], m) <==> AcceptsValue(OneOf, value, PropertyNames(f), inst, {}, map[], m);
    hide DroppedPart, PropertyNames, Portable;
    ExactlyOne(branches, value, PropertyNames(f), inst, m);
  }

  lemma ExactlyOne(branches: seq<Json>, value: Json, names: set<Key>, inst: Json, m: Meaning)
    requires |branches| == 2 && value == Arr(branches)
    ensures AcceptsValue(OneOf, value, names, inst, {}, map[], m) <==>
              Accepts(branches[0], inst, {}, map[], m) != Accepts(branches[1], inst, {}, map[], m)
  {
    hide Accepts;
    var accepting := Accepting(value.items, inst, {}, map[], m);
    var a, b := Accepts(branches[0], inst, {}, map[], m), Accepts(branches[1], inst, {}, map[], m);
    assert accepting == (if a then {0} else {}) + (if b then {1} else {});
  }

  lemma OneOfInlined(branches: seq<Json>, inlined: seq<Json>)
    requires InlineList(branches, {}, map[]) == Ok(inlined)
    ensures Inline(Obj(map[OneOf := Arr(branches)]), {}, map[]) == Ok(Obj(map[OneOf := Arr(inlined)]))
  {
    var f, r := map[OneOf := Arr(branches)], map[OneOf := Arr(inlined)];
    assert !HasReference(f) && Const !in f && Portable(OneOf);
    assert InlineValue(OneOf, f[OneOf], {}, map[]) == Ok(r[OneOf]);
    Unfold(Obj(f), {}, map[]);
    assert Inline(Obj(f), {}, map[]).value.fields == r;
  }

  // Two oneOf branches told apart by a dropped keyword become indistinguishable: what exactly one
  // of them accepted, both accept, so oneOf rejects it.
  lemma OneOfCanBecomeAmbiguous(m: Meaning, name: string, v: Json, inst: Json)
    requires Neutral(m) && !m.dropped(map[Named(name) := v], inst)
    ensures var empty := Obj(map[]);
            var schema := Obj(map[OneOf := Arr([empty, Obj(map[Named(name) := v])])]);
            && Inline(schema, {}, map[]) == Ok(Obj(map[OneOf := Arr([empty, empty])]))
            && Accepts(schema, inst, {}, map[], m)
            && !Accepts(Obj(map[OneOf := Arr([empty, empty])]), inst, {}, map[], m)
  {
    var empty, narrow := Obj(map[]), Obj(map[Named(name) := v]);
    UnknownKeywordIsDropped(name, v);
    EmptySchemaIsKept();
    AnythingIsAccepted(inst, {}, map[], m);
    UnmetKeywordRejects(m, name, v, inst);
    hide Inline, InlineList, Accepts;
    BranchesInlined([empty, narrow], empty, {}, map[]);
    OneOfInlined([empty, narrow], [empty, empty]);
    OneOfMeans([empty, narrow], inst, m);
    OneOfMeans([empty, empty], inst, m);
  }

  lemma UnmetKeywordRejects(m: Meaning, name: string, v: Json, inst: Json)
    requires !m.dropped(map[Named(name) := v], inst)
    ensures !Accepts(Obj(map[Named(name) := v]), inst, {}, map[], m)
  {
    assert DroppedPart(map[Named(name) := v]) == map[Named(name) := v];
  }

  lemma BranchesInlined(branches: seq<Json>, inlined: Json, active: set<Key>, defs: Definitions)
    requires |branches| == 2
    requires Inline(branches[0], active, defs) == Ok(inlined) && Inline(branches[1], active, defs) == Ok(inlined)
    ensures InlineList(branches, active, defs) == Ok([inlined, inlined])
  {
    var one := branches[1..];
    assert one[0] == branches[1] && one[1..] == [];
    assert InlineList(one[1..], active, defs).Ok?;
    ListStep(one, active, defs);
    assert [inlined] + InlineList(one[1..], active, defs).value == [inlined];
    ListStep(branches, active, defs);
    assert [inlined] + [inlined] == [inlined, inlined];
  }
}
