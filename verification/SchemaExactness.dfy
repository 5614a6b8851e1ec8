// The portable view keeps all it can: of a schema's keywords exactly ten, each with its meaning, and
// of its constants all that are themselves written in those ten.
module SchemaExactness {
  import opened SchemaRelaxation
  import opened Schemas
  import opened Wrappers

  // The keywords a provider is sent.
  predicate Sent(k: Key) {
    || k == Type || k == Required || k == Enum || k == Description || k == Properties || k == AdditionalProperties
    || k == Items || k == AllOf || k == AnyOf || k == OneOf
  }

  lemma SentIsPortable(k: Key)
    ensures Sent(k) <==> Portable(k)
  {
  }

  // ---- Schemas of nothing but these keywords ----

  predicate OnlySent(node: Json)
    decreases node, 1
  {
    match node
    case Arr(items) => forall i :: 0 <= i < |items| ==> OnlySent(items[i])
    case Obj(f) => forall k :: k in f ==> Sent(k) && OnlySentIn(k, f[k])
    case _ => true
  }

  predicate OnlySentIn(k: Key, value: Json)
    decreases value, 2
  {
    match k
    case Properties => value.Obj? && forall n :: n in value.fields ==> OnlySent(value.fields[n])
    case AdditionalProperties => OnlySent(value)
    case Items => OnlySent(value)
    case AllOf => value.Arr? && forall i :: 0 <= i < |value.items| ==> OnlySent(value.items[i])
    case AnyOf => value.Arr? && forall i :: 0 <= i < |value.items| ==> OnlySent(value.items[i])
    case OneOf => value.Arr? && forall i :: 0 <= i < |value.items| ==> OnlySent(value.items[i])
    case _ => true
  }

  lemma {:induction false} OnlySentIsPortable(node: Json)
    ensures OnlySent(node) <==> IsPortable(node)
    decreases node, 1
  {
    match node
    case Arr(items) => forall i | 0 <= i < |items| { OnlySentIsPortable(items[i]); }
    case Obj(f) =>
      forall k | k in f
        ensures Sent(k) <==> Portable(k)
        ensures OnlySentIn(k, f[k]) <==> PortableValue(k, f[k])
      {
        SentIsPortable(k);
        OnlySentInIsPortable(k, f[k]);
      }
      hide Sent, Portable, OnlySentIn, PortableValue;
    case _ =>
  }

  lemma {:induction false} OnlySentInIsPortable(k: Key, value: Json)
    ensures OnlySentIn(k, value) <==> PortableValue(k, value)
    decreases value, 2
  {
    hide OnlySent, IsPortable;
    match k
    case Properties => if value.Obj? { forall n | n in value.fields { OnlySentIsPortable(value.fields[n]); } }
    case AdditionalProperties => OnlySentIsPortable(value);
    case Items => OnlySentIsPortable(value);
    case AllOf => if value.Arr? { forall i | 0 <= i < |value.items| { OnlySentIsPortable(value.items[i]); } }
    case AnyOf => if value.Arr? { forall i | 0 <= i < |value.items| { OnlySentIsPortable(value.items[i]); } }
    case OneOf => if value.Arr? { forall i | 0 <= i < |value.items| { OnlySentIsPortable(value.items[i]); } }
    case _ =>
  }

  // Such a schema is its own portable view, and every portable view is such a schema.
  lemma OnlySentIsInlinedToItself(node: Json, active: set<Key>, defs: Definitions)
    ensures OnlySent(node) ==> Inline(node, active, defs) == Ok(node)
    ensures Inline(node, active, defs).Ok? ==> OnlySent(Inline(node, active, defs).value)
  {
    OnlySentIsPortable(node);
    if OnlySent(node) { PortableIsFixpoint(node, active, defs); }
    if Inline(node, active, defs).Ok? {
      InlinedIsPortable(node, active, defs);
      OnlySentIsPortable(Inline(node, active, defs).value);
    }
  }

  // A null reference is no reference: the object is inlined as if it were not there.
  lemma NullReferenceIsNone(f: map<Key, Json>, active: set<Key>, defs: Definitions)
    requires Ref in f && f[Ref] == Null
    ensures Inline(Obj(f), active, defs) == Inline(Obj(f - {Ref}), active, defs)
  {
    assert !Portable(Ref);
    hide Inline, InlineFields, InlineValue, Portable, FieldsOk, Copied;
    Unfold(Obj(f), active, defs);
    Unfold(Obj(f - {Ref}), active, defs);
    var one, other := Inline(Obj(f), active, defs), Inline(Obj(f - {Ref}), active, defs);
    if one.Ok? && other.Ok? {
      forall k | k in one.value.fields
        ensures k in other.value.fields && one.value.fields[k] == other.value.fields[k]
      {
      }
      assert one.value.fields == other.value.fields;
    }
  }

  // ---- What the kept keywords demand ----

  // The names the properties keyword declares.
  function Declared(f: map<Key, Json>): set<Key> {
    if Properties in f && f[Properties].Obj? then f[Properties].fields.Keys else {}
  }

  // An instance meets the references, the constant and the ten keywords of a schema, and nothing is
  // asked of the others. Type and required may mean anything.
  ghost predicate Meets(node: Json, inst: Json, active: set<Key>, defs: Definitions, verbatim: (Key, Json, Json) -> bool)
    decreases defs.Keys - active, node, 2
  {
    match node
    case Bool(b) => b
    case Obj(f) =>
      && (HasReference(f) ==>
            Resolve(f, active, defs).Ok? &&
            var name := Resolve(f, active, defs).value;
            assert defs.Keys - (active + {name}) < defs.Keys - active by { assert name in defs.Keys - active; }
            Meets(defs[name], inst, active + {name}, defs, verbatim))
      && (Const in f ==> inst == f[Const])
      && forall k :: k in f && Sent(k) ==> MeetsValue(k, f[k], Declared(f), inst, active, defs, verbatim)
    case _ => true
  }

  ghost predicate MeetsValue(k: Key, value: Json, declared: set<Key>, inst: Json, active: set<Key>, defs: Definitions,
                             verbatim: (Key, Json, Json) -> bool)
    decreases defs.Keys - active, value, 3
  {
    match k
    case Properties =>
      inst.Obj? && value.Obj? ==>
        forall n :: n in value.fields && n in inst.fields ==> Meets(value.fields[n], inst.fields[n], active, defs, verbatim)
    case AdditionalProperties =>
      inst.Obj? ==> forall n :: n in inst.fields && n !in declared ==> Meets(value, inst.fields[n], active, defs, verbatim)
    case Items => inst.Arr? ==> forall i :: 0 <= i < |inst.items| ==> Meets(value, inst.items[i], active, defs, verbatim)
    case AllOf => value.Arr? ==> forall i :: 0 <= i < |value.items| ==> Meets(value.items[i], inst, active, defs, verbatim)
    case AnyOf => value.Arr? ==> exists i :: 0 <= i < |value.items| && Meets(value.items[i], inst, active, defs, verbatim)
    case OneOf => value.Arr? ==> |Meeting(value.items, inst, active, defs, verbatim)| == 1
    case Enum => value.Arr? ==> inst in value.items
    case Description => true
    case _ => verbatim(k, value, inst)
  }

  ghost function Meeting(items: seq<Json>, inst: Json, active: set<Key>, defs: Definitions, verbatim: (Key, Json, Json) -> bool)
    : set<nat>
    decreases defs.Keys - active, items, 0
  {
    set i: nat | i < |items| && Meets(items[i], inst, active, defs, verbatim)
  }

  // Only annotations beside a reference, and a constant without an enumeration beside it and within
  // the ten keywords, at every position that is kept.
  ghost predicate Kept(node: Json, active: set<Key>, defs: Definitions)
    decreases defs.Keys - active, node, 2
  {
    match node
    case Obj(f) =>
      if HasReference(f) then
        && (forall k :: k in f ==> k == Ref || k == Description || k == Title || k == Default)
        && (Resolve(f, active, defs).Ok? ==>
              var name := Resolve(f, active, defs).value;
              assert defs.Keys - (active + {name}) < defs.Keys - active by { assert name in defs.Keys - active; }
              Kept(Obj(Merge(defs[name].fields, f)), active + {name}, defs))
      else
        && (Const in f ==> Enum !in f && OnlySent(f[Const]))
        && (forall k :: k in f && Sent(k) ==> KeptValue(k, f[k], active, defs))
    case _ => true
  }

  ghost predicate KeptValue(k: Key, value: Json, active: set<Key>, defs: Definitions)
    decreases defs.Keys - active, value, 3
  {
    match k
    case Properties => value.Obj? ==> forall n :: n in value.fields ==> Kept(value.fields[n], active, defs)
    case AdditionalProperties => Kept(value, active, defs)
    case Items => Kept(value, active, defs)
    case AllOf => value.Arr? ==> forall i :: 0 <= i < |value.items| ==> Kept(value.items[i], active, defs)
    case AnyOf => value.Arr? ==> forall i :: 0 <= i < |value.items| ==> Kept(value.items[i], active, defs)
    case OneOf => value.Arr? ==> forall i :: 0 <= i < |value.items| ==> Kept(value.items[i], active, defs)
    case _ => true
  }

  lemma MeetsFields(f: map<Key, Json>, inst: Json, active: set<Key>, defs: Definitions, verbatim: (Key, Json, Json) -> bool)
    requires !HasReference(f)
    ensures Meets(Obj(f), inst, active, defs, verbatim) <==>
              && (Const in f ==> inst == f[Const])
              && forall k :: k in f && Sent(k) ==> MeetsValue(k, f[k], Declared(f), inst, active, defs, verbatim)
  {
  }

  // Annotations ask nothing.
  lemma AnnotationsAskNothing(f: map<Key, Json>, g: map<Key, Json>, inst: Json, active: set<Key>, defs: Definitions,
                              verbatim: (Key, Json, Json) -> bool)
    requires forall k :: k != Description && k != Title && k != Default ==> (k in f <==> k in g) && (k in f ==> f[k] == g[k])
    requires Meets(Obj(f), inst, active, defs, verbatim)
    ensures Meets(Obj(g), inst, active, defs, verbatim)
  {
    assert Declared(f) == Declared(g);
    forall k | k in g && Sent(k)
      ensures MeetsValue(k, g[k], Declared(g), inst, active, defs, verbatim)
    {
      if k != Description { assert MeetsValue(k, f[k], Declared(f), inst, active, defs, verbatim); }
    }
  }

  // An instance of the portable view meets exactly what the source asks with these keywords, and the
  // other way round: nothing of them is lost and nothing is added.
  lemma {:induction false} PortableViewIsExact(node: Json, inst: Json, active: set<Key>, defs: Definitions,
                                               verbatim: (Key, Json, Json) -> bool)
    requires Kept(node, active, defs) && Inline(node, active, defs).Ok?
    ensures Meets(Inline(node, active, defs).value, inst, {}, map[], verbatim) <==> Meets(node, inst, active, defs, verbatim)
    decreases defs.Keys - active, node, 2
  {
    if node.Obj? {
      var f := node.fields;
      if HasReference(f) {
        var name := Resolve(f, active, defs).value;
        assert defs.Keys - (active + {name}) < defs.Keys - active by { assert name in defs.Keys - active; }
        var merged := Merge(defs[name].fields, f);
        PortableViewIsExact(Obj(merged), inst, active + {name}, defs, verbatim);
        ReferenceMeets(f, name, merged, inst, active, defs, verbatim);
      } else {
        FieldsExact(node, inst, active, defs, verbatim);
      }
    }
  }

  lemma OnlyTheReference(f: map<Key, Json>, name: Key, inst: Json, active: set<Key>, defs: Definitions,
                         verbatim: (Key, Json, Json) -> bool)
    requires HasReference(f) && Resolve(f, active, defs) == Ok(name)
    requires forall k :: k in f ==> k == Ref || k == Description || k == Title || k == Default
    ensures Meets(Obj(f), inst, active, defs, verbatim) <==> Meets(defs[name], inst, active + {name}, defs, verbatim)
  {
  }

  lemma ReferenceMeets(f: map<Key, Json>, name: Key, merged: map<Key, Json>, inst: Json, active: set<Key>, defs: Definitions,
                       verbatim: (Key, Json, Json) -> bool)
    requires HasReference(f) && Resolve(f, active, defs) == Ok(name) && merged == Merge(defs[name].fields, f)
    requires forall k :: k in f ==> k == Ref || k == Description || k == Title || k == Default
    ensures Meets(Obj(f), inst, active, defs, verbatim) <==> Meets(Obj(merged), inst, active + {name}, defs, verbatim)
  {
    hide Meets;
    var g := defs[name].fields;
    OnlyTheReference(f, name, inst, active, defs, verbatim);
    if Meets(Obj(g), inst, active + {name}, defs, verbatim) {
      AnnotationsAskNothing(g, merged, inst, active + {name}, defs, verbatim);
    }
    if Meets(Obj(merged), inst, active + {name}, defs, verbatim) {
      AnnotationsAskNothing(merged, g, inst, active + {name}, defs, verbatim);
    }
  }

  lemma KeptFields(f: map<Key, Json>, active: set<Key>, defs: Definitions)
    requires !HasReference(f) && Kept(Obj(f), active, defs)
    ensures Const in f ==> Enum !in f && OnlySent(f[Const])
    ensures forall k :: k in f && Sent(k) ==> KeptValue(k, f[k], active, defs)
  {
  }

  lemma AllSentIsPortable()
    ensures forall k :: Sent(k) <==> Portable(k)
  {
    forall k { SentIsPortable(k); }
  }

  lemma {:induction false} FieldsExact(node: Json, inst: Json, active: set<Key>, defs: Definitions,
                                       verbatim: (Key, Json, Json) -> bool)
    requires node.Obj? && !HasReference(node.fields)
    requires Kept(node, active, defs) && Inline(node, active, defs).Ok?
    ensures Meets(Inline(node, active, defs).value, inst, {}, map[], verbatim) <==> Meets(node, inst, active, defs, verbatim)
    decreases defs.Keys - active, node, 1
  {
    hide Inline, InlineFields, InlineValue, FieldsOk, Copied, Meets, MeetsValue, Kept, KeptValue, HasReference, OnlySent;
    var f := node.fields;
    Unfold(node, active, defs);
    SameNames(node, active, defs);
    var r := Inline(node, active, defs).value.fields;
    MeetsFields(f, inst, active, defs, verbatim);
    MeetsFields(r, inst, {}, map[], verbatim);
    KeptFields(f, active, defs);
    AllSentIsPortable();
    hide Sent, Portable;
    forall k | k in f && Sent(k)
      ensures k in r && (MeetsValue(k, r[k], Declared(r), inst, {}, map[], verbatim) <==>
                         MeetsValue(k, f[k], Declared(f), inst, active, defs, verbatim))
    {
      ValueExact(k, f[k], Declared(f), inst, active, defs, verbatim);
    }
    if Const in f {
      OnlySentIsInlinedToItself(f[Const], active, defs);
      EnumMeets(f[Const], Declared(r), inst, verbatim);
    }
  }

  lemma EnumMeets(value: Json, declared: set<Key>, inst: Json, verbatim: (Key, Json, Json) -> bool)
    ensures Sent(Enum)
    ensures MeetsValue(Enum, Arr([value]), declared, inst, {}, map[], verbatim) <==> inst == value
  {
  }

  lemma {:induction false} ValueExact(k: Key, value: Json, declared: set<Key>, inst: Json, active: set<Key>, defs: Definitions,
                                      verbatim: (Key, Json, Json) -> bool)
    requires Sent(k) && KeptValue(k, value, active, defs) && InlineValue(k, value, active, defs).Ok?
    ensures MeetsValue(k, InlineValue(k, value, active, defs).value, declared, inst, {}, map[], verbatim) <==>
            MeetsValue(k, value, declared, inst, active, defs, verbatim)
    decreases defs.Keys - active, value, 4
  {
    hide Meets, Kept, Inline, Meeting;
    match k
    case Properties => if inst.Obj? { PropertiesExact(value, inst.fields, active, defs, verbatim); }
    case AdditionalProperties => if inst.Obj? { MembersExact(value, inst.fields, active, defs, verbatim); }
    case Items =>
      if inst.Arr? {
        forall i | 0 <= i < |inst.items|
          ensures Meets(Inline(value, active, defs).value, inst.items[i], {}, map[], verbatim) <==>
                  Meets(value, inst.items[i], active, defs, verbatim)
        {
          PortableViewIsExact(value, inst.items[i], active, defs, verbatim);
        }
      }
    case AllOf => BranchesExact(value.items, inst, active, defs, verbatim);
    case AnyOf => BranchesExact(value.items, inst, active, defs, verbatim);
    case OneOf => BranchesExact(value.items, inst, active, defs, verbatim);
    case _ =>
  }

  lemma {:induction false} PropertiesExact(value: Json, members: map<Key, Json>, active: set<Key>, defs: Definitions,
                                           verbatim: (Key, Json, Json) -> bool)
    requires value.Obj? && (forall n :: n in value.fields ==> Kept(value.fields[n], active, defs))
    requires InlineValue(Properties, value, active, defs).Ok?
    ensures var r := InlineValue(Properties, value, active, defs).value;
            && r.Obj? && r.fields.Keys == value.fields.Keys
            && forall n :: n in value.fields && n in members ==>
                 (Meets(r.fields[n], members[n], {}, map[], verbatim) <==> Meets(value.fields[n], members[n], active, defs, verbatim))
    decreases defs.Keys - active, value, 2
  {
    hide Meets, Kept, Inline;
    forall n | n in value.fields && n in members
      ensures Meets(Inline(value.fields[n], active, defs).value, members[n], {}, map[], verbatim) <==>
              Meets(value.fields[n], members[n], active, defs, verbatim)
    {
      PortableViewIsExact(value.fields[n], members[n], active, defs, verbatim);
    }
  }

  lemma {:induction false} MembersExact(value: Json, members: map<Key, Json>, active: set<Key>, defs: Definitions,
                                        verbatim: (Key, Json, Json) -> bool)
    requires Kept(value, active, defs) && Inline(value, active, defs).Ok?
    ensures forall n :: n in members ==>
              (Meets(Inline(value, active, defs).value, members[n], {}, map[], verbatim) <==>
               Meets(value, members[n], active, defs, verbatim))
    decreases defs.Keys - active, value, 3
  {
    hide Meets, Kept, Inline;
    forall n | n in members { PortableViewIsExact(value, members[n], active, defs, verbatim); }
  }

  lemma {:induction false} BranchesExact(items: seq<Json>, inst: Json, active: set<Key>, defs: Definitions,
                                         verbatim: (Key, Json, Json) -> bool)
    requires InlineList(items, active, defs).Ok? && forall i :: 0 <= i < |items| ==> Kept(items[i], active, defs)
    ensures var r := InlineList(items, active, defs).value;
            && (forall i :: 0 <= i < |items| ==>
                  (Meets(r[i], inst, {}, map[], verbatim) <==> Meets(items[i], inst, active, defs, verbatim)))
            && Meeting(r, inst, {}, map[], verbatim) == Meeting(items, inst, active, defs, verbatim)
    decreases defs.Keys - active, items, 0
  {
    hide Meets, Kept, Inline, InlineList;
    var r := InlineList(items, active, defs).value;
    forall i | 0 <= i < |items|
      ensures Meets(r[i], inst, {}, map[], verbatim) <==> Meets(items[i], inst, active, defs, verbatim)
    {
      BranchInlined(items, i, active, defs);
      PortableViewIsExact(items[i], inst, active, defs, verbatim);
    }
  }
}
