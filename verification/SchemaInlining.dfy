// What inlining guarantees: it fails exactly on a walk to a bad reference or a misplaced
// keyword, its result is portable all the way down, and on the fragment it supports every
// instance of the source schema is an instance of the result.
module SchemaInlining {
  import opened Schemas
  import opened Wrappers

  // ---- When inlining fails ----

  // A node being visited, and the definitions being followed around it.
  datatype Visit = Visit(node: Json, active: set<Key>)

  // The visit cannot be completed, whatever lies below it.
  predicate Stuck(v: Visit, defs: Definitions) {
    v.node.Obj? &&
    var f := v.node.fields;
    if HasReference(f) then Resolve(f, v.active, defs).Err?
    else
      || (Properties in f && !f[Properties].Obj?)
      || (AllOf in f && !f[AllOf].Arr?)
      || (AnyOf in f && !f[AnyOf].Arr?)
      || (OneOf in f && !f[OneOf].Arr?)
  }

  // The node below a keyword: the keyword's value, a property of it, or a branch of it.
  predicate Below(k: Key, value: Json, child: Json) {
    if k == Properties then value.Obj? && exists n :: n in value.fields && value.fields[n] == child
    else if k == Items || k == AdditionalProperties then child == value
    else if k == AllOf || k == AnyOf || k == OneOf then value.Arr? && child in value.items
    else false
  }

  // One step of the traversal.
  predicate Leads(v: Visit, w: Visit, defs: Definitions) {
    match v.node
    case Arr(items) => w.active == v.active && w.node in items
    case Obj(f) =>
      if HasReference(f) then
        && Resolve(f, v.active, defs).Ok?
        && var name := Resolve(f, v.active, defs).value;
           w == Visit(Obj(Merge(defs[name].fields, f)), v.active + {name})
      else
        && w.active == v.active
        && ((Const in f && w.node == f[Const]) || (exists k :: k in f && Portable(k) && Below(k, f[k], w.node)))
    case _ => false
  }

  predicate Walk(path: seq<Visit>, defs: Definitions) {
    path != [] && forall i :: 0 <= i < |path| - 1 ==> Leads(path[i], path[i + 1], defs)
  }

  predicate WalkToStuck(path: seq<Visit>, start: Visit, defs: Definitions) {
    Walk(path, defs) && path[0] == start && Stuck(path[|path| - 1], defs)
  }

  lemma {:induction false} ListFails(items: seq<Json>, active: set<Key>, defs: Definitions) returns (child: Json)
    requires InlineList(items, active, defs).Err?
    ensures child in items && Inline(child, active, defs).Err?
  {
    if Inline(items[0], active, defs).Err? { child := items[0]; } else { child := ListFails(items[1..], active, defs); }
  }

  lemma {:induction false} ListFailsWith(items: seq<Json>, child: Json, active: set<Key>, defs: Definitions)
    requires child in items && Inline(child, active, defs).Err?
    ensures InlineList(items, active, defs).Err?
  {
    if items[0] != child { ListFailsWith(items[1..], child, active, defs); }
  }

  // A failing visit is stuck, or leads to a failing one.
  lemma FailingStep(v: Visit, defs: Definitions) returns (w: Visit)
    requires Inline(v.node, v.active, defs).Err? && !Stuck(v, defs)
    ensures Leads(v, w, defs) && Inline(w.node, w.active, defs).Err?
  {
    match v.node
    case Arr(items) =>
      var child := ListFails(items, v.active, defs);
      w := Visit(child, v.active);
    case Obj(f) =>
      if HasReference(f) {
        var name := Resolve(f, v.active, defs).value;
        w := Visit(Obj(Merge(defs[name].fields, f)), v.active + {name});
      } else if Const in f && Inline(f[Const], v.active, defs).Err? {
        w := Visit(f[Const], v.active);
      } else {
        Unfold(v.node, v.active, defs);
        var k :| k in f && Portable(k) && InlineValue(k, f[k], v.active, defs).Err?;
        var child := FailingBelow(k, f[k], v.active, defs);
        w := Visit(child, v.active);
      }
  }

  lemma FailingBelow(k: Key, value: Json, active: set<Key>, defs: Definitions) returns (child: Json)
    requires InlineValue(k, value, active, defs).Err?
    requires k == Properties ==> value.Obj?
    requires k == AllOf || k == AnyOf || k == OneOf ==> value.Arr?
    ensures Below(k, value, child) && Inline(child, active, defs).Err?
  {
    if k == Properties {
      var n :| n in value.fields && Inline(value.fields[n], active, defs).Err?;
      child := value.fields[n];
    } else if k == Items || k == AdditionalProperties {
      child := value;
    } else {
      child := ListFails(value.items, active, defs);
    }
  }

  lemma StuckFails(v: Visit, defs: Definitions)
    requires Stuck(v, defs)
    ensures Inline(v.node, v.active, defs).Err?
  {
    var f := v.node.fields;
    if !HasReference(f) {
      Unfold(v.node, v.active, defs);
      var k := if Properties in f && !f[Properties].Obj? then Properties
               else if AllOf in f && !f[AllOf].Arr? then AllOf
               else if AnyOf in f && !f[AnyOf].Arr? then AnyOf
               else OneOf;
      assert k in f && Portable(k) && InlineValue(k, f[k], v.active, defs).Err?;
    }
  }

  lemma ValueFailsWith(k: Key, value: Json, child: Json, active: set<Key>, defs: Definitions)
    requires Below(k, value, child) && Inline(child, active, defs).Err?
    ensures InlineValue(k, value, active, defs).Err?
  {
    if k == AllOf || k == AnyOf || k == OneOf { ListFailsWith(value.items, child, active, defs); }
    hide Inline;
  }

  lemma FailureComesUp(v: Visit, w: Visit, defs: Definitions)
    requires Leads(v, w, defs) && Inline(w.node, w.active, defs).Err?
    ensures Inline(v.node, v.active, defs).Err?
  {
    match v.node
    case Arr(items) => ListFailsWith(items, w.node, v.active, defs);
    case Obj(f) =>
      if !HasReference(f) { Unfold(v.node, v.active, defs); }
      if !HasReference(f) && !(Const in f && w.node == f[Const]) {
        hide Below, Inline;
        var k :| k in f && Portable(k) && Below(k, f[k], w.node);
        ValueFailsWith(k, f[k], w.node, v.active, defs);
      }
  }

  lemma {:induction false} FailureHasWalk(v: Visit, defs: Definitions) returns (path: seq<Visit>)
    requires Inline(v.node, v.active, defs).Err?
    ensures WalkToStuck(path, v, defs)
    decreases defs.Keys - v.active, v.node
  {
    if Stuck(v, defs) {
      path := [v];
    } else {
      var w := FailingStep(v, defs);
      StepsGoDown(v, w, defs);
      var rest := FailureHasWalk(w, defs);
      path := [v] + rest;
    }
  }

  // The termination measure of the traversal: unvisited definitions, then the node.
  lemma StepsGoDown(v: Visit, w: Visit, defs: Definitions)
    requires Leads(v, w, defs)
    ensures defs.Keys - w.active < defs.Keys - v.active || (w.active == v.active && (v.node decreases to w.node))
  {
    if v.node.Obj? && HasReference(v.node.fields) {
      var name := Resolve(v.node.fields, v.active, defs).value;
      assert name in defs.Keys - v.active;
    }
  }

  lemma {:induction false} WalkFails(path: seq<Visit>, defs: Definitions)
    requires Walk(path, defs) && Stuck(path[|path| - 1], defs)
    ensures Inline(path[0].node, path[0].active, defs).Err?
  {
    if |path| == 1 {
      StuckFails(path[0], defs);
    } else {
      assert Leads(path[0], path[1], defs);
      forall i | 0 <= i < |path[1..]| - 1 ensures Leads(path[1..][i], path[1..][i + 1], defs) {
        assert Leads(path[i + 1], path[i + 2], defs);
      }
      WalkFails(path[1..], defs);
      FailureComesUp(path[0], path[1], defs);
    }
  }

  // Inlining is refused exactly when some walk from the root reaches an unresolved, cyclic or
  // unsupported reference, or a keyword whose value has the wrong shape.
  lemma InliningFailsExactly(schema: Json, defs: Definitions)
    ensures Inline(schema, {}, defs).Err? <==> exists path :: WalkToStuck(path, Visit(schema, {}), defs)
  {
    if Inline(schema, {}, defs).Err? {
      var path := FailureHasWalk(Visit(schema, {}), defs);
    }
    forall path | WalkToStuck(path, Visit(schema, {}), defs)
      ensures Inline(schema, {}, defs).Err?
    {
      WalkFails(path, defs);
    }
  }
}
