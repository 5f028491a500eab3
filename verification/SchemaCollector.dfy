/**
  The schema generator's collector: a depth-first traversal that collects a schema and every
  schema it refers to, in a specification whose references may form cycles.
*/
module SchemaCollector {
  import opened Wrappers
  import Ordering

  /** A decoded JSON value. */
  datatype Json = Object(fields: map<string, Json>) | Array(items: seq<Json>) | String(text: string) | Other

  type Spec = map<string, Json>

  const REF_PREFIX := "#/components/schemas/"

  /** The schema a map points at by its "$ref" field, if it is a string of the right form. */
  function RefTarget(fields: map<string, Json>): Option<string> {
    if "$ref" in fields && fields["$ref"].String? && REF_PREFIX <= fields["$ref"].text
    then Some(fields["$ref"].text[|REF_PREFIX|..])
    else None
  }

  /** Every schema name referred to anywhere inside a value. */
  ghost function Refs(v: Json): set<string> {
    match v
    case Object(fields) =>
      (if RefTarget(fields).Some? then {RefTarget(fields).value} else {}) +
      (set k, r | k in fields && r in Refs(fields[k]) :: r)
    case Array(items) => set i, r | 0 <= i < |items| && r in Refs(items[i]) :: r
    case _ => {}
  }

  /** The references that lead to a schema of the specification. */
  ghost function Targets(spec: Spec, v: Json): set<string> {
    Refs(v) * spec.Keys
  }

  ghost predicate Edge(spec: Spec, a: string, b: string) {
    a in spec && b in Targets(spec, spec[a])
  }

  /** A walk along references, from one of the roots. */
  ghost predicate IsPath(spec: Spec, roots: set<string>, path: seq<string>) {
    && path != [] && path[0] in roots * spec.Keys
    && forall i :: 0 < i < |path| ==> Edge(spec, path[i - 1], path[i])
  }

  ghost predicate Reachable(spec: Spec, roots: set<string>, name: string) {
    exists path :: IsPath(spec, roots, path) && path[|path| - 1] == name
  }

  ghost predicate Closed(spec: Spec, names: set<string>, within: set<string>) {
    forall n :: n in names ==> n in spec && Targets(spec, spec[n]) <= within
  }

  /** What a call may do to the collected set: grow it by reachable schemas, closed off. */
  ghost predicate Extends(spec: Spec, roots: set<string>, before: set<string>, after: set<string>) {
    && before <= after <= spec.Keys
    && Closed(spec, after - before, after)
    && forall n :: n in after ==> Reachable(spec, roots, n)
  }

  lemma ExtendsTransitive(spec: Spec, roots: set<string>, a: set<string>, b: set<string>, c: set<string>)
    requires Extends(spec, roots, a, b) && Extends(spec, roots, b, c)
    ensures Extends(spec, roots, a, c)
  {}

  /** The value stands inside the schema of a reachable owner. */
  ghost predicate Inside(spec: Spec, roots: set<string>, owner: string, v: Json) {
    owner in spec && Reachable(spec, roots, owner) && Targets(spec, v) <= Targets(spec, spec[owner])
  }

  lemma ObjectTargets(spec: Spec, fields: map<string, Json>)
    ensures forall k :: k in fields ==> Targets(spec, fields[k]) <= Targets(spec, Object(fields))
    ensures RefTarget(fields).Some? && RefTarget(fields).value in spec ==>
              RefTarget(fields).value in Targets(spec, Object(fields))
  {}

  ghost predicate ItemsCovered(spec: Spec, items: seq<Json>, n: nat, within: set<string>)
    requires n <= |items|
  {
    forall k :: 0 <= k < n ==> Targets(spec, items[k]) <= within
  }

  lemma ItemsCoveredNext(spec: Spec, items: seq<Json>, n: nat, before: set<string>, after: set<string>)
    requires n < |items| && ItemsCovered(spec, items, n, before) && before <= after
    requires Targets(spec, items[n]) <= after
    ensures ItemsCovered(spec, items, n + 1, after)
  {}

  ghost predicate FieldsCovered(spec: Spec, fields: map<string, Json>, todo: set<string>, within: set<string>) {
    forall k :: k in fields && k !in todo ==> Targets(spec, fields[k]) <= within
  }

  lemma FieldsCoveredNext(spec: Spec, fields: map<string, Json>, todo: set<string>, k: string,
                          before: set<string>, after: set<string>)
    requires k in fields && FieldsCovered(spec, fields, todo, before) && before <= after
    requires Targets(spec, fields[k]) <= after
    ensures FieldsCovered(spec, fields, todo - {k}, after)
  {}

  lemma InsideItem(spec: Spec, roots: set<string>, owner: string, items: seq<Json>, i: nat)
    requires Inside(spec, roots, owner, Array(items)) && i < |items|
    ensures Inside(spec, roots, owner, items[i])
  {}

  lemma InsideField(spec: Spec, roots: set<string>, owner: string, fields: map<string, Json>, k: string)
    requires Inside(spec, roots, owner, Object(fields)) && k in fields
    ensures Inside(spec, roots, owner, fields[k])
  {}

  lemma ObjectCovered(spec: Spec, fields: map<string, Json>, within: set<string>)
    requires FieldsCovered(spec, fields, {}, within)
    requires RefTarget(fields).Some? && RefTarget(fields).value in spec ==> RefTarget(fields).value in within
    ensures Targets(spec, Object(fields)) <= within
  {}

  lemma ArrayCovered(spec: Spec, items: seq<Json>, within: set<string>)
    requires ItemsCovered(spec, items, |items|, within)
    ensures Targets(spec, Array(items)) <= within
  {}

  class Collector {
    const spec: Spec
    var collected: set<string>

    constructor (spec: Spec)
      ensures this.spec == spec && collected == {}
    {
      this.spec := spec;
      collected := {};
    }

    /** collectSchemaWithDependencies; the schema passed along is always the one of that name. */
    method Collect(name: string, ghost roots: set<string>)
      requires name in spec && Reachable(spec, roots, name) && Extends(spec, roots, collected, collected)
      modifies this
      ensures Extends(spec, roots, old(collected), collected) && name in collected
      decreases |spec.Keys - collected|, 0
    {
      if name in collected {
        return;
      }
      ghost var before := collected;
      collected := collected + {name};
      Smaller(spec.Keys, before, name);
      FindReferences(spec[name], name, roots);
      assert collected - before == (collected - (before + {name})) + {name};
    }

    /** findReferences. */
    method FindReferences(v: Json, ghost owner: string, ghost roots: set<string>)
      requires Extends(spec, roots, collected, collected) && Inside(spec, roots, owner, v)
      modifies this
      ensures Extends(spec, roots, old(collected), collected) && Targets(spec, v) <= collected
      decreases |spec.Keys - collected|, 2, v, 1
    {
      match v
      case Object(fields) =>
        ProcessRef(fields, owner, roots);
        NoLarger(spec.Keys, old(collected), collected);
        ghost var mid := collected;
        FindInFields(fields, owner, roots);
        ExtendsTransitive(spec, roots, old(collected), mid, collected);
        ObjectCovered(spec, fields, collected);
      case Array(items) =>
        FindInItems(items, owner, roots);
        ArrayCovered(spec, items, collected);
      case _ =>
    }

    method FindInFields(fields: map<string, Json>, ghost owner: string, ghost roots: set<string>)
      requires Extends(spec, roots, collected, collected) && Inside(spec, roots, owner, Object(fields))
      modifies this
      ensures Extends(spec, roots, old(collected), collected)
      ensures FieldsCovered(spec, fields, {}, collected)
      decreases |spec.Keys - collected|, 2, Object(fields), 0
    {
      var keys := fields.Keys;
      while keys != {}
        invariant keys <= fields.Keys
        invariant Extends(spec, roots, old(collected), collected)
        invariant FieldsCovered(spec, fields, keys, collected)
      {
        var k :| k in keys;
        NoLarger(spec.Keys, old(collected), collected);
        InsideField(spec, roots, owner, fields, k);
        ghost var mid := collected;
        FindReferences(fields[k], owner, roots);
        ExtendsTransitive(spec, roots, old(collected), mid, collected);
        FieldsCoveredNext(spec, fields, keys, k, mid, collected);
        keys := keys - {k};
      }
    }

    method FindInItems(items: seq<Json>, ghost owner: string, ghost roots: set<string>)
      requires Extends(spec, roots, collected, collected) && Inside(spec, roots, owner, Array(items))
      modifies this
      ensures Extends(spec, roots, old(collected), collected)
      ensures ItemsCovered(spec, items, |items|, collected)
      decreases |spec.Keys - collected|, 2, Array(items), 0
    {
      for i := 0 to |items|
        invariant Extends(spec, roots, old(collected), collected)
        invariant ItemsCovered(spec, items, i, collected)
      {
        NoLarger(spec.Keys, old(collected), collected);
        InsideItem(spec, roots, owner, items, i);
        ghost var mid := collected;
        FindReferences(items[i], owner, roots);
        ExtendsTransitive(spec, roots, old(collected), mid, collected);
        ItemsCoveredNext(spec, items, i, mid, collected);
      }
    }

    /** processRef. */
    method ProcessRef(fields: map<string, Json>, ghost owner: string, ghost roots: set<string>)
      requires Extends(spec, roots, collected, collected) && Inside(spec, roots, owner, Object(fields))
      modifies this
      ensures Extends(spec, roots, old(collected), collected)
      ensures RefTarget(fields).Some? && RefTarget(fields).value in spec ==> RefTarget(fields).value in collected
      decreases |spec.Keys - collected|, 1
    {
      var target := RefTarget(fields);
      if target.None? {
        return;
      }
      if target.value in collected {
        return;
      }
      if target.value in spec {
        ObjectTargets(spec, fields);
        ReachableStep(spec, roots, owner, target.value);
        Collect(target.value, roots);
      }
    }
  }

  lemma Smaller(all: set<string>, before: set<string>, name: string)
    requires name in all && name !in before
    ensures |all - (before + {name})| < |all - before|
  {
    assert all - before == (all - (before + {name})) + {name};
  }

  lemma NoLarger(all: set<string>, before: set<string>, after: set<string>)
    requires before <= after
    ensures |all - after| <= |all - before|
  {
    Ordering.SubsetSize(all - after, all - before);
  }

  lemma ReachableStep(spec: Spec, roots: set<string>, owner: string, target: string)
    requires owner in spec && Reachable(spec, roots, owner) && target in Targets(spec, spec[owner])
    ensures Reachable(spec, roots, target)
  {
    var path :| IsPath(spec, roots, path) && path[|path| - 1] == owner;
    var longer := path + [target];
    forall i | 0 < i < |longer| ensures Edge(spec, longer[i - 1], longer[i]) {
      if i < |path| { assert longer[i] == path[i] && longer[i - 1] == path[i - 1]; }
    }
    assert IsPath(spec, roots, longer);
  }

  lemma ReachableRoot(spec: Spec, roots: set<string>, name: string)
    requires name in roots && name in spec
    ensures Reachable(spec, roots, name)
  {
    assert IsPath(spec, roots, [name]);
  }

  /** A closed set that holds the roots holds everything on a path from them. */
  lemma {:induction false} ClosedHoldsPath(spec: Spec, roots: set<string>, names: set<string>, path: seq<string>)
    requires IsPath(spec, roots, path) && roots * spec.Keys <= names && Closed(spec, names, names)
    ensures path[|path| - 1] in names
    decreases |path|
  {
    var n := |path| - 1;
    if n > 0 {
      var front := path[..n];
      forall i | 0 < i < |front| ensures Edge(spec, front[i - 1], front[i]) {
        assert Edge(spec, path[i - 1], path[i]);
      }
      ClosedHoldsPath(spec, roots, names, front);
      assert Edge(spec, path[n - 1], path[n]);
    }
  }

  // ---------- the generator ----------

  /** A field of the subscription configuration and its Go type. */
  datatype FieldInfo = FieldInfo(jsonName: string, typePackage: string, typeName: string, isMap: bool)

  /** getOpenAPITypeName; empty for a package it does not know. */
  function OpenApiTypeName(f: FieldInfo): string {
    if f.typePackage == "corev1" || f.typePackage == "v1" then "io.k8s.api.core.v1." + f.typeName else ""
  }

  /** The schemas that the generated properties refer to. */
  ghost function Roots(spec: Spec, fields: seq<FieldInfo>): set<string> {
    set i | 0 <= i < |fields| && !fields[i].isMap && OpenApiTypeName(fields[i]) != "" &&
            OpenApiTypeName(fields[i]) in spec :: OpenApiTypeName(fields[i])
  }

  /** Every reference inside a component that the specification knows leads to a component. */
  ghost predicate SelfContained(spec: Spec, components: Spec) {
    forall n :: n in components ==> Targets(spec, components[n]) <= components.Keys
  }

  /** Collects from every field whose type the specification knows. */
  method CollectFields(spec: Spec, fields: seq<FieldInfo>) returns (collected: set<string>)
    ensures Roots(spec, fields) <= collected && Extends(spec, Roots(spec, fields), {}, collected)
  {
    ghost var roots := Roots(spec, fields);
    var c := new Collector(spec);
    for i := 0 to |fields|
      invariant c.spec == spec && Roots(spec, fields[..i]) <= c.collected
      invariant Extends(spec, roots, {}, c.collected)
    {
      RootsSnoc(spec, fields, i);
      var f := fields[i];
      if f.isMap {
        continue;
      }
      var name := OpenApiTypeName(f);
      if name == "" || name !in spec {
        continue;
      }
      ReachableRoot(spec, roots, name);
      ghost var before := c.collected;
      c.Collect(name, roots);
      ExtendsTransitive(spec, roots, {}, before, c.collected);
    }
    assert fields[..|fields|] == fields;
    collected := c.collected;
  }

  lemma CollectedExactly(spec: Spec, roots: set<string>, collected: set<string>, n: string)
    requires roots <= collected && Extends(spec, roots, {}, collected)
    ensures n in collected <==> Reachable(spec, roots, n)
  {
    assert collected - {} == collected;
    if Reachable(spec, roots, n) {
      var path :| IsPath(spec, roots, path) && path[|path| - 1] == n;
      ClosedHoldsPath(spec, roots, collected, path);
    }
  }

  /**
    The components of the generated schema: exactly the known schemas that can be reached by
    references from the fields' types, each as in the specification.
  */
  method GenerateComponents(spec: Spec, fields: seq<FieldInfo>) returns (components: Spec)
    ensures forall n :: n in components <==> Reachable(spec, Roots(spec, fields), n)
    ensures forall n :: n in components ==> n in spec && components[n] == spec[n]
    ensures SelfContained(spec, components)
  {
    var collected := CollectFields(spec, fields);
    components := map n | n in collected && n in spec :: spec[n];
    assert components.Keys == collected && collected - {} == collected;
    forall n ensures n in collected <==> Reachable(spec, Roots(spec, fields), n) {
      CollectedExactly(spec, Roots(spec, fields), collected, n);
    }
  }

  lemma RootsSnoc(spec: Spec, fields: seq<FieldInfo>, i: nat)
    requires i < |fields|
    ensures var name := OpenApiTypeName(fields[i]);
            var isRoot := !fields[i].isMap && name != "" && name in spec;
            && Roots(spec, fields[..i + 1]) == Roots(spec, fields[..i]) + (if isRoot then {name} else {})
            && (isRoot ==> name in Roots(spec, fields))
  {}
}
