/** What the generated schema contains, said in terms of the places where "$ref" stands. */
module SchemaTheorems {
  import opened Wrappers
  import opened SchemaCollector

  /** One step into a JSON value. */
  datatype Place = Field(key: string) | Item(index: nat)

  /** The value at a place inside another. */
  ghost function Inner(v: Json, path: seq<Place>): Option<Json>
    decreases |path|
  {
    if path == [] then Some(v)
    else if v.Object? && path[0].Field? && path[0].key in v.fields then Inner(v.fields[path[0].key], path[1..])
    else if v.Array? && path[0].Item? && path[0].index < |v.items| then Inner(v.items[path[0].index], path[1..])
    else None
  }

  /** At this place stands an object whose "$ref" is that of the schema of this name. */
  ghost predicate RefAt(v: Json, path: seq<Place>, name: string) {
    && Inner(v, path).Some? && Inner(v, path).value.Object?
    && var fields := Inner(v, path).value.fields;
       "$ref" in fields && fields["$ref"] == String("#/components/schemas/" + name)
  }

  ghost predicate RefersTo(v: Json, name: string) {
    exists path :: RefAt(v, path, name)
  }

  lemma TargetExactly(fields: map<string, Json>, name: string)
    ensures RefTarget(fields) == Some(name) <==>
            "$ref" in fields && fields["$ref"] == String("#/components/schemas/" + name)
  {
    if RefTarget(fields) == Some(name) {
      var text := fields["$ref"].text;
      assert text == text[..|REF_PREFIX|] + text[|REF_PREFIX|..];
    }
  }

  lemma Deeper(v: Json, step: Place, path: seq<Place>, name: string)
    requires || (v.Object? && step.Field? && step.key in v.fields && RefAt(v.fields[step.key], path, name))
             || (v.Array? && step.Item? && step.index < |v.items| && RefAt(v.items[step.index], path, name))
    ensures RefAt(v, [step] + path, name)
  {
    assert ([step] + path)[1..] == path;
  }

  lemma {:induction false} RefIsSomewhere(v: Json, name: string)
    requires name in Refs(v)
    ensures RefersTo(v, name)
  {
    match v
    case Object(fields) =>
      TargetExactly(fields, name);
      if RefTarget(fields) == Some(name) {
        assert RefAt(v, [], name);
      } else {
        var k :| k in fields && name in Refs(fields[k]);
        RefIsSomewhere(fields[k], name);
        var path :| RefAt(fields[k], path, name);
        Deeper(v, Field(k), path, name);
      }
    case Array(items) =>
      var i :| 0 <= i < |items| && name in Refs(items[i]);
      RefIsSomewhere(items[i], name);
      var path :| RefAt(items[i], path, name);
      Deeper(v, Item(i), path, name);
    case _ =>
  }

  lemma {:induction false} RefIsFound(v: Json, path: seq<Place>, name: string)
    requires RefAt(v, path, name)
    ensures name in Refs(v)
    decreases |path|
  {
    if path == [] {
      TargetExactly(v.fields, name);
    } else if v.Object? {
      RefIsFound(v.fields[path[0].key], path[1..], name);
    } else {
      RefIsFound(v.items[path[0].index], path[1..], name);
    }
  }

  /** A value refers to a schema exactly when, somewhere inside it, a "$ref" names it. */
  lemma RefersExactly(v: Json, name: string)
    ensures name in Refs(v) <==> RefersTo(v, name)
  {
    if name in Refs(v) { RefIsSomewhere(v, name); }
    if path :| RefAt(v, path, name) { RefIsFound(v, path, name); }
  }

  /** The schema is that of a field's type, as far as the generator knows the type's package. */
  ghost predicate IsFieldType(spec: Spec, fields: seq<FieldInfo>, name: string) {
    name in spec && exists f :: f in fields && !f.isMap && (f.typePackage == "corev1" || f.typePackage == "v1") &&
                                name == "io.k8s.api.core.v1." + f.typeName
  }

  lemma RootsExactly(spec: Spec, fields: seq<FieldInfo>, name: string)
    ensures name in Roots(spec, fields) <==> IsFieldType(spec, fields, name)
  {
    if name in Roots(spec, fields) {
      var i :| 0 <= i < |fields| && !fields[i].isMap && OpenApiTypeName(fields[i]) == name;
      assert fields[i] in fields;
    }
  }

  ghost predicate Leads(spec: Spec, a: string, b: string) {
    a in spec && b in spec && RefersTo(spec[a], b)
  }

  /** From a field's type, from schema to schema along refs. */
  ghost predicate Walk(spec: Spec, fields: seq<FieldInfo>, path: seq<string>) {
    && path != [] && IsFieldType(spec, fields, path[0])
    && forall i :: 0 < i < |path| ==> Leads(spec, path[i - 1], path[i])
  }

  lemma WalkExactly(spec: Spec, fields: seq<FieldInfo>, path: seq<string>)
    ensures IsPath(spec, Roots(spec, fields), path) <==> Walk(spec, fields, path)
  {
    if path != [] { RootsExactly(spec, fields, path[0]); }
    forall i | 0 < i < |path| ensures Edge(spec, path[i - 1], path[i]) <==> Leads(spec, path[i - 1], path[i]) {
      if path[i - 1] in spec { RefersExactly(spec[path[i - 1]], path[i]); }
    }
  }

  ghost predicate EndsIn(spec: Spec, fields: seq<FieldInfo>, name: string) {
    exists path :: Walk(spec, fields, path) && path[|path| - 1] == name
  }

  lemma ReachableExactly(spec: Spec, fields: seq<FieldInfo>, name: string)
    ensures Reachable(spec, Roots(spec, fields), name) <==> EndsIn(spec, fields, name)
  {
    if path :| IsPath(spec, Roots(spec, fields), path) && path[|path| - 1] == name {
      WalkExactly(spec, fields, path);
    }
    if path :| Walk(spec, fields, path) && path[|path| - 1] == name {
      WalkExactly(spec, fields, path);
    }
  }

  /**
    The components of the generated schema are exactly the schemas that a walk along refs from
    some field's type ends in, each as it is in the specification; so every ref inside a
    component that leads to a schema of the specification leads to a component.
  */
  lemma ComponentsExactly(spec: Spec, fields: seq<FieldInfo>, components: Spec)
    requires forall n :: n in components <==> Reachable(spec, Roots(spec, fields), n)
    requires forall n :: n in components ==> n in spec && components[n] == spec[n]
    requires SelfContained(spec, components)
    ensures forall n :: n in components <==> EndsIn(spec, fields, n)
    ensures forall n, m :: n in components && m in spec && RefersTo(components[n], m) ==> m in components
  {
    forall n ensures n in components <==> EndsIn(spec, fields, n) {
      ReachableExactly(spec, fields, n);
    }
    forall n, m | n in components && m in spec && RefersTo(components[n], m) ensures m in components {
      RefersExactly(components[n], m);
    }
  }
}
