/** Which form fields a JSON schema gives rise to (walkFieldTypes, internal/handler/crud.go). */
module Schema {
  import opened Text
  import opened SpecTree
  import opened FormSpec

  const MAX_FIELD_TYPE_DEPTH := 2

  /** obj["properties"].(map[string]any), empty when absent or not a map. */
  function Properties(obj: Spec): Spec {
    if "properties" in obj && obj["properties"].Map? then obj["properties"].m else map[]
  }

  /** prop["type"].(string), "" when absent or not a string. */
  function TypeName(prop: Spec): string {
    if "type" in prop && prop["type"].Leaf? && prop["type"].s.Str? then prop["type"].s.s else ""
  }

  /** Going from path prefix to the next key, as the code builds fullKey. */
  function ChildKey(prefix: string, key: string): string {
    if prefix != "" then prefix + "." + key else key
  }

  function FullKey(prefix: string, p: Path): string
    requires p != []
    decreases p
  {
    if |p| == 1 then ChildKey(prefix, p[0]) else FullKey(ChildKey(prefix, p[0]), p[1..])
  }

  /** The type of the schema field at path p below obj, if p is a field the walk reaches. */
  function FieldAt(obj: Spec, depth: nat, p: Path): Option<string>
    decreases p
  {
    if p == [] || p[0] !in Properties(obj) || Properties(obj)[p[0]].Leaf? then None
    else
      var prop := Properties(obj)[p[0]].m;
      if TypeName(prop) == "object" then
        if depth >= MAX_FIELD_TYPE_DEPTH - 1 then None else FieldAt(prop, depth + 1, p[1..])
      else if TypeName(prop) == "array" || |p| != 1 then None
      else Some(TypeName(prop))
  }

  /** The out map that walkFieldTypes fills in. */
  class FieldTypes {
    var types: map<string, string>

    constructor ()
      ensures types == map[]
    {
      types := map[];
    }
  }

  /** Every entry is an old one or a schema field's, and every schema field has its key. */
  ghost predicate Collected(
    before: map<string, string>, after: map<string, string>, obj: Spec, prefix: string, depth: nat, keys: set<string>)
  {
    && before.Keys <= after.Keys
    && (forall p | p != [] && p[0] in keys && FieldAt(obj, depth, p).Some? :: FullKey(prefix, p) in after)
    && (forall k | k in after ::
          || (k in before && after[k] == before[k])
          || (exists p ::
                p != [] && p[0] in keys && FullKey(prefix, p) == k && FieldAt(obj, depth, p) == Some(after[k])))
  }

  lemma CollectedSkip(
    before: map<string, string>, after: map<string, string>,
    obj: Spec, prefix: string, depth: nat, keys: set<string>, key: string)
    requires Collected(before, after, obj, prefix, depth, keys)
    requires forall p | p != [] && p[0] == key :: FieldAt(obj, depth, p) == None
    ensures Collected(before, after, obj, prefix, depth, keys + {key})
  {
    forall k | k in after && !(k in before && after[k] == before[k])
      ensures exists p ::
                p != [] && p[0] in keys + {key} && FullKey(prefix, p) == k && FieldAt(obj, depth, p) == Some(after[k])
    {
      var p :| p != [] && p[0] in keys && FullKey(prefix, p) == k && FieldAt(obj, depth, p) == Some(after[k]);
      assert p[0] in keys + {key};
    }
  }

  lemma CollectedScalar(
    before: map<string, string>, after: map<string, string>,
    obj: Spec, prefix: string, depth: nat, keys: set<string>, key: string, t: string)
    requires Collected(before, after, obj, prefix, depth, keys)
    requires FieldAt(obj, depth, [key]) == Some(t)
    requires forall p | p != [] && p[0] == key && |p| != 1 :: FieldAt(obj, depth, p) == None
    ensures Collected(before, after[ChildKey(prefix, key) := t], obj, prefix, depth, keys + {key})
  {
    var after' := after[ChildKey(prefix, key) := t];
    assert FullKey(prefix, [key]) == ChildKey(prefix, key);
    forall p | p != [] && p[0] in keys + {key} && FieldAt(obj, depth, p).Some? ensures FullKey(prefix, p) in after' {
      if p[0] == key { assert p == [key]; }
    }
    forall k | k in after' && !(k in before && after'[k] == before[k])
      ensures exists p ::
                p != [] && p[0] in keys + {key} && FullKey(prefix, p) == k && FieldAt(obj, depth, p) == Some(after'[k])
    {
      if k == ChildKey(prefix, key) {
        assert [key][0] in keys + {key};
      } else {
        var p :| p != [] && p[0] in keys && FullKey(prefix, p) == k && FieldAt(obj, depth, p) == Some(after[k]);
        assert p[0] in keys + {key};
      }
    }
  }

  lemma ObjectFieldsIn(
    mid: map<string, string>, after: map<string, string>,
    obj: Spec, prefix: string, depth: nat, key: string, prop: Spec, p: Path)
    requires key in Properties(obj) && Properties(obj)[key] == Val.Map(prop) && TypeName(prop) == "object"
    requires depth < MAX_FIELD_TYPE_DEPTH - 1
    requires Collected(mid, after, prop, ChildKey(prefix, key), depth + 1, Properties(prop).Keys)
    requires p != [] && p[0] == key && FieldAt(obj, depth, p).Some?
    ensures FullKey(prefix, p) in after
  {
    assert FieldAt(prop, depth + 1, p[1..]).Some?;
    assert p[1..][0] in Properties(prop).Keys;
  }

  lemma ObjectField(obj: Spec, prefix: string, depth: nat, key: string, prop: Spec, q: Path)
    requires key in Properties(obj) && Properties(obj)[key] == Val.Map(prop) && TypeName(prop) == "object"
    requires depth < MAX_FIELD_TYPE_DEPTH - 1 && q != []
    ensures FieldAt(obj, depth, [key] + q) == FieldAt(prop, depth + 1, q)
    ensures FullKey(prefix, [key] + q) == FullKey(ChildKey(prefix, key), q)
  {
    assert ([key] + q)[1..] == q;
  }

  lemma CollectedObject(
    before: map<string, string>, mid: map<string, string>, after: map<string, string>,
    obj: Spec, prefix: string, depth: nat, keys: set<string>, key: string, prop: Spec)
    requires Collected(before, mid, obj, prefix, depth, keys)
    requires key in Properties(obj) && Properties(obj)[key] == Val.Map(prop) && TypeName(prop) == "object"
    requires depth < MAX_FIELD_TYPE_DEPTH - 1
    requires Collected(mid, after, prop, ChildKey(prefix, key), depth + 1, Properties(prop).Keys)
    ensures Collected(before, after, obj, prefix, depth, keys + {key})
  {
    forall p | p != [] && p[0] in keys + {key} && FieldAt(obj, depth, p).Some? ensures FullKey(prefix, p) in after {
      if p[0] == key { ObjectFieldsIn(mid, after, obj, prefix, depth, key, prop, p); }
    }
    forall k | k in after && !(k in before && after[k] == before[k])
      ensures exists p ::
                p != [] && p[0] in keys + {key} && FullKey(prefix, p) == k && FieldAt(obj, depth, p) == Some(after[k])
    {
      if k in mid && after[k] == mid[k] {
        var p :| p != [] && p[0] in keys && FullKey(prefix, p) == k && FieldAt(obj, depth, p) == Some(mid[k]);
        assert p[0] in keys + {key};
      } else {
        var q :| q != [] && q[0] in Properties(prop).Keys && FullKey(ChildKey(prefix, key), q) == k
                 && FieldAt(prop, depth + 1, q) == Some(after[k]);
        ObjectField(obj, prefix, depth, key, prop, q);
        assert ([key] + q)[0] in keys + {key};
      }
    }
  }

  /** The walk in place, over any iteration order of the properties maps. */
  method WalkFieldTypes(obj: Spec, prefix: string, depth: nat, out: FieldTypes)
    modifies out
    ensures Collected(old(out.types), out.types, obj, prefix, depth, Properties(obj).Keys)
    decreases Val.Map(obj)
  {
    if "properties" !in obj || obj["properties"].Leaf? {
      return;
    }
    var rawProps := obj["properties"].m;
    var todo := rawProps.Keys;
    while todo != {}
      invariant todo <= rawProps.Keys
      invariant Collected(old(out.types), out.types, obj, prefix, depth, rawProps.Keys - todo)
      decreases todo
    {
      var key :| key in todo;
      ghost var done, types := rawProps.Keys - todo, out.types;
      assert done + {key} == rawProps.Keys - (todo - {key});
      todo := todo - {key};
      if rawProps[key].Leaf? {
        CollectedSkip(old(out.types), types, obj, prefix, depth, done, key);
        continue;
      }
      var prop := rawProps[key].m;
      assert obj["properties"] == Val.Map(rawProps) && rawProps[key] == Val.Map(prop);
      var fullKey := ChildKey(prefix, key);
      var fieldType := TypeName(prop);
      if fieldType == "object" {
        if depth >= MAX_FIELD_TYPE_DEPTH - 1 {
          CollectedSkip(old(out.types), types, obj, prefix, depth, done, key);
          continue;
        }
        WalkFieldTypes(prop, fullKey, depth + 1, out);
        CollectedObject(old(out.types), types, out.types, obj, prefix, depth, done, key, prop);
        continue;
      }
      if fieldType == "array" {
        CollectedSkip(old(out.types), types, obj, prefix, depth, done, key);
        continue;
      }
      out.types := out.types[fullKey := fieldType];
      CollectedScalar(old(out.types), types, obj, prefix, depth, done, key, fieldType);
    }
    assert rawProps.Keys - todo == Properties(obj).Keys;
  }

  // ---- fields never collide ---------------------------------------------------------------

  /** Fields have at most two segments, and no field's path extends another's. */
  lemma FieldsPrefixFree(obj: Spec, p: Path, q: Path)
    requires FieldAt(obj, 0, p).Some? && FieldAt(obj, 0, q).Some?
    ensures 1 <= |p| <= 2
    ensures Comparable(p, q) ==> p == q
  {
    if |p| > 1 { assert p == [p[0], p[1]] && p[1..] == [p[1]]; }
    if |q| > 1 { assert q == [q[0], q[1]] && q[1..] == [q[1]]; }
  }

  predicate CleanPath(p: Path) {
    (forall i | 0 <= i < |p| :: '.' !in p[i]) && (|p| == 2 ==> p[0] != "")
  }

  /** A field's form key leads back to the field exactly for dot-free names under a named parent. */
  lemma KeyRoundTrip(p: Path)
    requires 1 <= |p| <= MAX_FIELD_TYPE_DEPTH
    ensures Split(FullKey("", p), '.') == p <==> CleanPath(p)
  {
    if |p| == 1 {
      assert p == [p[0]];
      if CleanPath(p) { SplitSegment(p[0], '.'); }
    } else {
      assert p == [p[0], p[1]] && p[1..] == [p[1]];
      if p[0] == "" {
        assert FullKey("", p) == p[1];
        JoinSplit(p[1], '.');
        assert |Join(p, '.')| == 1 + |p[1]|;
      } else {
        assert Join(p[1..], '.') == p[1];
        assert FullKey("", p) == Join(p, '.');
        if CleanPath(p) { SplitJoin(p, '.'); }
      }
    }
  }

  ghost predicate CleanSchema(obj: Spec) {
    forall p | FieldAt(obj, 0, p).Some? :: CleanPath(p)
  }

  /** For a clean schema the collected types do not depend on the order of the walk. */
  lemma TypesDetermined(obj: Spec, types: map<string, string>)
    requires CleanSchema(obj) && Collected(map[], types, obj, "", 0, Properties(obj).Keys)
    ensures forall key :: (if key in types then Some(types[key]) else None) == FieldAt(obj, 0, Split(key, '.'))
  {
    forall key ensures (if key in types then Some(types[key]) else None) == FieldAt(obj, 0, Split(key, '.')) {
      var path := Split(key, '.');
      if FieldAt(obj, 0, path).Some? {
        FieldsPrefixFree(obj, path, path);
        KeyOfSplit(key);
        assert path[0] in Properties(obj).Keys && FullKey("", path) == key;
      }
      if key in types {
        var p :| p != [] && FullKey("", p) == key && FieldAt(obj, 0, p) == Some(types[key]);
        FieldsPrefixFree(obj, p, p);
        KeyRoundTrip(p);
      }
    }
  }

  lemma KeyOfSplit(key: string)
    requires 1 <= |Split(key, '.')| <= 2 && CleanPath(Split(key, '.'))
    ensures FullKey("", Split(key, '.')) == key
  {
    var p := Split(key, '.');
    JoinSplit(key, '.');
    if |p| == 2 { assert p[1..] == [p[1]]; }
  }

  /**
    A form that only submits fields of a clean schema loses none of them: its spec has one leaf per
    kept field, holding the converted value, and no other leaf.
   */
  lemma EveryFieldLands(obj: Spec, form: Form, spec: Spec)
    requires CleanSchema(obj) && Realizes(spec, Wanted(form, form.fields.Keys))
    requires forall key | form.Kept(key) :: FieldAt(obj, 0, Split(key, '.')).Some?
    ensures forall key :: At(spec, Split(key, '.')) == if form.Kept(key) then Some(form.Value(key)) else None
    ensures forall p | At(spec, p).Some? :: form.Kept(Join(p, '.'))
  {
    var d := Wanted(form, form.fields.Keys);
    forall p, q | p in d && q in d && q <= p ensures q == p {
      FieldsPrefixFree(obj, p, q);
    }
    forall key ensures At(spec, Split(key, '.')) == if form.Kept(key) then Some(form.Value(key)) else None {
      JoinSplit(key, '.');
      if form.Kept(key) {
        assert Minimal(Split(key, '.'), d);
      }
    }
  }

  /** The same, for the types the walk collects: each leaf is coerced as its schema field asks. */
  lemma FieldsLandCoerced(obj: Spec, form: Form, spec: Spec, key: string)
    requires CleanSchema(obj) && Collected(map[], form.types, obj, "", 0, Properties(obj).Keys)
    requires Realizes(spec, Wanted(form, form.fields.Keys))
    requires forall k | form.Kept(k) :: FieldAt(obj, 0, Split(k, '.')).Some?
    ensures At(spec, Split(key, '.')) ==
            if form.Kept(key)
            then Some(ConvertValue(form.fields[key][0], FieldAt(obj, 0, Split(key, '.')).value, form.isFloat))
            else None
  {
    TypesDetermined(obj, form.types);
    EveryFieldLands(obj, form, spec);
  }

  // ---- exactly when fields collide -----------------------------------------------------------

  ghost predicate DotFree(obj: Spec) {
    forall p, i | FieldAt(obj, 0, p).Some? && 0 <= i < |p| :: '.' !in p[i]
  }

  /** Where a field's form key is written. */
  function Landing(p: Path): Path
    requires p != []
  {
    Split(FullKey("", p), '.')
  }

  /** Two different fields of which one's write can drop, overwrite or blend with the other's. */
  ghost predicate Collide(obj: Spec, p: Path, q: Path) {
    && FieldAt(obj, 0, p).Some? && FieldAt(obj, 0, q).Some? && p != q
    && Comparable(Landing(p), Landing(q))
  }

  /** The field x below the property named "", and another field that starts with x under a name. */
  ghost predicate Shadows(obj: Spec, x: string, q: Path) {
    && FieldAt(obj, 0, ["", x]).Some? && FieldAt(obj, 0, q).Some?
    && CleanPath(q) && q[0] == x
  }

  lemma LandingOf(obj: Spec, p: Path)
    requires DotFree(obj) && FieldAt(obj, 0, p).Some?
    ensures 1 <= |p| <= 2 && Landing(p) == if CleanPath(p) then p else [p[1]]
    ensures !CleanPath(p) ==> p == ["", p[1]]
  {
    FieldsPrefixFree(obj, p, p);
    KeyRoundTrip(p);
    if !CleanPath(p) {
      assert p == ["", p[1]] && p[1..] == [p[1]];
      SplitSegment(p[1], '.');
    }
  }

  lemma CollisionShadows(obj: Spec, p: Path, q: Path) returns (x: string, r: Path)
    requires DotFree(obj) && Collide(obj, p, q)
    ensures Shadows(obj, x, r)
  {
    LandingOf(obj, p);
    LandingOf(obj, q);
    FieldsPrefixFree(obj, p, q);
    if CleanPath(p) {
      x, r := q[1], p;
    } else {
      x, r := p[1], q;
    }
  }

  lemma ShadowCollides(obj: Spec, x: string, q: Path)
    requires DotFree(obj) && Shadows(obj, x, q)
    ensures Collide(obj, ["", x], q)
  {
    LandingOf(obj, ["", x]);
    LandingOf(obj, q);
    assert [x] <= q;
  }

  /**
    Fields of a dot-free schema get in each other's way exactly when a property named "" has a
    scalar x and some named field is x, or lies below x.
   */
  lemma UnnamedParentCollides(obj: Spec)
    requires DotFree(obj)
    ensures (exists p, q :: Collide(obj, p, q)) <==> (exists x, q :: Shadows(obj, x, q))
  {
    if p, q :| Collide(obj, p, q) {
      var x, r := CollisionShadows(obj, p, q);
    }
    if x, q :| Shadows(obj, x, q) {
      ShadowCollides(obj, x, q);
    }
  }

  /** There is such a schema. */
  lemma ShadowingSchema() returns (obj: Spec)
    ensures DotFree(obj) && Shadows(obj, "a", ["a"])
  {
    var text: Spec := map["type" := Leaf(Str("string"))];
    var number: Spec := map["type" := Leaf(Str("integer"))];
    var inner: Spec := map["type" := Leaf(Str("object")), "properties" := Val.Map(map["a" := Val.Map(text)])];
    obj := map["properties" := Val.Map(map["" := Val.Map(inner), "a" := Val.Map(number)])];
    assert ["", "a"][1..] == ["a"];
    forall p, i | FieldAt(obj, 0, p).Some? && 0 <= i < |p| ensures '.' !in p[i] {
      FieldsPrefixFree(obj, p, p);
      if p[0] == "" { assert p[1..][0] == p[1]; }
    }
  }

  // ---- which declarations are fields --------------------------------------------------------------

  /** The property of this name is declared with this type. */
  predicate Declares(obj: Spec, key: string, prop: Spec, fieldType: string) {
    && "properties" in obj && obj["properties"].Map? && key in obj["properties"].m
    && obj["properties"].m[key] == Val.Map(prop)
    && "type" in prop && prop["type"] == Leaf(Str(fieldType))
  }

  /**
    A top-level property that is no object or array is a field of its type; so is one of an object property;
    arrays and what lies deeper are not.
   */
  lemma DeclaredFields(obj: Spec, key: string, prop: Spec, t: string, key2: string, prop2: Spec, t2: string)
    requires Declares(obj, key, prop, t)
    ensures FieldAt(obj, 0, [key]) == if t == "object" || t == "array" then None else Some(t)
    ensures Declares(prop, key2, prop2, t2) ==>
              FieldAt(obj, 0, [key, key2]) ==
              if t == "object" && t2 != "object" && t2 != "array" then Some(t2) else None
  {
    assert [key, key2][1..] == [key2] && [key][1..] == [] && [key2][1..] == [];
  }
}
