/**
  setNestedSpec, extractSpecFromForm and deepMergeSpec as they run: Go maps are references,
  the code walks them with a moving pointer and writes them in place. Each method is proved
  against the tree functions of SpecTree (internal/handler/crud.go, internal/k8s/merge.go).
 */
module SpecHeap {
  import opened Text
  import opened SpecTree
  import opened FormSpec

  datatype Slot = Scal(s: Scalar) | Ref(o: SpecMap)

  /** A Go map[string]any. */
  class SpecMap {
    var m: map<string, Slot>

    constructor ()
      ensures m == map[]
    {
      m := map[];
    }
  }

  // ---- the shape of a linked structure of maps ---------------------------------------

  /** A scalar, or the map object o with its children; objs covers every map object from o down. */
  datatype Shape = Lf(s: Scalar) | Nd(o: SpecMap, kids: map<string, Shape>, objs: set<SpecMap>)

  ghost function Objs(t: Shape): set<SpecMap> {
    if t.Lf? then {} else t.objs
  }

  /** No map object occurs twice: the structure really is a tree. */
  ghost predicate IsTree(t: Shape) {
    t.Nd? ==>
      && t.o in t.objs
      && (forall k | k in t.kids :: IsTree(t.kids[k]))
      && (forall k | k in t.kids :: Objs(t.kids[k]) <= t.objs && t.o !in Objs(t.kids[k]))
      && (forall j, k | j in t.kids && k in t.kids && j != k :: Objs(t.kids[j]) !! Objs(t.kids[k]))
  }

  function SlotOf(t: Shape): Slot {
    match t
    case Lf(s) => Scal(s)
    case Nd(o, _, _) => Ref(o)
  }

  ghost function Slots(kids: map<string, Shape>): map<string, Slot> {
    map k | k in kids :: SlotOf(kids[k])
  }

  /** The heap holds the structure t describes. */
  ghost predicate Stored(t: Shape)
    requires IsTree(t)
    reads Objs(t)
    decreases t
  {
    t.Nd? ==> t.o.m == Slots(t.kids) && forall k | k in t.kids :: Stored(t.kids[k])
  }

  ghost function Value(t: Shape): Val {
    match t
    case Lf(s) => Leaf(s)
    case Nd(_, kids, _) => Val.Map(map k | k in kids :: Value(kids[k]))
  }

  /** The map object o is the root of the stored tree t. */
  ghost predicate Holds(o: SpecMap, t: Shape)
    reads Objs(t)
  {
    t.Nd? && t.o == o && IsTree(t) && Stored(t)
  }

  /** t with the child under k replaced by u. */
  ghost function WithKid(t: Shape, k: string, u: Shape): Shape
    requires t.Nd?
  {
    Nd(t.o, t.kids[k := u], t.objs + Objs(u))
  }

  lemma WithKidIsTree(t: Shape, k: string, u: Shape, extra: set<SpecMap>)
    requires t.Nd? && IsTree(t) && IsTree(u)
    requires Objs(u) <= (if k in t.kids then Objs(t.kids[k]) else {}) + extra
    requires t.objs !! extra
    ensures IsTree(WithKid(t, k, u))
  {
    var t' := WithKid(t, k, u);
    forall j | j in t.kids && j != k ensures Objs(t.kids[j]) !! Objs(u) {
      assert Objs(t.kids[j]) <= t.objs;
    }
  }

  /** Everything below t's root is stored, except perhaps the child under k. */
  ghost predicate StoredBut(t: Shape, k: string)
    requires t.Nd? && IsTree(t)
    reads Objs(t)
  {
    t.o.m == Slots(t.kids) && forall j | j in t.kids && j != k :: Stored(t.kids[j])
  }

  /** The Go statement o[key] = slot, where the slot holds the stored tree u. */
  method WriteEntry(o: SpecMap, key: string, slot: Slot, ghost t: Shape, ghost u: Shape)
    requires t.Nd? && t.o == o && IsTree(t) && StoredBut(t, key)
    requires IsTree(u) && Stored(u) && o !in Objs(u) && slot == SlotOf(u)
    requires IsTree(WithKid(t, key, u))
    modifies o
    ensures o.m == old(o.m)[key := slot]
    ensures Stored(WithKid(t, key, u))
  {
    o.m := o.m[key := slot];
    assert o.m == Slots(t.kids[key := u]);
    assert Stored(u);
    forall j | j in t.kids && j != key ensures Stored(t.kids[j]) {
      assert o !in Objs(t.kids[j]);
    }
  }

  // ---- deepMergeSpec --------------------------------------------------------------------

  ghost function MergedKid(tb: Shape, ti: Shape, k: string): Val
    requires tb.Nd? && ti.Nd? && k in ti.kids
  {
    if k in tb.kids && tb.kids[k].Nd? && ti.kids[k].Nd?
    then Val.Map(Merge(Value(tb.kids[k]).m, Value(ti.kids[k]).m))
    else Value(ti.kids[k])
  }

  /** The children of t once incoming's keys outside todo have been folded in. */
  ghost predicate MergedSoFar(tb: Shape, ti: Shape, t: Shape, todo: set<string>)
    requires tb.Nd? && ti.Nd? && t.Nd?
  {
    && t.kids.Keys == tb.kids.Keys + (ti.kids.Keys - todo)
    && (forall k | k in ti.kids && k !in todo :: k in t.kids && Value(t.kids[k]) == MergedKid(tb, ti, k))
    && (forall k | k in tb.kids && (k !in ti.kids || k in todo) :: k in t.kids && t.kids[k] == tb.kids[k])
  }

  lemma MergedStep(tb: Shape, ti: Shape, t: Shape, todo: set<string>, k: string, u: Shape)
    requires tb.Nd? && ti.Nd? && t.Nd? && MergedSoFar(tb, ti, t, todo)
    requires k in todo && k in ti.kids && Value(u) == MergedKid(tb, ti, k)
    ensures MergedSoFar(tb, ti, WithKid(t, k, u), todo - {k})
  {
  }

  lemma MergedDone(tb: Shape, ti: Shape, t: Shape)
    requires tb.Nd? && ti.Nd? && t.Nd? && MergedSoFar(tb, ti, t, {})
    ensures Value(t) == Val.Map(Merge(Value(tb).m, Value(ti).m))
  {
    var b, i := Value(tb).m, Value(ti).m;
    var l, r := Value(t).m, Merge(b, i);
    assert l.Keys == r.Keys;
    forall k | k in l ensures l[k] == r[k] {
      if k in ti.kids {
        assert i[k] == Value(ti.kids[k]);
        assert k in tb.kids ==> b[k] == Value(tb.kids[k]);
        assert l[k] == MergedKid(tb, ti, k);
      } else {
        assert l[k] == b[k];
      }
    }
  }

  /** The objects below key in t, none if there is no such child. */
  ghost function ObjsBelow(t: Shape, key: string): set<SpecMap>
    requires t.Nd?
  {
    if key in t.kids then Objs(t.kids[key]) else {}
  }

  /** One turn of deepMergeSpec's loop. */
  method MergeEntry(base: SpecMap, incoming: SpecMap, key: string, ghost tb: Shape, ghost ti: Shape, ghost t: Shape)
    returns (ghost u: Shape)
    requires tb.Nd? && IsTree(tb) && Holds(incoming, ti) && Objs(tb) !! Objs(ti)
    requires Holds(base, t) && key in ti.kids && Objs(t) !! Objs(ti.kids[key])
    requires key in t.kids <==> key in tb.kids
    requires key in t.kids ==> t.kids[key] == tb.kids[key]
    modifies base, ObjsBelow(t, key)
    ensures IsTree(u) && Objs(u) <= ObjsBelow(t, key) + Objs(ti.kids[key])
    ensures Value(u) == MergedKid(tb, ti, key)
    ensures Holds(base, WithKid(t, key, u))
    decreases ti, 0
  {
    var newVal := incoming.m[key];
    u := ti.kids[key];
    if key in base.m && base.m[key].Ref? && newVal.Ref? {
      assert forall j | j in t.kids && j != key :: Objs(t.kids[j]) !! ObjsBelow(t, key);
      var child;
      child, u := DeepMergeSpec(base.m[key].o, newVal.o, tb.kids[key], ti.kids[key]);
      assert StoredBut(t, key);
      newVal := Ref(child);
    }
    WithKidIsTree(t, key, u, Objs(ti.kids[key]));
    WriteEntry(base, key, newVal, t, u);
  }

  /** What the loop of deepMergeSpec keeps: the merge so far, on maps still apart from those to come. */
  ghost predicate Merging(tb: Shape, ti: Shape, t: Shape, todo: set<string>)
    requires tb.Nd? && ti.Nd? && t.Nd?
  {
    && todo <= ti.kids.Keys
    && MergedSoFar(tb, ti, t, todo)
    && t.objs <= tb.objs + ti.objs && tb.objs <= t.objs
    && forall k | k in todo :: t.objs !! Objs(ti.kids[k])
  }

  lemma MergingStep(tb: Shape, ti: Shape, t: Shape, todo: set<string>, k: string, u: Shape)
    requires tb.Nd? && ti.Nd? && t.Nd? && Merging(tb, ti, t, todo)
    requires IsTree(tb) && IsTree(ti) && tb.objs !! ti.objs
    requires k in todo && Value(u) == MergedKid(tb, ti, k)
    requires Objs(u) <= ObjsBelow(t, k) + Objs(ti.kids[k]) && ObjsBelow(t, k) <= t.objs
    ensures Merging(tb, ti, WithKid(t, k, u), todo - {k})
  {
    MergedStep(tb, ti, t, todo, k, u);
    var t' := WithKid(t, k, u);
    assert t'.objs <= t.objs + Objs(ti.kids[k]);
    forall j | j in todo - {k} ensures t'.objs !! Objs(ti.kids[j]) {
      assert Objs(ti.kids[j]) !! Objs(ti.kids[k]);
    }
  }

  /**
    deepMergeSpec on two maps that share nothing: base ends up holding the merge, incoming's
    maps are never written, and the loop may visit incoming's keys in any order.
   */
  method DeepMergeSpec(base: SpecMap, incoming: SpecMap, ghost tb: Shape, ghost ti: Shape)
    returns (merged: SpecMap, ghost t: Shape)
    requires Holds(base, tb) && Holds(incoming, ti) && Objs(tb) !! Objs(ti)
    modifies Objs(tb)
    ensures merged == base && Holds(base, t) && Objs(t) <= Objs(tb) + Objs(ti)
    ensures Holds(incoming, ti)
    ensures Value(t) == Val.Map(Merge(Value(tb).m, Value(ti).m))
    decreases ti, 1
  {
    merged, t := base, tb;
    var todo := incoming.m.Keys;
    while todo != {}
      invariant Holds(base, t) && Holds(incoming, ti)
      invariant Merging(tb, ti, t, todo)
      decreases todo
    {
      var key :| key in todo;
      assert key in t.kids <==> key in tb.kids;
      ghost var u := MergeEntry(base, incoming, key, tb, ti, t);
      MergingStep(tb, ti, t, todo, key, u);
      t := WithKid(t, key, u);
      todo := todo - {key};
    }
    MergedDone(tb, ti, t);
  }

  /** deepMergeSpec as called: a nil base becomes a fresh map first. */
  method DeepMergeSpecOrNil(base: SpecMap?, incoming: SpecMap, ghost tb: Shape, ghost ti: Shape)
    returns (merged: SpecMap, ghost t: Shape)
    requires base != null ==> Holds(base, tb) && Objs(tb) !! Objs(ti)
    requires Holds(incoming, ti)
    modifies if base == null then {} else Objs(tb)
    ensures Holds(merged, t) && Holds(incoming, ti)
    ensures if base == null then Value(t) == Value(ti)
            else merged == base && Value(t) == Val.Map(Merge(Value(tb).m, Value(ti).m))
  {
    if base == null {
      var empty := new SpecMap();
      ghost var te := Nd(empty, map[], {empty});
      merged, t := DeepMergeSpec(empty, incoming, te, ti);
      MergeEmpty(Value(ti).m);
    } else {
      merged, t := DeepMergeSpec(base, incoming, tb, ti);
    }
  }

  // ---- following a dot-path ------------------------------------------------------------

  ghost predicate HasPath(t: Shape, path: Path)
    decreases path
  {
    t.Nd? && (path == [] || (path[0] in t.kids && HasPath(t.kids[path[0]], path[1..])))
  }

  ghost function Sub(t: Shape, path: Path): (u: Shape)
    requires IsTree(t) && HasPath(t, path)
    ensures u.Nd? && IsTree(u) && Objs(u) <= Objs(t)
    decreases path
  {
    if path == [] then t else Sub(t.kids[path[0]], path[1..])
  }

  /** t with u in place of the map at path. */
  ghost function Put(t: Shape, path: Path, u: Shape): (t': Shape)
    requires HasPath(t, path)
    ensures path != [] ==> t'.Nd? && t'.o == t.o
    decreases path
  {
    if path == [] then u else WithKid(t, path[0], Put(t.kids[path[0]], path[1..], u))
  }

  lemma {:induction false} PutIsTree(t: Shape, path: Path, u: Shape, extra: set<SpecMap>)
    requires IsTree(t) && HasPath(t, path) && IsTree(u)
    requires Objs(u) <= Objs(Sub(t, path)) + extra && Objs(t) !! extra
    ensures IsTree(Put(t, path, u)) && Objs(Put(t, path, u)) <= Objs(t) + extra
    decreases path
  {
    if path != [] {
      var kid := t.kids[path[0]];
      assert Objs(kid) <= Objs(t);
      PutIsTree(kid, path[1..], u, extra);
      WithKidIsTree(t, path[0], Put(kid, path[1..], u), extra);
    }
  }

  /** The heap holds t, leaving aside the map at path and everything below it. */
  ghost predicate StoredAround(t: Shape, path: Path)
    requires IsTree(t) && HasPath(t, path)
    reads Objs(t) - Objs(Sub(t, path))
    decreases path
  {
    path != [] ==>
      && t.o.m == Slots(t.kids)
      && (forall j | j in t.kids && j != path[0] :: Stored(t.kids[j]))
      && StoredAround(t.kids[path[0]], path[1..])
  }

  lemma {:induction false} StoredSplit(t: Shape, path: Path)
    requires IsTree(t) && HasPath(t, path) && Stored(t)
    ensures StoredAround(t, path) && Stored(Sub(t, path))
    decreases path
  {
    if path != [] { StoredSplit(t.kids[path[0]], path[1..]); }
  }

  lemma {:induction false} StoredJoin(t: Shape, path: Path, u: Shape)
    requires IsTree(t) && HasPath(t, path) && IsTree(u) && IsTree(Put(t, path, u))
    requires StoredAround(t, path) && Stored(u) && u.Nd? && u.o == Sub(t, path).o
    ensures Stored(Put(t, path, u))
    decreases path
  {
    if path != [] {
      var kid := t.kids[path[0]];
      var put := Put(kid, path[1..], u);
      assert Put(t, path, u).kids[path[0]] == put;
      StoredJoin(kid, path[1..], u);
      assert Slots(t.kids[path[0] := put]) == Slots(t.kids);
    }
  }

  lemma {:induction false} SubStep(t: Shape, path: Path, k: string)
    requires IsTree(t) && HasPath(t, path)
    requires k in Sub(t, path).kids && Sub(t, path).kids[k].Nd?
    ensures HasPath(t, path + [k]) && Sub(t, path + [k]) == Sub(t, path).kids[k]
    decreases path
  {
    if path != [] {
      assert (path + [k])[1..] == path[1..] + [k];
      SubStep(t.kids[path[0]], path[1..], k);
    }
  }

  lemma {:induction false} SubOfPut(t: Shape, path: Path, u: Shape)
    requires IsTree(t) && HasPath(t, path) && IsTree(u) && u.Nd? && IsTree(Put(t, path, u))
    ensures HasPath(Put(t, path, u), path) && Sub(Put(t, path, u), path) == u
    decreases path
  {
    if path != [] {
      assert Put(t, path, u).kids[path[0]] == Put(t.kids[path[0]], path[1..], u);
      SubOfPut(t.kids[path[0]], path[1..], u);
    }
  }

  // ---- what the path writes mean on values ----------------------------------------------

  lemma ValueWithKid(t: Shape, k: string, u: Shape)
    requires t.Nd?
    ensures Value(WithKid(t, k, u)) == Val.Map(Value(t).m[k := Value(u)])
  {
  }

  /** A nested write below an existing map is the write inside that map. */
  lemma {:induction false} SetNestedBelow(t: Shape, path: Path, rest: Path, v: Scalar, u: Shape)
    requires IsTree(t) && HasPath(t, path) && rest != [] && u.Nd?
    requires Value(u).m == SetNested(Value(Sub(t, path)).m, rest, v)
    ensures path + rest != [] && Value(Put(t, path, u)) == Val.Map(SetNested(Value(t).m, path + rest, v))
    decreases path
  {
    if path == [] {
      assert path + rest == rest;
    } else {
      assert (path + rest)[1..] == path[1..] + rest;
      SetNestedBelow(t.kids[path[0]], path[1..], rest, v, u);
      ValueWithKid(t, path[0], Put(t.kids[path[0]], path[1..], u));
    }
  }

  lemma SetNestedFreshHere(t: Shape, k: string, o: SpecMap, rest: Path, v: Scalar)
    requires t.Nd? && k !in t.kids && rest != []
    ensures var u := WithKid(t, k, Nd(o, map[], {o}));
            u.Nd? && SetNested(Value(u).m, [k] + rest, v) == SetNested(Value(t).m, [k] + rest, v)
  {
    assert ([k] + rest)[1..] == rest;
    ValueWithKid(t, k, Nd(o, map[], {o}));
  }

  /** Putting an empty map where the walk is about to create one does not change the outcome. */
  lemma {:induction false} SetNestedFresh(t: Shape, path: Path, k: string, o: SpecMap, rest: Path, v: Scalar)
    requires IsTree(t) && HasPath(t, path) && k !in Sub(t, path).kids && rest != []
    ensures var u := WithKid(Sub(t, path), k, Nd(o, map[], {o}));
            Put(t, path, u).Nd? && path + [k] + rest != [] &&
            SetNested(Value(Put(t, path, u)).m, path + [k] + rest, v) == SetNested(Value(t).m, path + [k] + rest, v)
    decreases path
  {
    var leaf := Nd(o, map[], {o});
    var u := WithKid(Sub(t, path), k, leaf);
    var full := path + [k] + rest;
    if path == [] {
      assert full == [k] + rest;
      SetNestedFreshHere(t, k, o, rest, v);
    } else {
      var kid := t.kids[path[0]];
      assert full[1..] == path[1..] + [k] + rest;
      SetNestedFresh(kid, path[1..], k, o, rest, v);
      ValueWithKid(t, path[0], Put(kid, path[1..], u));
    }
  }

  lemma {:induction false} SetNestedDropped(t: Shape, path: Path, k: string, rest: Path, v: Scalar)
    requires IsTree(t) && HasPath(t, path) && k in Sub(t, path).kids && Sub(t, path).kids[k].Lf? && rest != []
    ensures path + [k] + rest != [] && SetNested(Value(t).m, path + [k] + rest, v) == Value(t).m
    decreases path
  {
    var full := path + [k] + rest;
    if path != [] {
      assert full[1..] == path[1..] + [k] + rest;
      SetNestedDropped(t.kids[path[0]], path[1..], k, rest, v);
    }
  }

  // ---- setNestedSpec ------------------------------------------------------------------------

  /** cur[key] = slot for the map cur reached from spec along path. */
  method WriteAt(
    spec: SpecMap, cur: SpecMap, key: string, slot: Slot,
    ghost t: Shape, ghost path: Path, ghost u: Shape, ghost extra: set<SpecMap>)
    requires Holds(spec, t) && HasPath(t, path) && cur == Sub(t, path).o
    requires IsTree(u) && Stored(u) && slot == SlotOf(u) && Objs(u) <= extra && Objs(t) !! extra
    modifies cur
    ensures Holds(spec, Put(t, path, WithKid(Sub(t, path), key, u)))
    ensures Objs(Put(t, path, WithKid(Sub(t, path), key, u))) <= Objs(t) + extra
  {
    ghost var at := Sub(t, path);
    WithKidIsTree(at, key, u, extra);
    PutIsTree(t, path, WithKid(at, key, u), extra);
    StoredSplit(t, path);
    WriteEntry(cur, key, slot, at, u);
    StoredJoin(t, path, WithKid(at, key, u));
  }

  /** cur[part] = map[string]any{}, and step into the fresh map. */
  method CreateChild(spec: SpecMap, cur: SpecMap, part: string, ghost t0: Shape, ghost path: Path)
    returns (child: SpecMap, ghost t: Shape)
    requires Holds(spec, t0) && HasPath(t0, path) && cur == Sub(t0, path).o && part !in cur.m
    requires part !in Sub(t0, path).kids
    modifies cur
    ensures fresh(child) && Holds(spec, t) && Objs(t) <= Objs(t0) + {child}
    ensures HasPath(t, path + [part]) && Sub(t, path + [part]).o == child
    ensures t == Put(t0, path, WithKid(Sub(t0, path), part, Nd(child, map[], {child})))
  {
    child := new SpecMap();
    ghost var leaf := Nd(child, map[], {child});
    WriteAt(spec, cur, part, Ref(child), t0, path, leaf, {child});
    ghost var at := WithKid(Sub(t0, path), part, leaf);
    WithKidIsTree(Sub(t0, path), part, leaf, {child});
    SubOfPut(t0, path, at);
    t := Put(t0, path, at);
    SubStep(t, path, part);
  }

  lemma SplitLast(parts: Path)
    requires parts != []
    ensures parts == parts[..|parts| - 1] + [parts[|parts| - 1]]
  {
  }

  lemma SplitAt(parts: Path, idx: nat)
    requires idx < |parts|
    ensures parts == parts[..idx] + [parts[idx]] + parts[idx + 1..]
    ensures parts[..idx + 1] == parts[..idx] + [parts[idx]]
  {
  }

  /** The write lands in place exactly as SetNested says; a dropped write leaves no map behind. */
  method SetNestedSpec(spec: SpecMap, key: string, value: Scalar, ghost t0: Shape) returns (ghost t: Shape)
    requires Holds(spec, t0)
    modifies Objs(t0)
    ensures Holds(spec, t) && fresh(Objs(t) - Objs(t0))
    ensures Value(t) == Val.Map(SetNested(Value(t0).m, Split(key, '.'), value))
  {
    var parts := Split(key, '.');
    var cur := spec;
    t := t0;
    for idx := 0 to |parts| - 1
      invariant Holds(spec, t) && fresh(Objs(t) - Objs(t0))
      invariant HasPath(t, parts[..idx]) && cur == Sub(t, parts[..idx]).o
      invariant SetNested(Value(t).m, parts, value) == SetNested(Value(t0).m, parts, value)
    {
      ghost var path, rest := parts[..idx], parts[idx + 1..];
      var part := parts[idx];
      SplitAt(parts, idx);
      StoredSplit(t, path);
      if part !in cur.m {
        ghost var t1 := t;
        cur, t := CreateChild(spec, cur, part, t, path);
        SetNestedFresh(t1, path, part, cur, rest, value);
      } else if cur.m[part].Scal? {
        SetNestedDropped(t, path, part, rest, value);
        return;
      } else {
        SubStep(t, path, part);
        cur := cur.m[part].o;
      }
    }
    var last := parts[|parts| - 1];
    ghost var path := parts[..|parts| - 1];
    SplitLast(parts);
    WriteAt(spec, cur, last, Scal(value), t, path, Lf(value), {});
    ghost var at := WithKid(Sub(t, path), last, Lf(value));
    ValueWithKid(Sub(t, path), last, Lf(value));
    SetNestedBelow(t, path, [last], value, at);
    t := Put(t, path, at);
  }

  // ---- extractSpecFromForm ---------------------------------------------------------------------

  /**
    Ranging over the form in whatever order the runtime picks, the result is the one tree whose
    leaves are the prefix-minimal submitted paths with their converted values.
   */
  method ExtractSpecFromForm(form: Form) returns (spec: SpecMap, ghost t: Shape)
    ensures Holds(spec, t) && fresh(Objs(t))
    ensures Realizes(Value(t).m, Wanted(form, form.fields.Keys))
  {
    spec := new SpecMap();
    t := Nd(spec, map[], {spec});
    var todo := form.fields.Keys;
    assert Wanted(form, {}) == map[];
    while todo != {}
      invariant todo <= form.fields.Keys
      invariant Holds(spec, t) && fresh(Objs(t))
      invariant Realizes(Value(t).m, Wanted(form, form.fields.Keys - todo))
      decreases todo
    {
      var key :| key in todo;
      ghost var done := form.fields.Keys - todo;
      PutFieldStep(form, done, Value(t).m, key);
      assert done + {key} == form.fields.Keys - (todo - {key});
      todo := todo - {key};
      if IsReservedFormField(key) {
        continue;
      }
      var values := form.fields[key];
      if |values| == 0 || values[0] == "" {
        continue;
      }
      t := SetNestedSpec(spec, key, form.Value(key), t);
    }
    assert form.fields.Keys - todo == form.fields.Keys;
  }
}
