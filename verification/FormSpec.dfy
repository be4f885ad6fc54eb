/**
  From a submitted form or YAML text to the next spec of an application
  (internal/handler/crud.go and pickNextSpec of internal/k8s/merge.go).
 */
module FormSpec {
  import opened Text
  import opened SpecTree

  // ---- one form field ------------------------------------------------------------

  predicate IsReservedFormField(key: string) {
    key == "name" || key == "kind" || key == "_resource_version" || key == "spec_yaml" || key == "_tabmode"
  }

  /** isFloat says which texts strconv.ParseFloat accepts. */
  function ConvertValue(raw: string, fieldType: string, isFloat: string -> bool): Scalar {
    if fieldType == "boolean" then Bool(raw == "true")
    else if fieldType == "integer" then
      match ParseInt(raw)
      case Some(n) => Int(n)
      case None => Str(raw)
    else if fieldType == "number" && isFloat(raw) then Float(raw)
    else Str(raw)
  }

  /** What each schema type makes of a submitted text. */
  lemma ConvertedValues(raw: string, fieldType: string, isFloat: string -> bool, n: nat)
    ensures ConvertValue("true", "boolean", isFloat) == Bool(true)
    ensures raw != "true" ==> ConvertValue(raw, "boolean", isFloat) == Bool(false)
    ensures n <= 9223372036854775807 ==> ConvertValue(FormatNat(n), "integer", isFloat) == Int(n)
    ensures n <= 9223372036854775808 ==> ConvertValue("-" + FormatNat(n), "integer", isFloat) == Int(0 - n)
    ensures var v := ConvertValue(raw, "integer", isFloat); v == Str(raw) || (v.Int? && ParseInt(raw) == Some(v.n))
    ensures ConvertValue(raw, "integer", isFloat) == Str(raw) ==> ParseInt(raw).None?
    ensures ConvertValue(raw, "number", isFloat) == if isFloat(raw) then Float(raw) else Str(raw)
    ensures fieldType !in {"boolean", "integer", "number"} ==> ConvertValue(raw, fieldType, isFloat) == Str(raw)
  {
    ParseFormat(n);
    ParseNegative(n);
  }

  /** A field counts unless it is one of the five of the form itself, or blank. */
  lemma KeptIff(form: Form, key: string)
    ensures form.Kept(key) <==>
            && key in form.fields && key !in {"name", "kind", "_resource_version", "spec_yaml", "_tabmode"}
            && form.fields[key] != [] && form.fields[key][0] != ""
  {
  }

  datatype Form = Form(fields: map<string, seq<string>>, types: map<string, string>, isFloat: string -> bool) {

    /** The field is neither reserved nor blank. */
    predicate Kept(key: string) {
      key in fields && !IsReservedFormField(key) && fields[key] != [] && fields[key][0] != ""
    }

    function Value(key: string): Scalar
      requires Kept(key)
    {
      ConvertValue(fields[key][0], if key in types then types[key] else "", isFloat)
    }

    /** One turn of the loop in extractSpecFromForm. */
    function PutField(spec: Spec, key: string): Spec {
      if Kept(key) then SetNested(spec, Split(key, '.'), Value(key)) else spec
    }
  }

  /** What the form asks for, as paths and scalars, among the given keys. */
  ghost function Wanted(form: Form, keys: set<string>): (d: map<Path, Scalar>)
    ensures [] !in d
    ensures forall key | key in keys && form.Kept(key) :: Split(key, '.') in d
    ensures forall p | p in d :: p != [] && Split(Join(p, '.'), '.') == p && Join(p, '.') in keys
                                 && form.Kept(Join(p, '.')) && d[p] == form.Value(Join(p, '.'))
  {
    assert forall key :: Join(Split(key, '.'), '.') == key by {
      forall key ensures Join(Split(key, '.'), '.') == key { JoinSplit(key, '.'); }
    }
    map p | p in (set key | key in keys && form.Kept(key) :: Split(key, '.')) :: form.Value(Join(p, '.'))
  }

  // ---- which tree a set of path writes denotes ---------------------------------------

  ghost predicate Minimal(p: Path, d: map<Path, Scalar>) {
    p in d && forall q | q in d && q <= p :: q == p
  }

  /** m's leaves are exactly the prefix-minimal paths of d with d's scalars, and m holds nothing else. */
  ghost predicate Realizes(m: Spec, d: map<Path, Scalar>) {
    NoEmpty(m) && forall p :: At(m, p) == if Minimal(p, d) then Some(d[p]) else None
  }

  lemma RealizesUnique(m: Spec, m': Spec, d: map<Path, Scalar>)
    requires Realizes(m, d) && Realizes(m', d)
    ensures m == m'
  {
    SameLeaves(m, m');
  }

  lemma {:induction false} MinimalBelow(q: Path, d: map<Path, Scalar>) returns (p: Path)
    requires q in d
    ensures Minimal(p, d) && p <= q
    decreases |q|
  {
    if r :| r in d && r <= q && r != q {
      p := MinimalBelow(r, d);
    } else {
      p := q;
    }
  }

  lemma BlockedByEarlier(m: Spec, d: map<Path, Scalar>, p: Path)
    requires Realizes(m, d) && [] !in d
    ensures Blocked(m, p) <==> exists q :: q in d && q < p
  {
    BlockedIff(m, p);
    if i :| 0 < i < |p| && At(m, p[..i]).Some? {
      assert p[..i] in d && p[..i] < p;
    }
    if q :| q in d && q < p {
      var r := MinimalBelow(q, d);
      assert r == p[..|r|] && At(m, p[..|r|]).Some?;
    }
  }

  lemma MinimalAfter(d: map<Path, Scalar>, p: Path, v: Scalar, q: Path)
    requires p !in d && q != p
    ensures Minimal(q, d[p := v]) <==> Minimal(q, d) && !(p <= q)
  {
    var d' := d[p := v];
    assert p in d';
    if Minimal(q, d) && !(p <= q) {
      forall r | r in d' && r <= q ensures r == q { assert r == p || r in d; }
    }
    if Minimal(q, d') {
      forall r | r in d && r <= q ensures r == q { assert r in d'; }
    }
  }

  /** Adding one more path keeps the tree exact, whether the write lands, is dropped, or overwrites. */
  lemma RealizesStep(m: Spec, d: map<Path, Scalar>, p: Path, v: Scalar)
    requires Realizes(m, d) && [] !in d && p != [] && p !in d
    ensures Realizes(SetNested(m, p, v), d[p := v])
  {
    var d', m' := d[p := v], SetNested(m, p, v);
    SetNestedNoEmpty(m, p, v);
    BlockedByEarlier(m, d, p);
    forall q ensures At(m', q) == if Minimal(q, d') then Some(d'[q]) else None {
      SetNestedAt(m, p, v, q);
      if Blocked(m, p) && p <= q {
        var r :| r in d && r < p;
        assert r in d' && r <= q && r != q;
      }
      if q == p {
        assert !Minimal(p, d) && (!Blocked(m, p) ==> Minimal(p, d'));
      } else {
        MinimalAfter(d, p, v, q);
      }
    }
  }

  // ---- extractSpecFromForm under every iteration order ----------------------------------

  function Extract(form: Form, order: seq<string>): Spec {
    if order == [] then map[]
    else form.PutField(Extract(form, order[..|order| - 1]), order[|order| - 1])
  }

  function WithField(form: Form, d: map<Path, Scalar>, key: string): map<Path, Scalar> {
    if form.Kept(key) then d[Split(key, '.') := form.Value(key)] else d
  }

  lemma WantedAt(form: Form, keys: set<string>, key: string, p: Path)
    ensures var d', e := Wanted(form, keys + {key}), WithField(form, Wanted(form, keys), key);
            (p in d' <==> p in e) && (p in d' && p in e ==> d'[p] == e[p])
  {
    JoinSplit(key, '.');
    if p in Wanted(form, keys + {key}) && Join(p, '.') != key { assert Join(p, '.') in keys; }
    if p in Wanted(form, keys) { assert Join(p, '.') in keys + {key}; }
  }

  lemma WantedFresh(form: Form, keys: set<string>, key: string)
    requires key !in keys
    ensures Split(key, '.') !in Wanted(form, keys)
  {
    JoinSplit(key, '.');
  }

  lemma WantedStep(form: Form, keys: set<string>, key: string)
    ensures Wanted(form, keys + {key}) == WithField(form, Wanted(form, keys), key)
  {
    var d', e := Wanted(form, keys + {key}), WithField(form, Wanted(form, keys), key);
    forall p ensures (p in d' <==> p in e) && (p in d' && p in e ==> d'[p] == e[p]) {
      WantedAt(form, keys, key, p);
    }
  }

  lemma PutFieldStep(form: Form, keys: set<string>, spec: Spec, key: string)
    requires Realizes(spec, Wanted(form, keys)) && key !in keys
    ensures Realizes(form.PutField(spec, key), Wanted(form, keys + {key}))
  {
    WantedStep(form, keys, key);
    WantedFresh(form, keys, key);
    if form.Kept(key) {
      RealizesStep(spec, Wanted(form, keys), Split(key, '.'), form.Value(key));
    }
  }

  ghost predicate Enumerates(order: seq<string>, keys: set<string>) {
    && (forall k :: k in order <==> k in keys)
    && (forall i, j | 0 <= i < j < |order| :: order[i] != order[j])
  }

  lemma {:induction false} ExtractRealizes(form: Form, order: seq<string>, keys: set<string>)
    requires Enumerates(order, keys)
    ensures Realizes(Extract(form, order), Wanted(form, keys))
    decreases |order|
  {
    if order == [] {
      assert keys == {};
      assert Wanted(form, keys) == map[];
    } else {
      var last, init := order[|order| - 1], order[..|order| - 1];
      assert order == init + [last];
      ExtractRealizes(form, init, keys - {last});
      assert keys == (keys - {last}) + {last};
      PutFieldStep(form, keys - {last}, Extract(form, init), last);
    }
  }

  /** Go may range over the form's map in any order: the extracted spec is always the same. */
  lemma ExtractionIgnoresOrder(form: Form, order: seq<string>, order': seq<string>)
    requires Enumerates(order, form.fields.Keys) && Enumerates(order', form.fields.Keys)
    ensures Extract(form, order) == Extract(form, order')
  {
    ExtractRealizes(form, order, form.fields.Keys);
    ExtractRealizes(form, order', form.fields.Keys);
    RealizesUnique(Extract(form, order), Extract(form, order'), Wanted(form, form.fields.Keys));
  }

  // ---- merging a form into the stored spec ---------------------------------------------------

  function PickNextSpec(existing: Spec, incoming: Spec, replace: bool): Spec {
    if replace then incoming else Merge(existing, incoming)
  }

  /**
    What one form edit does to any leaf position: a submitted minimal path holds its value, a
    position comparable with any submitted path holds no scalar, every other position is untouched.
   */
  lemma FormEditAt(existing: Spec, incoming: Spec, d: map<Path, Scalar>, q: Path)
    requires Realizes(incoming, d) && [] !in d && q != []
    ensures At(PickNextSpec(existing, incoming, false), q) ==
            if Minimal(q, d) then Some(d[q])
            else if exists p :: p in d && Comparable(p, q) then None
            else At(existing, q)
  {
    MergeAt(existing, incoming, q);
    TouchesIff(incoming, q);
    if p :| p in d && Comparable(p, q) {
      var r := MinimalBelow(p, d);
      assert r <= p;
      assert Comparable(r, q);
      assert At(incoming, r).Some?;
    }
    if p :| At(incoming, p).Some? && Comparable(p, q) {
      assert p in d;
    }
  }

  type Write = (Path, Scalar)

  function ForceAll(m: Spec, writes: seq<Write>): Spec
    requires forall w | w in writes :: w.0 != []
  {
    if writes == [] then m
    else
      var last := writes[|writes| - 1];
      Force(ForceAll(m, writes[..|writes| - 1]), last.0, last.1)
  }

  /** writes lists every prefix-minimal path of d once, in some order. */
  ghost predicate ListsMinimal(writes: seq<Write>, d: map<Path, Scalar>) {
    && (forall p, v :: (p, v) in writes <==> Minimal(p, d) && d[p] == v)
    && (forall i, j | 0 <= i < j < |writes| :: writes[i].0 != writes[j].0)
  }

  ghost function MinimalPart(d: map<Path, Scalar>): map<Path, Scalar> {
    map p | p in d && Minimal(p, d) :: d[p]
  }

  lemma RealizesMinimalPart(m: Spec, d: map<Path, Scalar>)
    requires Realizes(m, d)
    ensures Realizes(m, MinimalPart(d))
  {
    var d' := MinimalPart(d);
    forall p ensures Minimal(p, d) == Minimal(p, d') {
      if p in d {
        var r := MinimalBelow(p, d);
        assert r in d';
      }
    }
  }

  ghost function WritesMap(writes: seq<Write>): map<Path, Scalar> {
    if writes == [] then map[]
    else WritesMap(writes[..|writes| - 1])[writes[|writes| - 1].0 := writes[|writes| - 1].1]
  }

  lemma {:induction false} WritesMapIs(writes: seq<Write>)
    requires forall i, j | 0 <= i < j < |writes| :: writes[i].0 != writes[j].0
    ensures forall p :: p in WritesMap(writes) <==> exists i :: 0 <= i < |writes| && writes[i].0 == p
    ensures forall i | 0 <= i < |writes| :: WritesMap(writes)[writes[i].0] == writes[i].1
  {
    if writes != [] {
      WritesMapIs(writes[..|writes| - 1]);
      var last := writes[|writes| - 1];
      assert forall p :: p in WritesMap(writes) ==> exists i :: 0 <= i < |writes| && writes[i].0 == p by {
        forall p | p in WritesMap(writes) ensures exists i :: 0 <= i < |writes| && writes[i].0 == p {
          if p == last.0 { assert writes[|writes| - 1].0 == p; }
        }
      }
      assert forall i | 0 <= i < |writes| - 1 :: writes[..|writes| - 1][i] == writes[i];
    }
  }

  /** Along a list of pairwise incomparable writes nothing is ever blocked. */
  lemma {:induction false} ForcedPrefix(existing: Spec, e: map<Path, Scalar>, writes: seq<Write>) returns (m: Spec)
    requires [] !in e && forall p | p in e :: Minimal(p, e)
    requires forall w | w in writes :: w.0 in e && e[w.0] == w.1
    requires forall i, j | 0 <= i < j < |writes| :: writes[i].0 != writes[j].0
    ensures forall w | w in writes :: w.0 != []
    ensures Realizes(m, WritesMap(writes))
    ensures Merge(existing, m) == ForceAll(existing, writes)
    decreases |writes|
  {
    if writes == [] {
      m := map[];
      MergeEmpty(existing);
    } else {
      var init, last := writes[..|writes| - 1], writes[|writes| - 1];
      assert forall w | w in init :: w in writes;
      var m0 := ForcedPrefix(existing, e, init);
      WritesMapIs(init);
      var d0 := WritesMap(init);
      forall q | q in d0 ensures q in e && q != last.0 {
        var i :| 0 <= i < |init| && init[i].0 == q;
        assert init[i] in init && writes[i] == init[i];
      }
      assert last in writes;
      BlockedByEarlier(m0, d0, last.0);
      assert !Blocked(m0, last.0);
      RealizesStep(m0, d0, last.0, last.1);
      MergeOfSet(existing, m0, last.0, last.1);
      m := SetNested(m0, last.0, last.1);
    }
  }

  lemma WritesMapIsMinimalPart(writes: seq<Write>, d: map<Path, Scalar>)
    requires ListsMinimal(writes, d)
    ensures WritesMap(writes) == MinimalPart(d)
  {
    var e := MinimalPart(d);
    WritesMapIs(writes);
    forall p ensures p in WritesMap(writes) <==> p in e
      ensures p in e ==> p in WritesMap(writes) && WritesMap(writes)[p] == e[p]
    {
      if p in e {
        assert (p, e[p]) in writes;
        var i :| 0 <= i < |writes| && writes[i] == (p, e[p]);
        assert WritesMap(writes)[writes[i].0] == e[p];
      }
      if p in WritesMap(writes) {
        var i :| 0 <= i < |writes| && writes[i].0 == p;
        assert (p, writes[i].1) in writes;
      }
    }
  }

  /** Merging a form equals writing its minimal paths into the stored spec, one by one, in any order. */
  lemma FormEditIsForcedWrites(existing: Spec, incoming: Spec, d: map<Path, Scalar>, writes: seq<Write>)
    requires [] !in d && Realizes(incoming, d) && ListsMinimal(writes, d)
    ensures forall w | w in writes :: w.0 != []
    ensures PickNextSpec(existing, incoming, false) == ForceAll(existing, writes)
  {
    var e := MinimalPart(d);
    forall w | w in writes ensures w.0 in e && e[w.0] == w.1 { assert (w.0, w.1) in writes; }
    var m := ForcedPrefix(existing, e, writes);
    WritesMapIsMinimalPart(writes, d);
    RealizesMinimalPart(incoming, d);
    RealizesUnique(m, incoming, e);
  }

  // ---- choosing the source of the spec -----------------------------------------------------------

  datatype SpecError = EmptyYAML | InvalidYAML | SchemaUnavailable

  datatype BuildResult = Built(spec: Spec, replace: bool) | Rejected(error: SpecError)

  /** parsed is what the YAML library makes of raw. */
  function ParseYAMLSpecOrEmptyError(raw: string, parsed: Option<Spec>): BuildResult {
    if raw == "" then Rejected(EmptyYAML)
    else match parsed
      case None => Rejected(InvalidYAML)
      case Some(spec) => if spec == map[] then Rejected(EmptyYAML) else Built(spec, true)
  }

  /** schema is the result of the schema fetch; fromForm is what extractSpecFromForm returns under it. */
  function BuildSpecFromRequest(
    tabMode: string, yamlRaw: string, parsed: Option<Spec>,
    schema: Option<map<string, string>>, fromForm: map<string, string> -> Spec): BuildResult
  {
    if tabMode == "yaml" then ParseYAMLSpecOrEmptyError(yamlRaw, parsed)
    else if tabMode == "" && yamlRaw != "" then ParseYAMLSpecOrEmptyError(yamlRaw, parsed)
    else match schema
      case None => Rejected(SchemaUnavailable)
      case Some(types) => Built(fromForm(types), false)
  }

  /** Which requests are accepted and what spec they carry; an absent mode means YAML if there is any. */
  lemma RequestsBuild(
    tabMode: string, yamlRaw: string, parsed: Option<Spec>,
    schema: Option<map<string, string>>, fromForm: map<string, string> -> Spec)
    ensures var r := BuildSpecFromRequest(tabMode, yamlRaw, parsed, schema, fromForm);
            var yaml := tabMode == "yaml" || (tabMode == "" && yamlRaw != "");
            && (!yaml && schema.Some? ==> r == Built(fromForm(schema.value), false))
            && (!yaml && schema.None? ==> r == Rejected(SchemaUnavailable))
            && (yaml && yamlRaw != "" && parsed.Some? && parsed.value != map[] ==> r == Built(parsed.value, true))
            && (yaml && yamlRaw != "" && parsed.None? ==> r == Rejected(InvalidYAML))
            && (yaml && (yamlRaw == "" || parsed == Some(map[])) ==> r == Rejected(EmptyYAML))
  {
  }

  /** No accepted request empties a non-empty spec; only YAML replaces, and a form keeps every stored key. */
  lemma EditNeverEmpties(
    existing: Spec, tabMode: string, yamlRaw: string, parsed: Option<Spec>,
    schema: Option<map<string, string>>, fromForm: map<string, string> -> Spec)
    requires existing != map[]
    ensures match BuildSpecFromRequest(tabMode, yamlRaw, parsed, schema, fromForm)
            case Rejected(_) => true
            case Built(spec, replace) =>
              && PickNextSpec(existing, spec, replace) != map[]
              && (replace <==> tabMode == "yaml" || (tabMode == "" && yamlRaw != ""))
              && (!replace ==> existing.Keys <= PickNextSpec(existing, spec, replace).Keys)
              && (replace ==> parsed == Some(PickNextSpec(existing, spec, replace)))
  {
    var k :| k in existing;
    match BuildSpecFromRequest(tabMode, yamlRaw, parsed, schema, fromForm)
    case Rejected(_) =>
    case Built(spec, replace) => assert k in Merge(existing, spec);
  }
}
