/**
  Specs as trees: Go's map[string]any with scalars and arrays as leaves
  (internal/k8s/merge.go, and setNestedSpec of internal/handler/crud.go).
 */
module SpecTree {
  import opened Text

  // Floats and arrays keep their source text: nothing here computes with them.
  datatype Scalar = Null | Bool(b: bool) | Int(n: int) | Float(text: string) | Str(s: string) | Array(json: string)

  datatype Val = Leaf(s: Scalar) | Map(m: map<string, Val>)

  type Spec = map<string, Val>

  type Path = seq<string>

  /** The scalar stored exactly at path p, if there is one. */
  function At(m: Spec, p: Path): Option<Scalar>
    decreases p
  {
    if p == [] || p[0] !in m then None
    else match m[p[0]]
      case Leaf(s) => if |p| == 1 then Some(s) else None
      case Map(sub) => At(sub, p[1..])
  }

  /** No nested map is empty; only the root may be. */
  ghost predicate NoEmpty(m: Spec)
    decreases Val.Map(m)
  {
    forall k | k in m && m[k].Map? :: m[k].m != map[] && NoEmpty(m[k].m)
  }

  ghost predicate Comparable(p: Path, q: Path) { p <= q || q <= p }

  lemma {:induction false} HasLeaf(m: Spec) returns (p: Path)
    requires NoEmpty(m) && m != map[]
    ensures At(m, p).Some?
    decreases Val.Map(m)
  {
    var k :| k in m;
    match m[k] {
      case Leaf(_) => p := [k];
      case Map(sub) =>
        var q := HasLeaf(sub);
        p := [k] + q;
        assert p[1..] == q;
    }
  }

  lemma AtCons(m: Spec, k: string, q: Path)
    ensures At(m, [k] + q) ==
            if k !in m then None
            else if m[k].Map? then At(m[k].m, q)
            else if q == [] then Some(m[k].s) else None
  {
    assert ([k] + q)[1..] == q;
  }

  /** A tree without empty maps is determined by its leaves. */
  lemma {:induction false} SameLeaves(a: Spec, b: Spec)
    requires NoEmpty(a) && NoEmpty(b)
    requires forall p :: At(a, p) == At(b, p)
    ensures a == b
    decreases Val.Map(a)
  {
    forall k ensures k in a <==> k in b
      ensures k in a && k in b ==> a[k] == b[k]
    {
      if k in a || k in b {
        SameBelow(a, b, k);
        if a[k].Map? && b[k].Map? {
          forall q ensures At(a[k].m, q) == At(b[k].m, q) { AtCons(a, k, q); AtCons(b, k, q); }
          SameLeaves(a[k].m, b[k].m);
        }
      }
    }
  }

  /** Equal leaves force equal shapes one level down. */
  lemma SameBelow(a: Spec, b: Spec, k: string)
    requires NoEmpty(a) && NoEmpty(b)
    requires forall p :: At(a, p) == At(b, p)
    requires k in a || k in b
    ensures k in a && k in b && a[k].Map? == b[k].Map?
    ensures a[k].Leaf? ==> a[k] == b[k]
  {
    if k in a { LeafBelow(a, b, k); } else { LeafBelow(b, a, k); }
    assert At(a, [k]) == At(b, [k]);
    AtCons(a, k, []);
    AtCons(b, k, []);
  }

  lemma LeafBelow(a: Spec, b: Spec, k: string)
    requires NoEmpty(a) && k in a
    requires forall p :: At(a, p) == At(b, p)
    ensures k in b
  {
    if a[k].Leaf? {
      assert At(a, [k]).Some?;
    } else {
      var q := HasLeaf(a[k].m);
      AtCons(a, k, q);
      assert At(b, [k] + q).Some?;
    }
  }

  // ---- setNestedSpec -------------------------------------------------------------

  /** Walking down to p meets a scalar before the last segment. */
  predicate Blocked(m: Spec, p: Path)
    decreases p
  {
    |p| > 1 && p[0] in m && (m[p[0]].Leaf? || Blocked(m[p[0]].m, p[1..]))
  }

  /** setNestedSpec as a function: a blocked write is dropped, any other write lands. */
  function SetNested(m: Spec, p: Path, v: Scalar): Spec
    requires p != []
    decreases p
  {
    if |p| == 1 then m[p[0] := Leaf(v)]
    else if p[0] !in m then m[p[0] := Val.Map(SetNested(map[], p[1..], v))]
    else match m[p[0]]
      case Leaf(_) => m
      case Map(sub) => m[p[0] := Val.Map(SetNested(sub, p[1..], v))]
  }

  lemma {:induction false} BlockedIff(m: Spec, p: Path)
    ensures Blocked(m, p) <==> exists i :: 0 < i < |p| && At(m, p[..i]).Some?
    decreases p
  {
    if |p| > 1 && p[0] in m {
      if m[p[0]].Leaf? {
        assert At(m, p[..1]).Some?;
      } else {
        var sub, rest := m[p[0]].m, p[1..];
        BlockedIff(sub, rest);
        forall i | 0 < i <= |p| ensures At(m, p[..i]) == At(sub, rest[..i - 1]) {
          assert p[..i] == [p[0]] + rest[..i - 1];
          AtCons(m, p[0], rest[..i - 1]);
        }
        if i :| 0 < i < |rest| && At(sub, rest[..i]).Some? {
          assert At(m, p[..i + 1]).Some?;
        }
        if i :| 0 < i < |p| && At(m, p[..i]).Some? {
          assert At(sub, rest[..i - 1]).Some?;
        }
      }
    }
  }

  /** Every leaf query after a write, answered from the tree before it. */
  lemma {:induction false} SetNestedAt(m: Spec, p: Path, v: Scalar, q: Path)
    requires p != []
    ensures At(SetNested(m, p, v), q) ==
            if Blocked(m, p) then At(m, q)
            else if q == p then Some(v)
            else if p <= q then None
            else At(m, q)
    decreases p
  {
    if |p| > 1 && q != [] && q[0] == p[0] {
      var p', q' := p[1..], q[1..];
      assert p == [p[0]] + p' && q == [p[0]] + q';
      assert p <= q <==> p' <= q';
      if p[0] !in m {
        SetNestedAt(map[], p', v, q');
        assert At(map[], q') == None;
      } else if m[p[0]].Map? {
        SetNestedAt(m[p[0]].m, p', v, q');
      }
    } else if q != [] && q[0] == p[0] {
      assert p == [p[0]];
    }
  }

  lemma {:induction false} SetNestedNoEmpty(m: Spec, p: Path, v: Scalar)
    requires p != [] && NoEmpty(m)
    ensures NoEmpty(SetNested(m, p, v)) && SetNested(m, p, v) != map[]
    decreases p
  {
    if |p| > 1 {
      if p[0] !in m {
        SetNestedNoEmpty(map[], p[1..], v);
      } else if m[p[0]].Map? {
        SetNestedNoEmpty(m[p[0]].m, p[1..], v);
      }
    }
    assert p[0] in SetNested(m, p, v);
  }

  // ---- deepMergeSpec ----------------------------------------------------------------

  /** deepMergeSpec as a function of two trees. */
  function Merge(base: Spec, incoming: Spec): Spec
    decreases Val.Map(incoming)
  {
    map k | k in base.Keys + incoming.Keys ::
      if k !in incoming then base[k]
      else if k in base && base[k].Map? && incoming[k].Map? then Val.Map(Merge(base[k].m, incoming[k].m))
      else incoming[k]
  }

  lemma MergeEmpty(m: Spec)
    ensures Merge(m, map[]) == m && Merge(map[], m) == m
  {
  }

  lemma {:induction false} MergeSelf(m: Spec)
    ensures Merge(m, m) == m
    decreases Val.Map(m)
  {
    forall k | k in m && m[k].Map? ensures Merge(m[k].m, m[k].m) == m[k].m {
      MergeSelf(m[k].m);
    }
  }

  /** Saving the same form twice changes nothing the second time. */
  lemma {:induction false} MergeIdempotent(a: Spec, b: Spec)
    ensures Merge(Merge(a, b), b) == Merge(a, b)
    decreases Val.Map(b)
  {
    forall k | k in b && b[k].Map?
      ensures Merge(b[k].m, b[k].m) == b[k].m
      ensures k in a && a[k].Map? ==> Merge(Merge(a[k].m, b[k].m), b[k].m) == Merge(a[k].m, b[k].m)
    {
      MergeSelf(b[k].m);
      if k in a && a[k].Map? { MergeIdempotent(a[k].m, b[k].m); }
    }
  }

  /** Every key of x, at every level that is a map on both sides, is also a key of z. */
  predicate Covered(x: Spec, z: Spec)
    decreases Val.Map(x)
  {
    forall k | k in x :: k in z && (x[k].Map? && z[k].Map? ==> Covered(x[k].m, z[k].m))
  }

  lemma {:induction false} CoveredIff(x: Spec, z: Spec)
    ensures Covered(x, z) <==> Merge(x, z) == z
    decreases Val.Map(x)
  {
    forall k | k in x && k in z && x[k].Map? && z[k].Map?
      ensures Covered(x[k].m, z[k].m) <==> Merge(x[k].m, z[k].m) == z[k].m
    {
      CoveredIff(x[k].m, z[k].m);
    }
    if Merge(x, z) == z {
      forall k | k in x ensures k in z && (x[k].Map? && z[k].Map? ==> Merge(x[k].m, z[k].m) == z[k].m) {
        assert k in Merge(x, z);
      }
    } else if Covered(x, z) {
      assert Merge(x, z).Keys == z.Keys;
    }
  }

  /**
    Wherever a has a map and c has a map, b has a map or nothing; or, if b put a scalar
    there, c's map already names everything a's map held.
   */
  predicate Composes(a: Spec, b: Spec, c: Spec)
    decreases Val.Map(c)
  {
    forall k | k in a && k in b && k in c && a[k].Map? && c[k].Map? ::
      if b[k].Map? then Composes(a[k].m, b[k].m, c[k].m) else Covered(a[k].m, c[k].m)
  }

  predicate ComposesAt(a: Spec, b: Spec, c: Spec, k: string) {
    k in a && k in b && k in c && a[k].Map? && c[k].Map? ==>
      if b[k].Map? then Composes(a[k].m, b[k].m, c[k].m) else Covered(a[k].m, c[k].m)
  }

  /** Two successive edits equal the one edit that merges them, exactly when Composes holds. */
  lemma {:induction false} MergeAssociative(a: Spec, b: Spec, c: Spec)
    ensures Merge(Merge(a, b), c) == Merge(a, Merge(b, c)) <==> Composes(a, b, c)
    decreases Val.Map(c), 1
  {
    var l, r := Merge(Merge(a, b), c), Merge(a, Merge(b, c));
    forall k | k in l ensures k in r && (l[k] == r[k] <==> ComposesAt(a, b, c, k)) {
      AssociativeAt(a, b, c, k);
    }
    assert l.Keys == r.Keys;
    if Composes(a, b, c) {
      forall k | k in l ensures l[k] == r[k] { assert ComposesAt(a, b, c, k); }
    }
    if l == r {
      forall k | k in a && k in b && k in c ensures ComposesAt(a, b, c, k) { assert k in l; }
    }
  }

  lemma {:induction false} AssociativeAt(a: Spec, b: Spec, c: Spec, k: string)
    requires k in a || k in b || k in c
    ensures Merge(Merge(a, b), c)[k] == Merge(a, Merge(b, c))[k] <==> ComposesAt(a, b, c, k)
    decreases Val.Map(c), 0
  {
    var ab, bc := Merge(a, b), Merge(b, c);
    if k in a && k in b && k in c && a[k].Map? && c[k].Map? {
      assert c[k] == Val.Map(c[k].m);
      if b[k].Map? {
        MergeAssociative(a[k].m, b[k].m, c[k].m);
        assert ab[k] == Val.Map(Merge(a[k].m, b[k].m));
        assert bc[k] == Val.Map(Merge(b[k].m, c[k].m));
      } else {
        CoveredIff(a[k].m, c[k].m);
        assert ab[k] == b[k] && bc[k] == c[k];
      }
    } else {
      assert k in ab <==> k in a || k in b;
      assert k in bc <==> k in b || k in c;
    }
  }

  /** Some leaf of m lies on the way to q, at q, or below q. */
  predicate Touches(m: Spec, q: Path)
    decreases q
  {
    q != [] && q[0] in m && (m[q[0]].Leaf? || |q| == 1 || Touches(m[q[0]].m, q[1..]))
  }

  lemma {:induction false} TouchesIff(m: Spec, q: Path)
    requires NoEmpty(m) && q != []
    ensures Touches(m, q) <==> exists p :: At(m, p).Some? && Comparable(p, q)
  {
    if p :| At(m, p).Some? && Comparable(p, q) {
      TouchedBy(m, q, p);
    }
    if Touches(m, q) {
      var p := TouchWitness(m, q);
    }
  }

  lemma {:induction false} TouchedBy(m: Spec, q: Path, p: Path)
    requires q != [] && At(m, p).Some? && Comparable(p, q)
    ensures Touches(m, q)
    decreases q
  {
    assert p[0] == q[0];
    if m[q[0]].Map? && |q| > 1 {
      assert Comparable(p[1..], q[1..]);
      TouchedBy(m[q[0]].m, q[1..], p[1..]);
    }
  }

  lemma {:induction false} TouchWitness(m: Spec, q: Path) returns (p: Path)
    requires NoEmpty(m) && Touches(m, q)
    ensures At(m, p).Some? && Comparable(p, q)
    decreases q
  {
    if m[q[0]].Leaf? {
      p := [q[0]];
    } else {
      var rest;
      if |q| == 1 { rest := HasLeaf(m[q[0]].m); } else { rest := TouchWitness(m[q[0]].m, q[1..]); }
      AtCons(m, q[0], rest);
      p := [q[0]] + rest;
      assert q == [q[0]] + q[1..];
    }
  }

  /** Every leaf query after a merge, answered from the two trees before it. */
  lemma {:induction false} MergeAt(a: Spec, b: Spec, q: Path)
    ensures At(Merge(a, b), q) ==
            if At(b, q).Some? then At(b, q) else if Touches(b, q) then None else At(a, q)
    decreases q
  {
    if q != [] && q[0] in b && q[0] in a && b[q[0]].Map? && a[q[0]].Map? {
      MergeAt(a[q[0]].m, b[q[0]].m, q[1..]);
    } else if q != [] && q[0] in b && b[q[0]].Map? {
      MergeEmpty(b[q[0]].m);
      MergeAt(map[], b[q[0]].m, q[1..]);
      assert At(map[], q[1..]) == None;
    }
  }

  // ---- a form edit as a sequence of forced writes ------------------------------------------

  function SubMap(m: Spec, k: string): Spec {
    if k in m && m[k].Map? then m[k].m else map[]
  }

  /** Write v at p, replacing every non-map on the way by a map. */
  function Force(m: Spec, p: Path, v: Scalar): Spec
    requires p != []
    decreases p
  {
    if |p| == 1 then m[p[0] := Leaf(v)]
    else m[p[0] := Val.Map(Force(SubMap(m, p[0]), p[1..], v))]
  }

  lemma MergeUpdate(a: Spec, b: Spec, k: string, w: Val)
    ensures Merge(a, b[k := w]) ==
            Merge(a, b)[k := if k in a && a[k].Map? && w.Map? then Val.Map(Merge(a[k].m, w.m)) else w]
  {
    assert Merge(a, b[k := w]).Keys == Merge(a, b).Keys + {k};
  }

  lemma MergeSubMap(a: Spec, b: Spec, k: string)
    requires k in b ==> b[k].Map?
    ensures SubMap(Merge(a, b), k) == Merge(SubMap(a, k), SubMap(b, k))
  {
    MergeEmpty(SubMap(a, k));
    MergeEmpty(SubMap(b, k));
  }

  /** An unblocked write to the incoming tree is a forced write to the merged tree. */
  lemma {:induction false} MergeOfSet(a: Spec, b: Spec, p: Path, v: Scalar)
    requires p != [] && !Blocked(b, p)
    ensures Merge(a, SetNested(b, p, v)) == Force(Merge(a, b), p, v)
    decreases p
  {
    var k, rest := p[0], p[1..];
    if |p| == 1 {
      MergeUpdate(a, b, k, Leaf(v));
    } else {
      var written := SetNested(SubMap(b, k), rest, v);
      assert SetNested(b, p, v) == b[k := Val.Map(written)];
      MergeUpdate(a, b, k, Val.Map(written));
      MergeSubMap(a, b, k);
      MergeOfSet(SubMap(a, k), SubMap(b, k), rest, v);
      MergeEmpty(written);
    }
  }
}
