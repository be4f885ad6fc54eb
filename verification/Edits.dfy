/**
  Concurrent spec edits: any number of clients run GetSpecSnapshot and Update against one stored
  object while others write it too (internal/k8s/application.go, internal/k8s/tenant.go). The
  API server is one cell whose version never repeats; a PUT lands only on a matching version.
 */
module Edits {
  import opened Text
  import opened SpecTree
  import opened FormSpec

  type Version = nat

  datatype Object = Object(version: Version, spec: Spec)

  // Application form edit, application YAML edit, tenant edit.
  datatype Policy = MergeApp | ReplaceApp | MergeTenant

  /** pinned is UpdateApplicationRequest.ResourceVersion; None stands for the empty string. */
  datatype Request = Request(spec: Spec, policy: Policy, pinned: Option<Version>)

  const RESERVED_TENANT_SPEC_KEYS: set<string> := {"ns", "parent", "name"}

  /** The spec Update writes, given the spec it fetched. */
  function NextSpec(existing: Spec, req: Request): Spec {
    match req.policy
    case MergeApp => PickNextSpec(existing, req.spec, false)
    case ReplaceApp => PickNextSpec(existing, req.spec, true)
    case MergeTenant => Merge(existing - RESERVED_TENANT_SPEC_KEYS, req.spec)
  }

  // informed: pinned is empty, or some snapshot returned it before Update was called.
  datatype Client =
    | Idle
    | Called(req: Request, informed: bool)
    | Fetched(req: Request, informed: bool, seen: Object)

  datatype Entry =
    | Edit(req: Request, informed: bool)
    | Foreign(spec: Option<Spec>)

  /** versions[v] is the spec once stored under version v. */
  datatype State = State(
    cell: Option<Object>,
    versions: seq<Spec>,
    snapshots: set<Object>,
    clients: map<string, Client>,
    history: seq<Entry>)

  datatype Action =
    | GetSpecSnapshot
    | CallUpdate(client: string, req: Request)
    | Fetch(client: string)
    | Put(client: string)
    | OtherWrite(spec: Spec)
    | OtherDelete

  function ClientOf(s: State, c: string): Client {
    if c in s.clients then s.clients[c] else Idle
  }

  function Store(s: State, spec: Spec, entry: Entry): State {
    s.(cell := Some(Object(|s.versions|, spec)), versions := s.versions + [spec], history := s.history + [entry])
  }

  predicate Informed(s: State, req: Request) {
    req.pinned.None? || exists o :: o in s.snapshots && o.version == req.pinned.value
  }

  /** The version the PUT carries: the pinned one, else the one just fetched. */
  function PutVersion(req: Request, seen: Object): Version {
    if req.pinned.Some? then req.pinned.value else seen.version
  }

  predicate PutSucceeds(s: State, c: string) {
    var cl := ClientOf(s, c);
    cl.Fetched? && s.cell.Some? && s.cell.value.version == PutVersion(cl.req, cl.seen)
  }

  /** One step of one party; an action that is not possible now changes nothing. */
  function Exec(s: State, a: Action): State {
    match a
    case GetSpecSnapshot =>
      if s.cell.Some? then s.(snapshots := s.snapshots + {s.cell.value}) else s
    case CallUpdate(c, req) =>
      if ClientOf(s, c).Idle? then s.(clients := s.clients[c := Called(req, Informed(s, req))]) else s
    case Fetch(c) =>
      (match ClientOf(s, c)
       case Called(req, informed) =>
         s.(clients := s.clients[c := if s.cell.Some? then Fetched(req, informed, s.cell.value) else Idle])
       case _ => s)
    case Put(c) =>
      (match ClientOf(s, c)
       case Fetched(req, informed, seen) =>
         var done := s.(clients := s.clients[c := Idle]);
         if PutSucceeds(s, c) then Store(done, NextSpec(seen.spec, req), Edit(req, informed)) else done
       case _ => s)
    case OtherWrite(spec) => Store(s, spec, Foreign(Some(spec)))
    case OtherDelete => s.(cell := None, history := s.history + [Foreign(None)])
  }

  function Run(s: State, actions: seq<Action>): State {
    if actions == [] then s else Exec(Run(s, actions[..|actions| - 1]), actions[|actions| - 1])
  }

  lemma RunSnoc(s: State, actions: seq<Action>, a: Action)
    ensures Run(s, actions + [a]) == Exec(Run(s, actions), a)
  {
    assert (actions + [a])[..|actions|] == actions;
  }

  function Initial(spec: Spec): State {
    State(Some(Object(0, spec)), [spec], {}, map[], [])
  }

  // ---- what every interleaving keeps ---------------------------------------------------

  predicate Known(s: State, o: Object) {
    o.version < |s.versions| && s.versions[o.version] == o.spec
  }

  ghost predicate ClientOk(s: State, cl: Client) {
    match cl
    case Idle => true
    case Called(req, informed) => informed && req.pinned.Some? ==> req.pinned.value < |s.versions|
    case Fetched(req, informed, seen) =>
      && Known(s, seen)
      && (informed && req.pinned.Some? ==> req.pinned.value <= seen.version)
  }

  ghost predicate Inv(s: State) {
    && (s.cell.Some? ==> Known(s, s.cell.value) && s.cell.value.version == |s.versions| - 1)
    && (forall o | o in s.snapshots :: Known(s, o))
    && (forall c | c in s.clients :: ClientOk(s, s.clients[c]))
  }

  lemma ExecKeepsInv(s: State, a: Action)
    requires Inv(s)
    ensures Inv(Exec(s, a))
  {
    var s' := Exec(s, a);
    assert forall o | Known(s, o) :: Known(s', o);
    forall c | c in s'.clients ensures ClientOk(s', s'.clients[c]) {
      if c in s.clients { assert ClientOk(s, s.clients[c]); }
    }
  }

  lemma {:induction false} RunKeepsInv(s: State, actions: seq<Action>)
    requires Inv(s)
    ensures Inv(Run(s, actions))
  {
    if actions != [] {
      RunKeepsInv(s, actions[..|actions| - 1]);
      ExecKeepsInv(Run(s, actions[..|actions| - 1]), actions[|actions| - 1]);
    }
  }

  /**
    At any moment of any run, a PUT either changes nothing stored, or it stores NextSpec of the
    fetched spec. The fetched object is the one being replaced exactly when the pinned version is
    empty or no newer than the fetched one; every informed request is of that kind.
   */
  lemma PutIsSerial(spec: Spec, actions: seq<Action>, c: string)
    ensures var s := Run(Initial(spec), actions);
            var s' := Exec(s, Put(c));
            var cl := ClientOf(s, c);
            if !PutSucceeds(s, c) then s'.cell == s.cell && s'.versions == s.versions && s'.history == s.history
            else
              && s'.cell.Some? && s'.cell.value.spec == NextSpec(cl.seen.spec, cl.req)
              && (cl.seen == s.cell.value <==> cl.req.pinned.None? || cl.req.pinned.value <= cl.seen.version)
              && (cl.informed ==> s'.cell.value.spec == NextSpec(s.cell.value.spec, cl.req))
  {
    RunKeepsInv(Initial(spec), actions);
    var s := Run(Initial(spec), actions);
    if c in s.clients { assert ClientOk(s, s.clients[c]); }
  }

  /** A successful pinned edit replaced exactly the spec its author was shown. */
  lemma PinnedEditSawCurrentSpec(spec: Spec, actions: seq<Action>, c: string, shown: Object)
    requires var s := Run(Initial(spec), actions);
             PutSucceeds(s, c) && shown in s.snapshots && ClientOf(s, c).req.pinned == Some(shown.version)
    ensures Run(Initial(spec), actions).cell == Some(shown)
  {
    RunKeepsInv(Initial(spec), actions);
    assert Known(Run(Initial(spec), actions), shown);
  }

  // ---- the history is a sequential fold ---------------------------------------------------

  function Replay(start: Option<Spec>, history: seq<Entry>): Option<Spec> {
    if history == [] then start
    else
      var before := Replay(start, history[..|history| - 1]);
      match history[|history| - 1]
      case Foreign(spec) => spec
      case Edit(req, _) => if before.Some? then Some(NextSpec(before.value, req)) else None
  }

  predicate AllInformed(history: seq<Entry>) {
    forall i | 0 <= i < |history| :: history[i].Edit? ==> history[i].informed
  }

  function StoredSpec(s: State): Option<Spec> {
    if s.cell.Some? then Some(s.cell.value.spec) else None
  }

  lemma ExecExtendsFold(start: Option<Spec>, s: State, a: Action)
    requires Inv(s) && AllInformed(Exec(s, a).history)
    requires AllInformed(s.history) ==> StoredSpec(s) == Replay(start, s.history)
    ensures StoredSpec(Exec(s, a)) == Replay(start, Exec(s, a).history)
  {
    var s' := Exec(s, a);
    if s'.history == s.history {
      assert StoredSpec(s') == StoredSpec(s);
    } else {
      assert s'.history[..|s'.history| - 1] == s.history;
      forall i | 0 <= i < |s.history| ensures s.history[i].Edit? ==> s.history[i].informed {
        assert s.history[i] == s'.history[i];
      }
      if a.Put? {
        assert ClientOk(s, s.clients[a.client]);
        assert s'.history[|s.history|] == Edit(s.clients[a.client].req, s.clients[a.client].informed);
      }
    }
  }

  /** In every interleaving the stored spec is the one-by-one fold of the successful writes, in commit order. */
  lemma {:induction false} EditsAreSerializable(spec: Spec, actions: seq<Action>)
    requires AllInformed(Run(Initial(spec), actions).history)
    ensures StoredSpec(Run(Initial(spec), actions)) == Replay(Some(spec), Run(Initial(spec), actions).history)
  {
    if actions != [] {
      var init, last := actions[..|actions| - 1], actions[|actions| - 1];
      var s := Run(Initial(spec), init);
      RunKeepsInv(Initial(spec), init);
      if AllInformed(s.history) { EditsAreSerializable(spec, init); }
      ExecExtendsFold(Some(spec), s, last);
    }
  }

  lemma RunFour(s: State, a1: Action, a2: Action, a3: Action, a4: Action)
    ensures Run(s, [a1, a2, a3, a4]) == Exec(Exec(Exec(Exec(s, a1), a2), a3), a4)
  {
    RunSnoc(s, [], a1);
    RunSnoc(s, [a1], a2);
    RunSnoc(s, [a1, a2], a3);
    RunSnoc(s, [a1, a2, a3], a4);
    assert [] + [a1] == [a1] && [a1] + [a2] == [a1, a2];
    assert [a1, a2] + [a3] == [a1, a2, a3] && [a1, a2, a3] + [a4] == [a1, a2, a3, a4];
  }

  lemma GuessedSteps(req: Request, x: Spec)
    requires req.policy == MergeApp && req.pinned == Some(1)
    ensures var s := Exec(Exec(Exec(Exec(Initial(map[]), CallUpdate("a", req)), Fetch("a")), OtherWrite(x)), Put("a"));
            && s.history == [Foreign(Some(x)), Edit(req, false)]
            && s.cell == Some(Object(2, Merge(map[], req.spec)))
  {
    var start := Initial(map[]);
    assert !Informed(start, req);
    var s1 := Exec(start, CallUpdate("a", req));
    assert s1 == start.(clients := map["a" := Called(req, false)]);
    var s2 := Exec(s1, Fetch("a"));
    assert s2.clients == map["a" := Fetched(req, false, Object(0, map[]))];
    var s3 := Exec(s2, OtherWrite(x));
    assert s3.cell == Some(Object(1, x)) && s3.history == [Foreign(Some(x))];
  }

  /** A pinned version that no snapshot had returned can land on a write the edit never saw, and lose it. */
  lemma GuessedVersionLosesUpdate()
    ensures var x: Spec := map["x" := Leaf(Int(1))];
            var req := Request(map["y" := Leaf(Int(2))], MergeApp, Some(1));
            var actions := [CallUpdate("a", req), Fetch("a"), OtherWrite(x), Put("a")];
            var s := Run(Initial(map[]), actions);
            && s.history == [Foreign(Some(x)), Edit(req, false)]
            && StoredSpec(s) == Some(map["y" := Leaf(Int(2))])
            && Replay(Some(map[]), s.history) != StoredSpec(s)
  {
    var x: Spec := map["x" := Leaf(Int(1))];
    var y: Spec := map["y" := Leaf(Int(2))];
    var req := Request(y, MergeApp, Some(1));
    RunFour(Initial(map[]), CallUpdate("a", req), Fetch("a"), OtherWrite(x), Put("a"));
    GuessedSteps(req, x);
    MergeEmpty(y);
    ReplayPair(Foreign(Some(x)), Edit(req, false));
    assert "x" in Merge(x, y);
  }

  lemma ReplayPair(first: Entry, second: Entry)
    ensures Replay(Some(map[]), [first, second]) == Replay(Replay(Some(map[]), [first]), [second])
  {
    assert [first, second][..1] == [first];
  }

  /**
    What one edit of a spec leaves at a position: what it submits; nothing where it submits something above or
    below, or, in a tenant's spec, under a reserved key; and everywhere else what was there. An edit as YAML
    leaves exactly what it submits.
   */
  ghost predicate EditedAt(before: Spec, req: Request, after: Spec, q: Path) {
    if req.policy == ReplaceApp then after == req.spec
    else
      At(after, q) ==
      if At(req.spec, q).Some? then At(req.spec, q)
      else if Touches(req.spec, q) then None
      else if req.policy == MergeTenant && q != [] && q[0] in {"ns", "parent", "name"} then None
      else At(before, q)
  }

  lemma NextSpecIsEdited(before: Spec, req: Request, q: Path)
    ensures EditedAt(before, req, NextSpec(before, req), q)
  {
    match req.policy
    case MergeApp => MergeAt(before, req.spec, q);
    case ReplaceApp =>
    case MergeTenant => MergeAt(before - RESERVED_TENANT_SPEC_KEYS, req.spec, q);
  }

  /** A PUT lands exactly on the version it carries: the pinned one, or the one its client fetched. */
  lemma PutLandsIff(s: State, c: string)
    ensures var s' := Exec(s, Put(c));
            s'.history != s.history <==>
            && c in s.clients && s.clients[c].Fetched? && s.cell.Some?
            && s.cell.value.version ==
               (match s.clients[c].req.pinned case Some(v) => v case None => s.clients[c].seen.version)
    ensures var s' := Exec(s, Put(c));
            s'.history != s.history ==> |s'.versions| == |s.versions| + 1 && s'.cell.Some?
  {
    var s' := Exec(s, Put(c));
    if PutSucceeds(s, c) { assert |s'.history| == |s.history| + 1; }
  }

  /** In every run, an informed PUT that lands edits the spec that is stored at that moment. */
  lemma PutEditsTheStoredSpec(spec: Spec, actions: seq<Action>, c: string, q: Path)
    requires var s := Run(Initial(spec), actions);
             Exec(s, Put(c)).history != s.history && s.clients[c].informed
    ensures var s := Run(Initial(spec), actions);
            var s' := Exec(s, Put(c));
            && s.cell.Some? && s'.cell.Some?
            && EditedAt(s.cell.value.spec, s.clients[c].req, s'.cell.value.spec, q)
  {
    var s := Run(Initial(spec), actions);
    PutLandsIff(s, c);
    PutIsSerial(spec, actions, c);
    NextSpecIsEdited(s.cell.value.spec, s.clients[c].req, q);
  }

  lemma {:induction false} EditLeavesAnObject(spec: Spec, actions: seq<Action>)
    requires var h := Run(Initial(spec), actions).history; h != [] && h[|h| - 1].Edit?
    ensures Run(Initial(spec), actions).cell.Some?
  {
    var init, last := actions[..|actions| - 1], actions[|actions| - 1];
    var s, s' := Run(Initial(spec), init), Run(Initial(spec), actions);
    assert s' == Exec(s, last);
    if s'.history == s.history { EditLeavesAnObject(spec, init); }
  }

  /** In every run whose edits were informed, the stored spec is the last edit of what the writes before it left. */
  lemma LastEditAt(spec: Spec, actions: seq<Action>, q: Path)
    requires var h := Run(Initial(spec), actions).history; h != [] && h[|h| - 1].Edit? && AllInformed(h)
    ensures var s := Run(Initial(spec), actions);
            var before := Replay(Some(spec), s.history[..|s.history| - 1]);
            && before.Some? && s.cell.Some?
            && EditedAt(before.value, s.history[|s.history| - 1].req, s.cell.value.spec, q)
  {
    var s := Run(Initial(spec), actions);
    EditsAreSerializable(spec, actions);
    EditLeavesAnObject(spec, actions);
    var before := Replay(Some(spec), s.history[..|s.history| - 1]);
    NextSpecIsEdited(before.value, s.history[|s.history| - 1].req, q);
  }

  /** A snapshot shows the object as it is, and pinning the version it showed makes a request informed. */
  lemma SnapshotInforms(s: State, c: string, req: Request)
    requires s.cell.Some? && ClientOf(s, c).Idle? && req.pinned == Some(s.cell.value.version)
    ensures var s' := Exec(Exec(s, GetSpecSnapshot), CallUpdate(c, req));
            s.cell.value in s'.snapshots && c in s'.clients && s'.clients[c] == Called(req, true)
  {
    assert s.cell.value in Exec(s, GetSpecSnapshot).snapshots;
  }

  /** An edit that nobody interferes with lands, if it pins nothing or what is stored. */
  lemma QuietEditLands(s: State, c: string, req: Request, q: Path)
    requires s.cell.Some? && ClientOf(s, c).Idle?
    requires req.pinned.None? || req.pinned == Some(s.cell.value.version)
    ensures var s' := Exec(Exec(Exec(s, CallUpdate(c, req)), Fetch(c)), Put(c));
            && s'.cell.Some? && EditedAt(s.cell.value.spec, req, s'.cell.value.spec, q)
            && s'.history == s.history + [Edit(req, Informed(s, req))]
  {
    var s1 := Exec(s, CallUpdate(c, req));
    var s2 := Exec(s1, Fetch(c));
    assert s1.clients[c] == Called(req, Informed(s, req)) && s2.clients[c].seen == s.cell.value;
    NextSpecIsEdited(s.cell.value.spec, req, q);
  }

  /** A reserved key is stored exactly if the request carried it, and then with the request's value. */
  ghost predicate Scrubbed(stored: Spec, req: Request) {
    forall k | k in RESERVED_TENANT_SPEC_KEYS ::
      (k in stored <==> k in req.spec) && (k in stored ==> stored[k] == req.spec[k])
  }

  predicate LastIsTenantEdit(s: State) {
    s.history != [] && s.history[|s.history| - 1].Edit? && s.history[|s.history| - 1].req.policy == MergeTenant
  }

  /**
    In every run: as long as a tenant edit is the last write, the stored spec has no reserved key but those
    its request carried, whatever earlier writes had left there.
   */
  lemma {:induction false} TenantEditScrubs(spec: Spec, actions: seq<Action>)
    requires LastIsTenantEdit(Run(Initial(spec), actions))
    ensures var s := Run(Initial(spec), actions);
            s.cell.Some? && Scrubbed(s.cell.value.spec, s.history[|s.history| - 1].req)
  {
    var init, last := actions[..|actions| - 1], actions[|actions| - 1];
    var s, s' := Run(Initial(spec), init), Run(Initial(spec), actions);
    assert s' == Exec(s, last);
    if s'.history == s.history {
      TenantEditScrubs(spec, init);
      assert s'.cell == s.cell;
    }
  }
}
