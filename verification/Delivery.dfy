/**
  Publishing to and subscribing at the watcher, step by step (internal/k8s/watcher.go). handleEvent
  stores the event under the mutex, releases it, and only then offers the event to one subscriber after
  another, so subscribers may come and go in the middle of a publication. Subscriptions that have ended
  stay in the state, as a record of what they were given.
 */
module Delivery {
  import opened Text
  import opened Ring

  const EVENT_CHANNEL_BUFFER := 100

  datatype Published = Published(tenant: string, evt: WatchEvent)

  // joined: the length of the tenant's log when Subscribe ran; the live events offered since are
  // those of the tenant's log from position from up to position to.
  datatype Sub = Sub(
    tenant: string, since: int, joined: nat, missed: seq<WatchEvent>,
    received: seq<WatchEvent>, queue: seq<WatchEvent>, drops: nat, live: bool,
    from: nat, to: nat)

  // obliged: the subscribers present when the publication began. deserted: they have all left since, so
  // the map being ranged over is no longer the tenant's, and newcomers go into another one.
  datatype Publication = Publication(
    tenant: string, evt: WatchEvent, obliged: set<nat>, visited: set<nat>, deserted: bool)

  datatype State = State(log: seq<Published>, subs: map<nat, Sub>, current: Option<Publication>)

  const INITIAL := State([], map[], None)

  datatype Action =
    | Publish(tenant: string, kind: EventType, app: App)
    | Offer(ch: nat)
    | Finish
    | Subscribe(ch: nat, tenant: string, since: int)
    | Receive(ch: nat)
    | Unsubscribe(ch: nat)

  function TenantLog(log: seq<Published>, tenant: string): seq<WatchEvent> {
    if log == [] then []
    else
      var last := log[|log| - 1];
      TenantLog(log[..|log| - 1], tenant) + if last.tenant == tenant then [last.evt] else []
  }

  predicate IsSubscriber(s: State, ch: nat, tenant: string) {
    ch in s.subs && s.subs[ch].live && s.subs[ch].tenant == tenant
  }

  /** The events Subscribe hands back for replay. */
  function MissedEvents(tenantLog: seq<WatchEvent>, since: int): seq<WatchEvent> {
    if since > 0 then Above(Retained(tenantLog), since) else []
  }

  /** A non-blocking send of the tenant's n-th event, which is dropped when the channel is full. */
  function Offered(sub: Sub, evt: WatchEvent, n: nat): Sub {
    // A subscriber that came after the event was stored is offered it once more.
    var from := if sub.to == n && n > 0 then n - 1 else sub.from;
    if |sub.queue| < EVENT_CHANNEL_BUFFER then sub.(queue := sub.queue + [evt], from := from, to := n)
    else sub.(drops := sub.drops + 1, from := from, to := n)
  }

  /** The fan-out ranges over the map that Subscribe adds to: the tenant had one, and it was never emptied. */
  predicate Ranging(p: Publication) { p.obliged != {} && !p.deserted }

  /** Unsubscribe's effect on a fan-out under way: the tenant's map may have become empty. */
  function Deserting(s: State, subs: map<nat, Sub>): Option<Publication> {
    match s.current
    case None => None
    case Some(p) =>
      Some(p.(deserted := p.deserted || forall ch | ch in subs :: !(subs[ch].live && subs[ch].tenant == p.tenant)))
  }

  predicate Enabled(s: State, a: Action) {
    match a
    case Publish(_, _, _) => s.current.None?
    case Offer(ch) =>
      && s.current.Some? && IsSubscriber(s, ch, s.current.value.tenant) && ch !in s.current.value.visited
      && Ranging(s.current.value)
    case Finish =>
      && s.current.Some?
      && forall ch | ch in s.current.value.obliged ::
           IsSubscriber(s, ch, s.current.value.tenant) ==> ch in s.current.value.visited
    case Subscribe(ch, _, _) => ch !in s.subs
    case Receive(ch) => ch in s.subs && s.subs[ch].live && s.subs[ch].queue != []
    case Unsubscribe(ch) => ch in s.subs && s.subs[ch].live
  }

  function Exec(s: State, a: Action): State {
    if !Enabled(s, a) then s
    else match a
      case Publish(tenant, kind, app) =>
        var evt := WatchEvent(kind, app, |s.log| + 1);
        var obliged := set ch | ch in s.subs && IsSubscriber(s, ch, tenant);
        s.(log := s.log + [Published(tenant, evt)], current := Some(Publication(tenant, evt, obliged, {}, false)))
      case Offer(ch) =>
        var p := s.current.value;
        var n := |TenantLog(s.log, p.tenant)|;
        s.(subs := s.subs[ch := Offered(s.subs[ch], p.evt, n)], current := Some(p.(visited := p.visited + {ch})))
      case Finish => s.(current := None)
      case Subscribe(ch, tenant, since) =>
        var tl := TenantLog(s.log, tenant);
        s.(subs := s.subs[ch := Sub(tenant, since, |tl|, MissedEvents(tl, since), [], [], 0, true, |tl|, |tl|)])
      case Receive(ch) =>
        var sub := s.subs[ch];
        s.(subs := s.subs[ch := sub.(received := sub.received + [sub.queue[0]], queue := sub.queue[1..])])
      case Unsubscribe(ch) =>
        var subs := s.subs[ch := s.subs[ch].(live := false)];
        s.(subs := subs, current := Deserting(s, subs))
  }

  function Run(s: State, actions: seq<Action>): State {
    if actions == [] then s else Exec(Run(s, actions[..|actions| - 1]), actions[|actions| - 1])
  }

  lemma RunSnoc(s: State, actions: seq<Action>, a: Action)
    ensures Run(s, actions + [a]) == Exec(Run(s, actions), a)
  {
    assert (actions + [a])[..|actions|] == actions;
  }

  // ---- the log ------------------------------------------------------------------------

  /** IDs number the log from one. */
  ghost predicate Numbered(log: seq<Published>) {
    forall i | 0 <= i < |log| :: log[i].evt.id == i + 1
  }

  lemma {:induction false} TenantLogIncreasing(log: seq<Published>, tenant: string)
    requires Numbered(log)
    ensures Increasing(TenantLog(log, tenant))
    ensures forall i | 0 <= i < |TenantLog(log, tenant)| :: 1 <= TenantLog(log, tenant)[i].id <= |log|
  {
    if log != [] {
      TenantLogIncreasing(log[..|log| - 1], tenant);
    }
  }

  /** A tenant's log holds the tenant's events and no others. */
  lemma {:induction false} TenantLogHas(log: seq<Published>, tenant: string, evt: WatchEvent)
    ensures evt in TenantLog(log, tenant) <==> Published(tenant, evt) in log
  {
    if log != [] {
      var init, last := log[..|log| - 1], log[|log| - 1];
      TenantLogHas(init, tenant, evt);
      assert log == init + [last];
    }
  }

  lemma TenantLogSnoc(log: seq<Published>, p: Published, tenant: string)
    ensures TenantLog(log + [p], tenant) == TenantLog(log, tenant) + if p.tenant == tenant then [p.evt] else []
  {
    assert (log + [p])[..|log|] == log;
  }

  // ---- what every run keeps -------------------------------------------------------------

  /** The publication under way has reached this subscription, or does not concern it. */
  predicate UpToDate(s: State, ch: nat) {
    s.current.Some? && ch in s.subs && s.subs[ch].tenant == s.current.value.tenant && ch in s.current.value.obliged
    ==> ch in s.current.value.visited
  }

  /** What a subscription to the tenant with log tl was given. */
  ghost predicate Given(tl: seq<WatchEvent>, sub: Sub) {
    && sub.from <= sub.joined <= sub.to <= |tl|
    && (sub.from == sub.joined || sub.from + 1 == sub.joined)
    && sub.missed == MissedEvents(tl[..sub.joined], sub.since)
    && |sub.queue| <= EVENT_CHANNEL_BUFFER
    && Live(tl, sub.received + sub.queue, sub.drops, sub.from, sub.to)
  }

  /** Live events are those of the log between two positions, except for as many as were dropped. */
  ghost predicate Live(tl: seq<WatchEvent>, live: seq<WatchEvent>, drops: nat, from: nat, to: nat)
    requires from <= to <= |tl|
  {
    && |live| + drops == to - from
    && (drops == 0 ==> live == tl[from..to])
    && Picked(live, tl, from, to)
  }

  ghost predicate SubOk(s: State, ch: nat, sub: Sub) {
    var tl := TenantLog(s.log, sub.tenant);
    && Given(tl, sub)
    && (sub.live ==> sub.to == if UpToDate(s, ch) then |tl| else |tl| - 1)
  }

  /** events appear in tl between the two positions, in that order. */
  ghost predicate Picked(events: seq<WatchEvent>, tl: seq<WatchEvent>, from: nat, to: nat)
    requires from <= to <= |tl|
  {
    && (forall i | 0 <= i < |events| :: events[i] in tl[from..to])
    && Increasing(events)
  }

  /** An offer is queued while fewer than 100 events wait, and dropped otherwise. */
  lemma OfferDropsIffFull(s: State, ch: nat)
    requires Enabled(s, Offer(ch))
    ensures var s' := Exec(s, Offer(ch));
            && ch in s'.subs && s'.subs[ch].received == s.subs[ch].received
            && var sub, sub' := s.subs[ch], s'.subs[ch];
               if |sub.queue| < 100 then sub'.queue == sub.queue + [s.current.value.evt] && sub'.drops == sub.drops
               else sub'.queue == sub.queue && sub'.drops == sub.drops + 1
  {
  }

  /** A subscriber that came during the publication under way and has not been offered its event. */
  predicate Untouched(sub: Sub, n: nat) {
    sub.from == sub.to == n && sub.received == sub.queue == [] && sub.drops == 0
  }

  ghost predicate CurrentOk(s: State, p: Publication) {
    && s.log != [] && s.log[|s.log| - 1] == Published(p.tenant, p.evt)
    && p.visited <= s.subs.Keys && p.obliged <= s.subs.Keys
    && forall ch | ch in s.subs && s.subs[ch].live && s.subs[ch].tenant == p.tenant && ch !in p.obliged ::
         var n := |TenantLog(s.log, p.tenant)|;
         s.subs[ch].joined == n && (ch !in p.visited ==> Untouched(s.subs[ch], n))
  }

  ghost predicate Inv(s: State) {
    && Numbered(s.log)
    && (forall ch | ch in s.subs :: SubOk(s, ch, s.subs[ch]))
    && (s.current.Some? ==> CurrentOk(s, s.current.value))
  }

  lemma PublishKeepsSub(s: State, s': State, ch: nat, p: Published)
    requires Inv(s) && s.current.None? && ch in s.subs && s'.subs == s.subs && s'.log == s.log + [p]
    requires s'.current.Some? && s'.current.value == Publication(p.tenant, p.evt, s'.current.value.obliged, {}, false)
    requires ch in s'.current.value.obliged <==> IsSubscriber(s, ch, p.tenant)
    ensures SubOk(s', ch, s.subs[ch])
  {
    var sub := s.subs[ch];
    TenantLogSnoc(s.log, p, sub.tenant);
    var tl, tl' := TenantLog(s.log, sub.tenant), TenantLog(s'.log, sub.tenant);
    assert SubOk(s, ch, sub);
    assert tl'[..sub.joined] == tl[..sub.joined];
    assert tl'[sub.from..sub.to] == tl[sub.from..sub.to];
  }

  lemma PublishKeepsInv(s: State, a: Action)
    requires Inv(s) && a.Publish? && Enabled(s, a)
    ensures Inv(Exec(s, a))
  {
    var s' := Exec(s, a);
    var p := Published(a.tenant, WatchEvent(a.kind, a.app, |s.log| + 1));
    forall ch | ch in s'.subs ensures SubOk(s', ch, s'.subs[ch]) {
      PublishKeepsSub(s, s', ch, p);
    }
  }

  /** A subscription not touched by the step keeps its record when nothing was logged. */
  lemma SameSub(s: State, s': State, ch: nat)
    requires Inv(s) && ch in s.subs && ch in s'.subs && s'.subs[ch] == s.subs[ch] && s'.log == s.log
    requires s.subs[ch].live ==> UpToDate(s', ch) == UpToDate(s, ch)
    ensures SubOk(s', ch, s'.subs[ch])
  {
    assert SubOk(s, ch, s.subs[ch]);
  }

  lemma PickedSnoc(events: seq<WatchEvent>, tl: seq<WatchEvent>, from: nat, to: nat)
    requires Increasing(tl) && from <= to < |tl| && Picked(events, tl, from, to)
    ensures Picked(events, tl, from, to + 1)
    ensures Picked(events + [tl[to]], tl, from, to + 1)
  {
    var wide := tl[from..to + 1];
    assert wide == tl[from..to] + [tl[to]];
    forall i | 0 <= i < |events| ensures events[i] in wide && events[i].id < tl[to].id {
      assert events[i] in tl[from..to];
      var j :| 0 <= j < |tl[from..to]| && tl[from..to][j] == events[i];
      assert tl[from + j] == events[i];
    }
  }

  lemma LastOfTenantLog(s: State)
    requires Inv(s) && s.current.Some?
    ensures var p := s.current.value; var tl := TenantLog(s.log, p.tenant);
            tl != [] && tl[|tl| - 1] == p.evt && Increasing(tl)
  {
    TenantLogIncreasing(s.log, s.current.value.tenant);
    assert s.log == s.log[..|s.log| - 1] + [s.log[|s.log| - 1]];
  }

  lemma OfferedWithRoom(tl: seq<WatchEvent>, sub: Sub)
    requires Increasing(tl) && tl != [] && Given(tl, sub) && sub.to == |tl| - 1 && |sub.queue| < EVENT_CHANNEL_BUFFER
    ensures Given(tl, Offered(sub, tl[|tl| - 1], |tl|))
  {
    var last := |tl| - 1;
    LiveSnoc(tl, sub.received + sub.queue, sub.drops, sub.from, last);
    Assoc(sub.received, sub.queue, [tl[last]]);
  }

  lemma LiveSnoc(tl: seq<WatchEvent>, live: seq<WatchEvent>, drops: nat, from: nat, to: nat)
    requires Increasing(tl) && from <= to < |tl| && Live(tl, live, drops, from, to)
    ensures Live(tl, live + [tl[to]], drops, from, to + 1) && Live(tl, live, drops + 1, from, to + 1)
  {
    PickedSnoc(live, tl, from, to);
    assert tl[from..to + 1] == tl[from..to] + [tl[to]];
  }

  lemma OfferedWhenFull(tl: seq<WatchEvent>, sub: Sub)
    requires Increasing(tl) && tl != [] && Given(tl, sub) && sub.to == |tl| - 1 && |sub.queue| >= EVENT_CHANNEL_BUFFER
    ensures Given(tl, Offered(sub, tl[|tl| - 1], |tl|))
  {
    LiveSnoc(tl, sub.received + sub.queue, sub.drops, sub.from, |tl| - 1);
  }

  lemma OfferedLate(tl: seq<WatchEvent>, sub: Sub, evt: WatchEvent)
    requires tl != [] && tl[|tl| - 1] == evt && Given(tl, sub) && Untouched(sub, |tl|) && sub.joined == |tl|
    ensures Given(tl, Offered(sub, evt, |tl|))
  {
    var n := |tl|;
    var sub' := Offered(sub, evt, n);
    assert tl[n - 1..n] == [evt];
    assert sub'.received + sub'.queue == [evt];
  }

  lemma OfferedOk(s: State, s': State, ch: nat)
    requires Inv(s) && Enabled(s, Offer(ch)) && s' == Exec(s, Offer(ch))
    ensures SubOk(s', ch, s'.subs[ch])
  {
    var p, sub := s.current.value, s.subs[ch];
    var tl := TenantLog(s.log, p.tenant);
    LastOfTenantLog(s);
    assert SubOk(s, ch, sub);
    if ch in p.obliged {
      if |sub.queue| < EVENT_CHANNEL_BUFFER { OfferedWithRoom(tl, sub); } else { OfferedWhenFull(tl, sub); }
    } else {
      OfferedLate(tl, sub, p.evt);
    }
    assert UpToDate(s', ch) && s'.subs[ch] == Offered(sub, p.evt, |tl|);
  }

  lemma OfferKeepsInv(s: State, ch: nat)
    requires Inv(s) && Enabled(s, Offer(ch))
    ensures Inv(Exec(s, Offer(ch)))
  {
    var s' := Exec(s, Offer(ch));
    OfferedOk(s, s', ch);
    forall c | c in s'.subs ensures SubOk(s', c, s'.subs[c]) {
      if c != ch { SameSub(s, s', c); }
    }
  }

  lemma ReceivedOk(s: State, s': State, ch: nat)
    requires Inv(s) && Enabled(s, Receive(ch)) && s' == Exec(s, Receive(ch))
    ensures SubOk(s', ch, s'.subs[ch])
  {
    var sub, sub' := s.subs[ch], s'.subs[ch];
    assert SubOk(s, ch, sub);
    assert sub'.received + sub'.queue == sub.received + sub.queue;
    assert UpToDate(s', ch) == UpToDate(s, ch);
  }

  lemma ReceiveKeepsInv(s: State, ch: nat)
    requires Inv(s) && Enabled(s, Receive(ch))
    ensures Inv(Exec(s, Receive(ch)))
  {
    var s' := Exec(s, Receive(ch));
    ReceivedOk(s, s', ch);
    forall c | c in s'.subs ensures SubOk(s', c, s'.subs[c]) {
      if c != ch { SameSub(s, s', c); }
    }
  }

  lemma SubscribeKeepsInv(s: State, a: Action)
    requires Inv(s) && a.Subscribe? && Enabled(s, a)
    ensures Inv(Exec(s, a))
  {
    var s' := Exec(s, a);
    var tl := TenantLog(s.log, a.tenant);
    assert tl[..|tl|] == tl;
    forall c | c in s'.subs ensures SubOk(s', c, s'.subs[c]) {
      if c != a.ch { SameSub(s, s', c); }
    }
  }

  lemma ExecKeepsInv(s: State, a: Action)
    requires Inv(s)
    ensures Inv(Exec(s, a))
  {
    if Enabled(s, a) {
      var s' := Exec(s, a);
      match a
      case Publish(_, _, _) => PublishKeepsInv(s, a);
      case Offer(ch) => OfferKeepsInv(s, ch);
      case Finish =>
        forall c | c in s'.subs ensures SubOk(s', c, s'.subs[c]) { SameSub(s, s', c); }
      case Subscribe(_, _, _) => SubscribeKeepsInv(s, a);
      case Receive(ch) => ReceiveKeepsInv(s, ch);
      case Unsubscribe(ch) =>
        assert SubOk(s, ch, s.subs[ch]);
        forall c | c in s'.subs ensures SubOk(s', c, s'.subs[c]) { if c != ch { SameSub(s, s', c); } }
    }
  }

  lemma {:induction false} RunKeepsInv(s: State, actions: seq<Action>)
    requires Inv(s)
    ensures Inv(Run(s, actions))
  {
    if actions != [] {
      RunKeepsInv(s, actions[..|actions| - 1]);
      ExecKeepsInv(Run(s, actions[..|actions| - 1]), actions[|actions| - 1]);
    }
  }

  // ---- what a subscription receives -------------------------------------------------------

  /** Where the events handed to a subscription start in its tenant's log. */
  function Start(tl: seq<WatchEvent>, sub: Sub): (k: nat)
    requires sub.joined <= |tl|
    ensures k <= sub.joined
  {
    if sub.since > 0 then ReplayStart(tl[..sub.joined], sub.since) else sub.joined
  }

  lemma IncreasingPiece(tl: seq<WatchEvent>, k: nat, n: nat)
    requires Increasing(tl) && k <= n <= |tl|
    ensures Increasing(tl[k..n])
  {
  }

  /**
    In every run: the replay is a contiguous piece of the tenant's log that ends where the subscription
    began; the live events come from the tenant's log after that point, in order, and those that are
    missing have been dropped, so that they are all of it exactly if there was no drop. The one event a
    subscriber may see twice is the one being published while it joined.
   */
  lemma SubscriptionIsGivenTheTail(actions: seq<Action>, ch: nat)
    requires ch in Run(INITIAL, actions).subs
    ensures var s := Run(INITIAL, actions);
            var sub := s.subs[ch];
            var tl := TenantLog(s.log, sub.tenant);
            var live := sub.received + sub.queue;
            && sub.from <= sub.joined <= sub.to <= |tl| && (sub.from == sub.joined || sub.from + 1 == sub.joined)
            && sub.missed == tl[Start(tl, sub)..sub.joined]
            && (sub.since > 0 && |Above(tl[..sub.joined], sub.since)| <= REPLAY_BUFFER_SIZE ==>
                  sub.missed == Above(tl[..sub.joined], sub.since))
            && Picked(live, tl, sub.from, sub.to)
            && |live| + sub.drops == sub.to - sub.from
            && (sub.drops == 0 <==> live == tl[sub.from..sub.to])
            && (sub.live && UpToDate(s, ch) ==> sub.to == |tl|)
  {
    RunKeepsInv(INITIAL, actions);
    var s := Run(INITIAL, actions);
    ReplayIsPiece(s, ch);
    IncreasingPiece(TenantLog(s.log, s.subs[ch].tenant), 0, s.subs[ch].joined);
    ReplayIsSuffix(TenantLog(s.log, s.subs[ch].tenant)[..s.subs[ch].joined], s.subs[ch].since);
  }

  lemma ReplayIsPiece(s: State, ch: nat)
    requires Inv(s) && ch in s.subs
    ensures var sub := s.subs[ch];
            var tl := TenantLog(s.log, sub.tenant);
            && Given(tl, sub) && SubOk(s, ch, sub) && Increasing(tl)
            && sub.missed == tl[Start(tl, sub)..sub.joined]
  {
    var sub := s.subs[ch];
    assert SubOk(s, ch, sub);
    var tl := TenantLog(s.log, sub.tenant);
    TenantLogIncreasing(s.log, sub.tenant);
    IncreasingPiece(tl, 0, sub.joined);
    ReplayIsSuffix(tl[..sub.joined], sub.since);
    assert sub.since <= 0 ==> tl[sub.joined..sub.joined] == [];
    assert tl[..sub.joined][Start(tl, sub)..] == tl[Start(tl, sub)..sub.joined];
  }

  /** Nobody subscribes in the middle of a publication: handleEvent as one atomic step. */
  ghost predicate AtomicPublishes(actions: seq<Action>) {
    actions == [] ||
    var init := actions[..|actions| - 1];
    AtomicPublishes(init) && (actions[|actions| - 1].Subscribe? ==> Run(INITIAL, init).current.None?)
  }

  ghost predicate JoinedCleanly(s: State) {
    && (forall ch | ch in s.subs :: s.subs[ch].from == s.subs[ch].joined)
    && (s.current.Some? ==> forall ch | IsSubscriber(s, ch, s.current.value.tenant) :: ch in s.current.value.obliged)
  }

  lemma OfferKeepsJoinedCleanly(s: State, ch: nat)
    requires Inv(s) && JoinedCleanly(s) && Enabled(s, Offer(ch))
    ensures JoinedCleanly(Exec(s, Offer(ch)))
  {
    assert SubOk(s, ch, s.subs[ch]);
    LastOfTenantLog(s);
    assert Exec(s, Offer(ch)).subs[ch].from == s.subs[ch].from;
  }

  lemma ExecKeepsJoinedCleanly(s: State, a: Action)
    requires Inv(s) && JoinedCleanly(s) && (a.Subscribe? ==> s.current.None?)
    ensures JoinedCleanly(Exec(s, a))
  {
    if a.Offer? && Enabled(s, a) { OfferKeepsJoinedCleanly(s, a.ch); }
  }

  lemma {:induction false} AtomicRunsJoinCleanly(actions: seq<Action>)
    requires AtomicPublishes(actions)
    ensures JoinedCleanly(Run(INITIAL, actions))
  {
    if actions != [] {
      var init := actions[..|actions| - 1];
      AtomicRunsJoinCleanly(init);
      RunKeepsInv(INITIAL, init);
      ExecKeepsJoinedCleanly(Run(INITIAL, init), actions[|actions| - 1]);
    }
  }

  lemma PiecesJoin(tl: seq<WatchEvent>, k: nat, m: nat, n: nat)
    requires Increasing(tl) && k <= m <= n <= |tl|
    ensures tl[k..m] + tl[m..n] == tl[k..n] && Increasing(tl[k..n])
  {
  }

  /** With atomic publications and no drop, each event of the tail is delivered exactly once, in order. */
  lemma AtomicDeliveryIsExactlyOnce(actions: seq<Action>, ch: nat)
    requires AtomicPublishes(actions) && ch in Run(INITIAL, actions).subs && Run(INITIAL, actions).subs[ch].drops == 0
    ensures var s := Run(INITIAL, actions);
            var sub := s.subs[ch];
            var tl := TenantLog(s.log, sub.tenant);
            && sub.joined <= sub.to <= |tl|
            && sub.missed + (sub.received + sub.queue) == tl[Start(tl, sub)..sub.to]
            && Increasing(tl[Start(tl, sub)..sub.to])
  {
    SubscriptionIsGivenTheTail(actions, ch);
    AtomicRunsJoinCleanly(actions);
    RunKeepsInv(INITIAL, actions);
    var s := Run(INITIAL, actions);
    var sub := s.subs[ch];
    var tl := TenantLog(s.log, sub.tenant);
    TenantLogIncreasing(s.log, sub.tenant);
    PiecesJoin(tl, Start(tl, sub), sub.joined, sub.to);
  }

  // ---- exactly once, subscription by subscription ------------------------------------------

  /** A fan-out under way may still reach somebody who subscribes to the tenant now. */
  predicate ReachesNewcomers(s: State, tenant: string) {
    s.current.Some? && s.current.value.tenant == tenant && Ranging(s.current.value)
  }

  predicate StartsAtJoin(s: State, ch: nat) { ch in s.subs && s.subs[ch].from == s.subs[ch].joined }

  /** The live events of this subscription start where it joined, and no fan-out under way can change that. */
  ghost predicate JoinedClean(s: State, ch: nat) {
    && StartsAtJoin(s, ch)
    && (s.subs[ch].live && ReachesNewcomers(s, s.subs[ch].tenant) ==> ch in s.current.value.obliged)
  }

  lemma OfferKeepsClean(s: State, other: nat, ch: nat)
    requires Inv(s) && JoinedClean(s, ch) && Enabled(s, Offer(other))
    ensures JoinedClean(Exec(s, Offer(other)), ch)
  {
    if other == ch {
      assert SubOk(s, ch, s.subs[ch]);
      LastOfTenantLog(s);
    }
  }

  lemma ExecKeepsClean(s: State, a: Action, ch: nat)
    requires Inv(s) && JoinedClean(s, ch)
    ensures JoinedClean(Exec(s, a), ch)
  {
    if a.Offer? && Enabled(s, a) { OfferKeepsClean(s, a.ch, ch); }
  }

  lemma {:induction false} RunKeepsClean(s: State, actions: seq<Action>, ch: nat)
    requires Inv(s) && JoinedClean(s, ch)
    ensures JoinedClean(Run(s, actions), ch)
  {
    if actions != [] {
      var init := actions[..|actions| - 1];
      RunKeepsClean(s, init, ch);
      RunKeepsInv(s, init);
      ExecKeepsClean(Run(s, init), actions[|actions| - 1], ch);
    }
  }

  /** Unless something was dropped: what was handed over is one stretch of the log, each event once. */
  ghost predicate OneStretch(s: State, ch: nat) {
    ch in s.subs &&
    var sub := s.subs[ch];
    var tl := TenantLog(s.log, sub.tenant);
    && sub.joined <= sub.to <= |tl| && Increasing(tl)
    && (sub.drops == 0 ==> sub.missed + (sub.received + sub.queue) == tl[Start(tl, sub)..sub.to])
  }

  lemma CleanIsOneStretch(s: State, ch: nat)
    requires Inv(s) && JoinedClean(s, ch)
    ensures OneStretch(s, ch)
  {
    ReplayIsPiece(s, ch);
    var tl := TenantLog(s.log, s.subs[ch].tenant);
    PiecesJoin(tl, Start(tl, s.subs[ch]), s.subs[ch].joined, s.subs[ch].to);
  }

  function Joining(s: State, ch: nat, tenant: string, since: int): State { Exec(s, Subscribe(ch, tenant, since)) }

  /** A newcomer that the fan-out reaches is offered an event that was logged before it came. */
  lemma ReachedNewcomer(s: State, ch: nat, tenant: string, since: int)
    requires Inv(s) && ch !in s.subs && ReachesNewcomers(s, tenant)
    ensures var s' := Run(Joining(s, ch, tenant, since), [Offer(ch)]);
            ch in s'.subs && s'.subs[ch].from + 1 == s'.subs[ch].joined && !OneStretch(s', ch)
  {
    var s1 := Joining(s, ch, tenant, since);
    OfferedAtOnce(s, ch, since);
    RunSnoc(s1, [], Offer(ch));
    assert [] + [Offer(ch)] == [Offer(ch)];
    SubscribeKeepsInv(s, Subscribe(ch, tenant, since));
    RunKeepsInv(s1, [Offer(ch)]);
    ReplayIsPiece(Run(s1, [Offer(ch)]), ch);
  }

  lemma MissedEndsWithLast(tl: seq<WatchEvent>, since: int)
    requires Increasing(tl) && tl != [] && 0 < since < tl[|tl| - 1].id
    ensures var missed := MissedEvents(tl, since); missed != [] && missed[|missed| - 1] == tl[|tl| - 1]
  {
    AboveIsTail(tl, since);
    ReplayIsSuffix(tl, since);
  }

  /**
    Without atomicity exactly-once fails, always in the same way: a client that resumes while an event
    it has not seen is being fanned out is replayed that event and may then be offered it again.
   */
  lemma ResumingMidPublicationDuplicates(s: State, ch: nat, since: int)
    requires Inv(s) && s.current.Some? && Ranging(s.current.value) && ch !in s.subs
    requires 0 < since < s.current.value.evt.id
    ensures var p := s.current.value;
            var s' := Exec(Exec(s, Subscribe(ch, p.tenant, since)), Offer(ch));
            && ch in s'.subs && s'.subs[ch].queue == [p.evt]
            && s'.subs[ch].missed != [] && s'.subs[ch].missed[|s'.subs[ch].missed| - 1] == p.evt
  {
    OfferedAtOnce(s, ch, since);
    NewestIsReplayed(s, since);
  }

  lemma NewestIsReplayed(s: State, since: int)
    requires Inv(s) && s.current.Some? && 0 < since < s.current.value.evt.id
    ensures var missed := MissedEvents(TenantLog(s.log, s.current.value.tenant), since);
            missed != [] && missed[|missed| - 1] == s.current.value.evt
  {
    LastOfTenantLog(s);
    MissedEndsWithLast(TenantLog(s.log, s.current.value.tenant), since);
  }

  /** A newcomer that the fan-out goes on to. */
  lemma OfferedAtOnce(s: State, ch: nat, since: int)
    requires Inv(s) && s.current.Some? && Ranging(s.current.value) && ch !in s.subs
    ensures var p := s.current.value;
            var tl := TenantLog(s.log, p.tenant);
            var s' := Exec(Exec(s, Subscribe(ch, p.tenant, since)), Offer(ch));
            && ch in s'.subs && s'.subs[ch].missed == MissedEvents(tl, since)
            && s'.subs[ch].received == [] && s'.subs[ch].queue == [p.evt] && s'.subs[ch].drops == 0
            && s'.subs[ch].from + 1 == s'.subs[ch].joined == s'.subs[ch].to == |tl|
  {
    var p := s.current.value;
    var s1 := Exec(s, Subscribe(ch, p.tenant, since));
    LastOfTenantLog(s);
    assert p.visited <= s.subs.Keys;
    assert s1.current == s.current && s1.log == s.log && s1.subs[ch].queue == [] && s1.subs[ch].live;
    assert Enabled(s1, Offer(ch));
  }

  /**
    When exactly the live events start where the subscription began, whatever happens afterwards, and with the
    replay and no drop are one stretch of the log: if and only if at that moment no fan-out for the tenant was
    running over the map the subscriber went into.
   */
  lemma StartsAtJoinIff(s: State, ch: nat, tenant: string, since: int)
    requires Inv(s) && ch !in s.subs
    ensures var s' := Joining(s, ch, tenant, since);
            && ((forall more :: StartsAtJoin(Run(s', more), ch)) <==> !ReachesNewcomers(s, tenant))
            && ((forall more :: OneStretch(Run(s', more), ch)) <==> !ReachesNewcomers(s, tenant))
  {
    var s1 := Joining(s, ch, tenant, since);
    if ReachesNewcomers(s, tenant) {
      ReachedNewcomer(s, ch, tenant, since);
      assert !StartsAtJoin(Run(s1, [Offer(ch)]), ch);
    } else {
      SubscribeKeepsInv(s, Subscribe(ch, tenant, since));
      forall more ensures StartsAtJoin(Run(s1, more), ch) && OneStretch(Run(s1, more), ch) {
        RunKeepsClean(s1, more, ch);
        RunKeepsInv(s1, more);
        CleanIsOneStretch(Run(s1, more), ch);
      }
    }
  }

  // ---- no event twice ------------------------------------------------------------------------------

  /** All that a subscription was handed: the replay, then the live events. */
  function HandedOver(sub: Sub): seq<WatchEvent> { sub.missed + (sub.received + sub.queue) }

  /** No event came twice, and none out of order. */
  ghost predicate NoneTwice(s: State, ch: nat) { ch in s.subs && Increasing(HandedOver(s.subs[ch])) }

  /** Unless something was dropped, no event is left out from the start of what is handed over. */
  lemma NoneLeftOut(s: State, ch: nat, i: nat)
    requires Inv(s) && ch in s.subs && s.subs[ch].drops == 0
    requires Start(TenantLog(s.log, s.subs[ch].tenant), s.subs[ch]) <= i < s.subs[ch].to
    ensures i < |TenantLog(s.log, s.subs[ch].tenant)|
    ensures TenantLog(s.log, s.subs[ch].tenant)[i] in HandedOver(s.subs[ch])
  {
    ReplayIsPiece(s, ch);
    var sub := s.subs[ch];
    var tl := TenantLog(s.log, sub.tenant);
    InOnePiece(tl, Start(tl, sub), sub.joined, sub.from, sub.to, i);
  }

  lemma InOnePiece(tl: seq<WatchEvent>, start: nat, joined: nat, from: nat, to: nat, i: nat)
    requires start <= i < to <= |tl| && start <= joined <= to && from <= joined
    ensures tl[i] in tl[start..joined] + tl[from..to]
  {
    if i < joined {
      assert tl[start..joined][i - start] == tl[i];
    } else {
      assert tl[from..to][i - from] == tl[i];
    }
  }

  /** Nothing was replayed, or the replay ends before the live events start. */
  ghost predicate Apart(s: State, ch: nat) {
    ch in s.subs && (s.subs[ch].missed == [] || JoinedClean(s, ch))
  }

  lemma ReplayStays(s: State, a: Action, ch: nat)
    requires ch in s.subs
    ensures ch in Exec(s, a).subs && Exec(s, a).subs[ch].missed == s.subs[ch].missed
  {
  }

  lemma {:induction false} RunKeepsApart(s: State, actions: seq<Action>, ch: nat)
    requires Inv(s) && Apart(s, ch)
    ensures Apart(Run(s, actions), ch)
  {
    if actions != [] {
      var init, last := actions[..|actions| - 1], actions[|actions| - 1];
      RunKeepsApart(s, init, ch);
      RunKeepsInv(s, init);
      ReplayStays(Run(s, init), last, ch);
      if JoinedClean(Run(s, init), ch) { ExecKeepsClean(Run(s, init), last, ch); }
    }
  }

  lemma JoinIncreases(tl: seq<WatchEvent>, k: nat, joined: nat, to: nat, live: seq<WatchEvent>)
    requires Increasing(tl) && k <= joined <= to <= |tl| && Picked(live, tl, joined, to)
    ensures Increasing(tl[k..joined] + live)
  {
    forall i | 0 <= i < |live| ensures joined == |tl| || tl[joined].id <= live[i].id {
      var j :| 0 <= j < |tl[joined..to]| && tl[joined..to][j] == live[i];
    }
    forall i, j | 0 <= i < |tl[k..joined]| && 0 <= j < |live| ensures tl[k..joined][i].id < live[j].id {
      assert live[j] in tl[joined..to];
      assert tl[k..joined][i] == tl[k + i];
    }
  }

  lemma ApartIsNoneTwice(s: State, ch: nat)
    requires Inv(s) && Apart(s, ch)
    ensures NoneTwice(s, ch)
  {
    ReplayIsPiece(s, ch);
    var sub := s.subs[ch];
    var tl := TenantLog(s.log, sub.tenant);
    if sub.missed == [] {
      assert HandedOver(sub) == sub.received + sub.queue;
    } else {
      JoinIncreases(tl, Start(tl, sub), sub.joined, sub.to, sub.received + sub.queue);
    }
  }

  /** The event being fanned out is the last of its tenant's log. */
  lemma NothingNewer(s: State, since: int)
    requires Inv(s) && s.current.Some? && s.current.value.evt.id <= since
    ensures MissedEvents(TenantLog(s.log, s.current.value.tenant), since) == []
  {
    var tl := TenantLog(s.log, s.current.value.tenant);
    LastOfTenantLog(s);
    AboveIsTail(tl, since);
    ReplayIsSuffix(tl, since);
  }

  /** A newcomer that the fan-out reaches, and that reports an ID from before the event being fanned out. */
  predicate ReplayedWhatIsFannedOut(s: State, tenant: string, since: int) {
    ReachesNewcomers(s, tenant) && 0 < since < s.current.value.evt.id
  }

  lemma DuplicateComes(s: State, ch: nat, tenant: string, since: int)
    requires Inv(s) && ch !in s.subs && ReplayedWhatIsFannedOut(s, tenant, since)
    ensures !NoneTwice(Run(Joining(s, ch, tenant, since), [Offer(ch)]), ch)
  {
    ResumingMidPublicationDuplicates(s, ch, since);
    var s1 := Joining(s, ch, tenant, since);
    RunSnoc(s1, [], Offer(ch));
    assert [] + [Offer(ch)] == [Offer(ch)];
    var sub := Run(s1, [Offer(ch)]).subs[ch];
    var n, all := |sub.missed|, HandedOver(sub);
    assert sub.received == [];
    assert all[n - 1] == sub.missed[n - 1] && all[n] == sub.queue[0];
  }

  /**
    When exactly no event is handed over twice, whatever happens afterwards: unless the subscriber resumes
    from before an event that is just being fanned out over the map it goes into.
   */
  lemma ExactlyOnceIff(s: State, ch: nat, tenant: string, since: int)
    requires Inv(s) && ch !in s.subs
    ensures (forall more :: NoneTwice(Run(Joining(s, ch, tenant, since), more), ch)) <==>
            !ReplayedWhatIsFannedOut(s, tenant, since)
  {
    var s1 := Joining(s, ch, tenant, since);
    if ReplayedWhatIsFannedOut(s, tenant, since) {
      DuplicateComes(s, ch, tenant, since);
    } else {
      SubscribeKeepsInv(s, Subscribe(ch, tenant, since));
      if ReachesNewcomers(s, tenant) && since > 0 { NothingNewer(s, since); }
      forall more ensures NoneTwice(Run(s1, more), ch) {
        RunKeepsApart(s1, more, ch);
        RunKeepsInv(s1, more);
        ApartIsNoneTwice(Run(s1, more), ch);
      }
    }
  }
}
