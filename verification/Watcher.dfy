/**
  The Watcher object (internal/k8s/watcher.go): its maps, rings and counter, with each method proved
  against the step machine of Delivery. A channel is named by a number and its contents live in the
  subscribers map. handleEvent is Publish under the mutex and then OfferTo for one subscriber after another,
  with others' steps in between; HandleEvent is the two without interference.
 */
module Watcher {
  import opened Text
  import opened Ring
  import opened Delivery

  datatype WatchKind = WatchAdded | WatchModified | WatchDeleted | WatchBookmark | WatchError

  function MapEventType(kind: WatchKind): Option<EventType> {
    match kind
    case WatchAdded => Some(Added)
    case WatchModified => Some(Modified)
    case WatchDeleted => Some(Deleted)
    case WatchBookmark => None
    case WatchError => None
  }

  /** The log, and every subscriber's record, after one event has been stored and offered to all. */
  function AtomicPublish(s: State, tenant: string, kind: EventType, app: App): State {
    var evt := WatchEvent(kind, app, |s.log| + 1);
    var log := s.log + [Published(tenant, evt)];
    var n := |TenantLog(log, tenant)|;
    var subs := map ch | ch in s.subs ::
      if IsSubscriber(s, ch, tenant) then Offered(s.subs[ch], evt, n) else s.subs[ch];
    State(log, subs, None)
  }

  // ---- an atomic publication is one of the step machine's runs --------------------------------

  lemma {:induction false} RunConcat(s: State, a: seq<Action>, b: seq<Action>)
    ensures Run(s, a + b) == Run(Run(s, a), b)
  {
    if b == [] {
      assert a + b == a;
    } else {
      var init := b[..|b| - 1];
      assert a + b == a + init + [b[|b| - 1]];
      RunConcat(s, a, init);
      RunSnoc(s, a + init, b[|b| - 1]);
    }
  }

  ghost function Subscribers(s: State, tenant: string): set<nat> {
    set ch | ch in s.subs && IsSubscriber(s, ch, tenant)
  }

  /** In the middle of a publication, with the given subscribers served. */
  ghost function Midway(s: State, p: Published, served: set<nat>): State {
    var log := s.log + [p];
    var n := |TenantLog(log, p.tenant)|;
    State(log,
          map ch | ch in s.subs :: if ch in served then Offered(s.subs[ch], p.evt, n) else s.subs[ch],
          Some(Publication(p.tenant, p.evt, Subscribers(s, p.tenant), served, false)))
  }

  lemma OfferNext(s: State, p: Published, served: set<nat>, ch: nat)
    requires ch in Subscribers(s, p.tenant) && ch !in served
    ensures Exec(Midway(s, p, served), Offer(ch)) == Midway(s, p, served + {ch})
  {
    var m, m' := Midway(s, p, served), Midway(s, p, served + {ch});
    assert Enabled(m, Offer(ch));
    assert m'.subs == m.subs[ch := Offered(s.subs[ch], p.evt, |TenantLog(m.log, p.tenant)|)];
  }

  lemma {:induction false} OfferAll(s: State, p: Published, todo: set<nat>) returns (offers: seq<Action>)
    requires todo <= Subscribers(s, p.tenant)
    ensures Run(Midway(s, p, {}), offers) == Midway(s, p, todo)
    ensures forall a | a in offers :: a.Offer?
  {
    if todo == {} {
      offers := [];
    } else {
      var ch :| ch in todo;
      var before := OfferAll(s, p, todo - {ch});
      offers := before + [Offer(ch)];
      RunSnoc(Midway(s, p, {}), before, Offer(ch));
      OfferNext(s, p, todo - {ch}, ch);
      assert todo - {ch} + {ch} == todo;
    }
  }

  /** handleEvent without interference is Publish, an Offer to each subscriber, and Finish. */
  lemma AtomicPublishIsRun(s: State, tenant: string, kind: EventType, app: App) returns (actions: seq<Action>)
    requires s.current.None?
    ensures Run(s, actions) == AtomicPublish(s, tenant, kind, app)
    ensures forall a | a in actions :: a.Publish? || a.Offer? || a.Finish?
  {
    var p := Published(tenant, WatchEvent(kind, app, |s.log| + 1));
    var all := Subscribers(s, tenant);
    var offers := OfferAll(s, p, all);
    var first := Publish(tenant, kind, app);
    RunSnoc(s, [], first);
    assert [] + [first] == [first];
    assert Midway(s, p, {}).subs == s.subs;
    assert Exec(s, first) == Midway(s, p, {});
    RunConcat(s, [first], offers);
    RunSnoc(s, [first] + offers, Finish);
    actions := [first] + offers + [Finish];
    assert Enabled(Midway(s, p, all), Finish);
    assert Midway(s, p, all).subs == AtomicPublish(s, tenant, kind, app).subs;
  }

  lemma TenantLogsAfter(log: seq<Published>, p: Published)
    ensures forall t :: TenantLog(log + [p], t) == TenantLog(log, t) + if t == p.tenant then [p.evt] else []
  {
    forall t ensures TenantLog(log + [p], t) == TenantLog(log, t) + if t == p.tenant then [p.evt] else [] {
      TenantLogSnoc(log, p, t);
    }
  }

  // ---- the object --------------------------------------------------------------------------------

  /** What is queued in each channel of one tenant. */
  type Channels = map<nat, seq<WatchEvent>>

  /** A send that gives up when the channel is full. */
  function Push(queue: seq<WatchEvent>, evt: WatchEvent): seq<WatchEvent> {
    if |queue| < EVENT_CHANNEL_BUFFER then queue + [evt] else queue
  }

  /** The subscribers map lists exactly the live subscriptions, with what is queued for them. */
  ghost predicate Lists(subscribers: map<string, Channels>, subs: map<nat, Sub>) {
    && (forall t | t in subscribers :: subscribers[t] != map[])
    && (forall t, ch | t in subscribers && ch in subscribers[t] ::
          ch in subs && subs[ch].live && subs[ch].tenant == t && subscribers[t][ch] == subs[ch].queue)
    && (forall ch | ch in subs && subs[ch].live ::
          subs[ch].tenant in subscribers && ch in subscribers[subs[ch].tenant])
  }

  function ChannelsOf(subscribers: map<string, Channels>, tenant: string): Channels {
    if tenant in subscribers then subscribers[tenant] else map[]
  }

  lemma ListsUpdate(subscribers: map<string, Channels>, subs: map<nat, Sub>, ch: nat, sub: Sub)
    requires Lists(subscribers, subs) && sub.live
    requires ch in subs ==> subs[ch].live && subs[ch].tenant == sub.tenant
    ensures var channels: Channels := ChannelsOf(subscribers, sub.tenant)[ch := sub.queue];
            Lists(subscribers[sub.tenant := channels], subs[ch := sub])
  {
    var channels: Channels := ChannelsOf(subscribers, sub.tenant)[ch := sub.queue];
    assert ch in channels;
    var subscribers', subs' := subscribers[sub.tenant := channels], subs[ch := sub];
    forall t, c | t in subscribers' && c in subscribers'[t]
      ensures c in subs' && subs'[c].live && subs'[c].tenant == t && subscribers'[t][c] == subs'[c].queue
    {
      if t == sub.tenant && c != ch { assert t in subscribers && c in subscribers[t]; }
    }
  }

  function Without(subscribers: map<string, Channels>, tenant: string, ch: nat): map<string, Channels>
    requires tenant in subscribers
  {
    var channels: Channels := map c | c in subscribers[tenant] && c != ch :: subscribers[tenant][c];
    if channels == map[] then map t | t in subscribers && t != tenant :: subscribers[t]
    else subscribers[tenant := channels]
  }

  lemma ListsRemove(subscribers: map<string, Channels>, subs: map<nat, Sub>, ch: nat)
    requires Lists(subscribers, subs) && ch in subs && subs[ch].live
    ensures Lists(Without(subscribers, subs[ch].tenant, ch), subs[ch := subs[ch].(live := false)])
  {
    var tenant := subs[ch].tenant;
    var subscribers', subs' := Without(subscribers, tenant, ch), subs[ch := subs[ch].(live := false)];
    var channels: Channels := map c | c in subscribers[tenant] && c != ch :: subscribers[tenant][c];
    forall c | c in subs' && subs'[c].live
      ensures subs'[c].tenant in subscribers' && c in subscribers'[subs'[c].tenant]
    {
      assert c in subscribers[subs[c].tenant];
      if subs[c].tenant == tenant { assert c in channels; }
    }
  }

  function PushAll(subscribers: map<string, Channels>, tenant: string, evt: WatchEvent): map<string, Channels> {
    map t | t in subscribers ::
      if t == tenant then map ch | ch in subscribers[t] :: Push(subscribers[t][ch], evt) else subscribers[t]
  }

  lemma ListsPublished(subscribers: map<string, Channels>, s: State, tenant: string, kind: EventType, app: App)
    requires Lists(subscribers, s.subs)
    ensures var subs := AtomicPublish(s, tenant, kind, app).subs;
            Lists(PushAll(subscribers, tenant, WatchEvent(kind, app, |s.log| + 1)), subs)
  {
    var subscribers' := PushAll(subscribers, tenant, WatchEvent(kind, app, |s.log| + 1));
    var subs' := AtomicPublish(s, tenant, kind, app).subs;
    forall t | t in subscribers ensures t in subscribers' && subscribers'[t].Keys == subscribers[t].Keys {}
    forall t, ch | t in subscribers' && ch in subscribers'[t]
      ensures ch in subs' && subs'[ch].live && subs'[ch].tenant == t && subscribers'[t][ch] == subs'[ch].queue
    {
      assert ch in subscribers[t] && IsSubscriber(s, ch, t);
    }
    forall t | t in subscribers' ensures subscribers'[t] != map[] {
      var ch :| ch in subscribers[t];
      assert ch in subscribers'[t];
    }
  }

  class Watcher {
    var subscribers: map<string, Channels>
    var buffers: map<string, ReplayBuffer>
    var nextEventID: nat
    var nextChannel: nat
    ghost var st: State
    ghost var repr: set<object>

    /** The rings hold the tenants' logs and share no memory. */
    ghost predicate Rings(log: seq<Published>)
      reads this`buffers, this`repr, repr
    {
      && this !in repr
      && (forall t | t in buffers ::
            && buffers[t] in repr && (buffers[t].events != null ==> buffers[t].events in repr)
            && buffers[t].Valid() && buffers[t].log == TenantLog(log, t))
      && (forall t, u | t in buffers && u in buffers && t != u ::
            buffers[t] != buffers[u] && (buffers[t].events != null ==> buffers[t].events != buffers[u].events))
      && (forall t | t !in buffers :: TenantLog(log, t) == [])
    }

    ghost predicate Valid()
      reads this, repr
    {
      && Rings(st.log) && Lists(subscribers, st.subs)
      && (forall ch | ch in st.subs :: ch < nextChannel)
      && nextEventID == |st.log|
    }

    constructor ()
      ensures Valid() && fresh(repr) && st == INITIAL
    {
      subscribers, buffers := map[], map[];
      nextEventID, nextChannel := 0, 0;
      st, repr := INITIAL, {};
    }

    /** Installs new subscriber lists for a state whose log the rings already hold. */
    method Commit(lists: map<string, Channels>, channels: nat, ghost next: State)
      requires Rings(next.log) && nextEventID == |next.log|
      requires Lists(lists, next.subs) && forall ch | ch in next.subs :: ch < channels
      modifies this`subscribers, this`nextChannel, this`st
      ensures Valid() && st == next
    {
      subscribers, nextChannel, st := lists, channels, next;
    }

    /** The replay part of Subscribe. */
    method Replay(tenant: string, sinceID: int) returns (missed: seq<WatchEvent>)
      requires Valid()
      ensures missed == MissedEvents(TenantLog(st.log, tenant), sinceID)
    {
      missed := [];
      if sinceID > 0 && tenant in buffers {
        missed := buffers[tenant].Since(sinceID);
      }
    }

    method Subscribe(tenant: string, sinceID: int) returns (ch: nat, missed: seq<WatchEvent>)
      requires Valid()
      modifies this`subscribers, this`nextChannel, this`st
      ensures Valid()
      ensures ch !in old(st).subs && st == Exec(old(st), Action.Subscribe(ch, tenant, sinceID))
      ensures ch in st.subs && missed == st.subs[ch].missed
    {
      ch := nextChannel;
      missed := Replay(tenant, sinceID);
      ghost var next := Exec(st, Action.Subscribe(ch, tenant, sinceID));
      ListsUpdate(subscribers, st.subs, ch, next.subs[ch]);
      var subs: Channels := ChannelsOf(subscribers, tenant)[ch := []];
      Commit(subscribers[tenant := subs], nextChannel + 1, next);
    }

    /** The receive in pumpEvents. */
    method Receive(ch: nat) returns (evt: WatchEvent)
      requires Valid() && ch in st.subs && st.subs[ch].live && st.subs[ch].queue != []
      modifies this`subscribers, this`nextChannel, this`st
      ensures Valid()
      ensures evt == old(st).subs[ch].queue[0] && st == Exec(old(st), Action.Receive(ch))
    {
      var found := FindSubscriber(ch);
      assert found == Some(st.subs[ch].tenant);
      var tenant := found.value;
      var queue := subscribers[tenant][ch];
      evt := queue[0];
      ghost var next := Exec(st, Action.Receive(ch));
      ListsUpdate(subscribers, st.subs, ch, next.subs[ch]);
      var subs: Channels := ChannelsOf(subscribers, tenant)[ch := queue[1..]];
      Commit(subscribers[tenant := subs], nextChannel, next);
    }

    /** The search loop of Unsubscribe: ranges over the tenants until it meets the channel. */
    method FindSubscriber(ch: nat) returns (tenant: Option<string>)
      ensures match tenant
              case Some(t) => t in subscribers && ch in subscribers[t]
              case None => forall t | t in subscribers :: ch !in subscribers[t]
    {
      var todo := subscribers.Keys;
      while todo != {}
        invariant todo <= subscribers.Keys
        invariant forall t | t in subscribers && t !in todo :: ch !in subscribers[t]
        decreases todo
      {
        var t :| t in todo;
        if ch in subscribers[t] {
          return Some(t);
        }
        todo := todo - {t};
      }
      return None;
    }

    method Unsubscribe(ch: nat)
      requires Valid()
      modifies this`subscribers, this`nextChannel, this`st
      ensures Valid()
      ensures st == Exec(old(st), Action.Unsubscribe(ch))
    {
      var found := FindSubscriber(ch);
      if found.Some? {
        var tenant := found.value;
        assert IsSubscriber(st, ch, tenant);
        ListsRemove(subscribers, st.subs, ch);
        Commit(Without(subscribers, tenant, ch), nextChannel, Exec(st, Action.Unsubscribe(ch)));
      } else {
        assert !Enabled(st, Action.Unsubscribe(ch));
      }
    }

    method EnsureRing(tenant: string, ghost log: seq<Published>)
      requires Rings(log)
      modifies this`buffers, this`repr
      ensures Rings(log) && fresh(repr - old(repr)) && old(repr) <= repr && tenant in buffers
    {
      if tenant !in buffers {
        var buf := new ReplayBuffer();
        buffers := buffers[tenant := buf];
        repr := repr + {buf};
      }
    }

    /** Adding to one ring leaves the others as they are. */
    method AddTo(tenant: string, evt: WatchEvent, ghost log: seq<Published>, ghost log': seq<Published>)
      requires Rings(log) && tenant in buffers
      requires TenantLog(log', tenant) == TenantLog(log, tenant) + [evt]
      requires forall t | t != tenant :: TenantLog(log', t) == TenantLog(log, t)
      modifies this`repr, repr
      ensures Rings(log') && fresh(repr - old(repr))
    {
      var buf := buffers[tenant];
      buf.Add(evt);
      forall t | t in buffers && t != tenant
        ensures buffers[t].Valid() && buffers[t].log == TenantLog(log', t)
        ensures buffers[t].events == old(buffers[t].events)
      {
        assert buffers[t] != buf;
      }
      repr := repr + {buf.events};
    }

    /** Storing the event in its tenant's ring. */
    method Record(tenant: string, evt: WatchEvent, ghost log: seq<Published>)
      requires Rings(log)
      modifies this`buffers, this`repr, repr
      ensures Rings(log + [Published(tenant, evt)]) && fresh(repr - old(repr))
    {
      EnsureRing(tenant, log);
      TenantLogsAfter(log, Published(tenant, evt));
      AddTo(tenant, evt, log, log + [Published(tenant, evt)]);
    }

    /** The loop over the tenant's subscribers. */
    method FanOut(tenant: string, evt: WatchEvent) returns (lists: map<string, Channels>)
      ensures lists == PushAll(subscribers, tenant, evt)
    {
      if tenant !in subscribers {
        return subscribers;
      }
      var subs := subscribers[tenant];
      var todo := subs.Keys;
      while todo != {}
        invariant todo <= subs.Keys == subscribers[tenant].Keys
        invariant forall ch | ch in subs ::
                    subs[ch] == if ch in todo then subscribers[tenant][ch] else Push(subscribers[tenant][ch], evt)
        decreases todo
      {
        var ch :| ch in todo;
        if |subs[ch]| < EVENT_CHANNEL_BUFFER {
          subs := subs[ch := subs[ch] + [evt]];
        }
        todo := todo - {ch};
      }
      assert subs == PushAll(subscribers, tenant, evt)[tenant];
      lists := subscribers[tenant := subs];
    }

    /** handleEvent up to the point where it releases the mutex: the event is stamped and stored. */
    method Publish(namespace: string, eventType: EventType, app: App) returns (watchEvt: WatchEvent)
      requires Valid() && st.current.None?
      modifies this, repr
      ensures Valid() && fresh(repr - old(repr))
      ensures st == Exec(old(st), Action.Publish(namespace, eventType, app)) && st.current.Some?
      ensures st.current.value.evt == watchEvt && st.current.value.tenant == namespace
    {
      ghost var next := Exec(st, Action.Publish(namespace, eventType, app));
      watchEvt := RecordNext(namespace, eventType, app);
      Commit(subscribers, nextChannel, next);
    }

    /** One turn of the range over the live map: others may subscribe and leave between any two. */
    method OfferTo(namespace: string, ch: nat, watchEvt: WatchEvent)
      requires Valid() && Enabled(st, Action.Offer(ch))
      requires st.current.value.tenant == namespace && st.current.value.evt == watchEvt
      modifies this`subscribers, this`nextChannel, this`st
      ensures Valid() && st == Exec(old(st), Action.Offer(ch))
    {
      ghost var next := Exec(st, Action.Offer(ch));
      ListsUpdate(subscribers, st.subs, ch, next.subs[ch]);
      var subs: Channels := ChannelsOf(subscribers, namespace)[ch := Push(subscribers[namespace][ch], watchEvt)];
      Commit(subscribers[namespace := subs], nextChannel, next);
    }

    /** handleEvent when nobody else takes a step in between. */
    method HandleEvent(kind: WatchKind, namespace: string, app: App)
      requires Valid() && st.current.None?
      modifies this, repr
      ensures Valid() && fresh(repr - old(repr))
      ensures st == match kind
                    case WatchAdded => AtomicPublish(old(st), namespace, Added, app)
                    case WatchModified => AtomicPublish(old(st), namespace, Modified, app)
                    case WatchDeleted => AtomicPublish(old(st), namespace, Deleted, app)
                    case _ => old(st)
    {
      var mapped := MapEventType(kind);
      if mapped.None? {
        return;
      }
      Stamp(namespace, mapped.value, app);
    }

    /** Stamps the event with the next ID and stores it. */
    method RecordNext(namespace: string, eventType: EventType, app: App) returns (watchEvt: WatchEvent)
      requires Rings(st.log) && nextEventID == |st.log|
      modifies this`nextEventID, this`buffers, this`repr, repr
      ensures watchEvt == WatchEvent(eventType, app, |st.log| + 1) && nextEventID == |st.log| + 1
      ensures Rings(st.log + [Published(namespace, watchEvt)]) && fresh(repr - old(repr))
    {
      nextEventID := nextEventID + 1;
      watchEvt := WatchEvent(eventType, app, nextEventID);
      Record(namespace, watchEvt, st.log);
    }

    /** An event under the next ID, stored and then offered to every subscriber. */
    method Stamp(namespace: string, eventType: EventType, app: App)
      requires Valid() && st.current.None?
      modifies this, repr
      ensures Valid() && fresh(repr - old(repr))
      ensures st == AtomicPublish(old(st), namespace, eventType, app)
    {
      ghost var next := AtomicPublish(st, namespace, eventType, app);
      ListsPublished(subscribers, st, namespace, eventType, app);
      assert next.subs.Keys == st.subs.Keys;
      var watchEvt := RecordNext(namespace, eventType, app);
      var lists := FanOut(namespace, watchEvt);
      Commit(lists, nextChannel, next);
    }
  }
}
