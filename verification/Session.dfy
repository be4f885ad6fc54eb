/**
  A browser and the watcher as one system, over time: the server publishes and fans out, other clients come
  and go; this browser opens connections, reads some of what was written on them, loses them and resumes, its
  EventSource may be created anew, and its user deletes things.
 */
module Session {
  import opened Text
  import opened Ring
  import opened Delivery
  import opened Rows
  import opened Page
  import opened EventStream
  import opened Resume

  /**
    Where the present EventSource started over: the length of the tenant's log when it first connected,
    whether no fan-out was running over the map it went into, and the page it found.
   */
  datatype Origin = Origin(start: nat, clean: bool, page: Page)

  // earlier: the messages heard before this connection; id: the event ID it was opened with.
  datatype Link = Link(ch: nat, earlier: seq<Message>, id: string, parser: Parser, arrived: nat)

  // inputs: all the page has heard and all deletes since its origin, in order.
  datatype System = System(
    server: State, tenant: string, page: Page, lastEventID: string,
    origin: Origin, inputs: seq<Input>, link: Option<Link>, now: int)

  datatype Step =
    | Server(a: Action)
    | Connect(ch: nat)
    | Arrive(n: nat, at: int)
    | Disconnect
    | Recreate
    | NoteDelete(name: string, at: int)
    | DeleteAccepted(name: string, at: int)

  function Begin(tenant: string, page: Page, now: int): System {
    System(INITIAL, tenant, page, "", Origin(0, true, page), [], None, now)
  }

  function SubOf(sys: System): Sub
    requires sys.link.Some? && sys.link.value.ch in sys.server.subs
  {
    sys.server.subs[sys.link.value.ch]
  }

  function Bytes(w: Wire, sub: Sub): string { StreamBytes(w, Stream(sub)) }

  predicate Can(w: Wire, sys: System, step: Step) {
    match step
    case Server(a) => Enabled(sys.server, a)
    case Connect(ch) => sys.link.None? && ch !in sys.server.subs
    case Arrive(n, at) =>
      && sys.link.Some? && sys.link.value.ch in sys.server.subs && at >= sys.now
      && sys.link.value.arrived <= n <= |Bytes(w, SubOf(sys))|
    case Disconnect => sys.link.Some?
    case Recreate => true
    case NoteDelete(_, at) => at >= sys.now
    case DeleteAccepted(_, at) => at >= sys.now
  }

  /** The tenant's log. */
  function Log(sys: System): seq<WatchEvent> { TenantLog(sys.server.log, sys.tenant) }

  /** The ID that the server makes of the header the browser sends. */
  function Since(sys: System): int { ParseLastEventID(sys.lastEventID) }

  /** Without an event ID the server replays nothing, and the browser starts over from the page it has. */
  function Opening(w: Wire, sys: System, ch: nat): System {
    var anew := sys.lastEventID == "";
    var inputs := if anew then [] else sys.inputs;
    sys.(server := Exec(sys.server, Subscribe(ch, sys.tenant, Since(sys))),
         origin := if anew then Origin(|Log(sys)|, !ReachesNewcomers(sys.server, sys.tenant), sys.page) else sys.origin,
         inputs := inputs,
         link := Some(Link(ch, MessagesIn(inputs), sys.lastEventID, Opened(w.inherits, sys.lastEventID), 0)))
  }

  /** Messages that arrive together. */
  function HeardAll(msgs: seq<Message>, at: int): seq<Input> {
    if msgs == [] then [] else HeardAll(msgs[..|msgs| - 1], at) + [Heard(msgs[|msgs| - 1], at)]
  }

  function Hearing(sys: System, news: seq<Input>, at: int): System {
    sys.(page := After(sys.page, news), inputs := sys.inputs + news, now := at)
  }

  /** The parser reads on, and what it dispatches is handled as it comes. */
  function Arrived(w: Wire, sys: System, n: nat, at: int): System
    requires Can(w, sys, Arrive(n, at))
  {
    var link := sys.link.value;
    var parser := Read(link.parser, Bytes(w, SubOf(sys))[link.arrived..n]);
    var news := HeardAll(Decoded(w, parser.dispatched), at);
    Hearing(sys, news, at).(
      lastEventID := parser.lastEventID, link := Some(link.(parser := Drained(parser), arrived := n)))
  }

  /** connect after a closed source: a new EventSource, which has no event ID; the page stays. */
  function Recreated(sys: System): System {
    sys.(lastEventID := "", origin := sys.origin.(page := sys.page), inputs := [], link := None)
  }

  function ExecStep(w: Wire, sys: System, step: Step): System {
    if !Can(w, sys, step) then sys
    else match step
      case Server(a) => sys.(server := Exec(sys.server, a))
      case Connect(ch) => Opening(w, sys, ch)
      case Arrive(n, at) => Arrived(w, sys, n, at)
      case Disconnect => sys.(link := None)
      case Recreate => Recreated(sys)
      case NoteDelete(name, at) => Hearing(sys, [Marked(name, at)], at)
      case DeleteAccepted(name, at) => Hearing(sys, [Swapped(name, at)], at)
  }

  function RunSteps(w: Wire, sys: System, steps: seq<Step>): System {
    if steps == [] then sys else ExecStep(w, RunSteps(w, sys, steps[..|steps| - 1]), steps[|steps| - 1])
  }

  /**
    What resuming depends on: a reconnection comes before more than 128 newer events, IDs fit 64 bits,
    and nothing arrives from a channel that overflowed.
   */
  ghost predicate Sound(w: Wire, sys: System, step: Step) {
    match step
    case Connect(_) =>
      sys.lastEventID != "" ==> |sys.server.log| <= MAX_INT64 && |Above(Log(sys), Since(sys))| <= REPLAY_BUFFER_SIZE
    case Arrive(_, _) => Can(w, sys, step) ==> SubOf(sys).drops == 0
    case _ => true
  }

  ghost predicate Smooth(w: Wire, sys: System, steps: seq<Step>) {
    steps == [] ||
    var init := steps[..|steps| - 1];
    Smooth(w, sys, init) && Sound(w, RunSteps(w, sys, init), steps[|steps| - 1])
  }

  // ---- the page and what it has heard ----------------------------------------------------------------

  /** The client as it would be if no message had been suppressed since the origin. */
  function Reader(sys: System): Client {
    Client(ApplyAll(sys.origin.page.rows, MessagesIn(sys.inputs)), sys.lastEventID)
  }

  lemma InputSnoc(inputs: seq<Input>, input: Input)
    ensures MessagesIn(inputs + [input]) == MessagesIn(inputs) + if input.Heard? then [input.msg] else []
    ensures forall page :: After(page, inputs + [input]) == Next(After(page, inputs), input)
  {
    assert (inputs + [input])[..|inputs|] == inputs;
  }

  lemma {:induction false} InputsConcat(page: Page, a: seq<Input>, b: seq<Input>)
    ensures MessagesIn(a + b) == MessagesIn(a) + MessagesIn(b)
    ensures After(page, a + b) == After(After(page, a), b)
  {
    if b == [] {
      assert a + b == a;
    } else {
      var init, last := b[..|b| - 1], b[|b| - 1];
      InputsConcat(page, a, init);
      Regroup(a, b);
      InputSnoc(a + init, last);
      assert b == init + [last];
      InputSnoc(init, last);
      Assoc(MessagesIn(a), MessagesIn(init), if last.Heard? then [last.msg] else []);
    }
  }

  lemma {:induction false} HeardAllIs(msgs: seq<Message>, at: int)
    ensures MessagesIn(HeardAll(msgs, at)) == msgs
    ensures |HeardAll(msgs, at)| == |msgs| && forall i | 0 <= i < |msgs| :: HeardAll(msgs, at)[i].at == at
  {
    if msgs != [] {
      HeardAllIs(msgs[..|msgs| - 1], at);
      InputSnoc(HeardAll(msgs[..|msgs| - 1], at), Heard(msgs[|msgs| - 1], at));
    }
  }

  ghost predicate PageKept(sys: System) {
    && sys.page == After(sys.origin.page, sys.inputs)
    && Timed(sys.inputs, sys.now)
    && AllDefinite(MessagesIn(sys.inputs))
  }

  lemma TimedConcat(a: seq<Input>, b: seq<Input>, now: int, at: int)
    requires Timed(a, now) && now <= at && forall i | 0 <= i < |b| :: b[i].at == at
    ensures Timed(a + b, at)
  {
  }

  lemma DefiniteConcat(a: seq<Message>, b: seq<Message>)
    requires AllDefinite(a) && AllDefinite(b)
    ensures AllDefinite(a + b)
  {
  }

  lemma HearingKeepsPage(sys: System, news: seq<Input>, at: int)
    requires PageKept(sys) && at >= sys.now
    requires AllDefinite(MessagesIn(news)) && forall i | 0 <= i < |news| :: news[i].at == at
    ensures PageKept(Hearing(sys, news, at))
    ensures MessagesIn(Hearing(sys, news, at).inputs) == MessagesIn(sys.inputs) + MessagesIn(news)
  {
    InputsConcat(sys.origin.page, sys.inputs, news);
    TimedConcat(sys.inputs, news, sys.now, at);
    DefiniteConcat(MessagesIn(sys.inputs), MessagesIn(news));
  }

  // ---- the invariant ---------------------------------------------------------------------------

  /** A client in step with the log since its origin. */
  ghost predicate Tracks(w: Wire, tl: seq<WatchEvent>, o: Origin, client: Client, base: nat, q: nat) {
    && base <= o.start <= base + 1 && (o.clean ==> base == o.start)
    && InStep(w, tl, base, o.page.rows, client, q)
  }

  ghost predicate Tracking(w: Wire, tl: seq<WatchEvent>, o: Origin, client: Client) {
    exists base: nat, q: nat :: Tracks(w, tl, o, client, base, q)
  }

  /** The subscription resumes from where the client stood. */
  ghost predicate ResumesAt(tl: seq<WatchEvent>, sub: Sub, q: nat) {
    && 0 < q <= sub.joined <= |tl| && sub.since == tl[q - 1].id && sub.since > 0
    && |Above(tl[..sub.joined], sub.since)| <= REPLAY_BUFFER_SIZE
  }

  ghost predicate Resumes(w: Wire, tl: seq<WatchEvent>, o: Origin, before: Client, sub: Sub) {
    exists base: nat, q: nat :: base < q && Tracks(w, tl, o, before, base, q) && ResumesAt(tl, sub, q)
  }

  ghost predicate Starts(o: Origin, before: Client, sub: Sub) {
    && before.rows == o.page.rows && sub.since == 0 && sub.joined == o.start
    && (o.clean ==> sub.from == sub.joined)
  }

  ghost predicate SubscriptionFits(w: Wire, tl: seq<WatchEvent>, o: Origin, before: Client, sub: Sub) {
    if before.lastEventID == "" then Starts(o, before, sub) else Resumes(w, tl, o, before, sub)
  }

  /** The client when the connection was opened. */
  function Before(sys: System): Client
    requires sys.link.Some?
  {
    Client(ApplyAll(sys.origin.page.rows, sys.link.value.earlier), sys.link.value.id)
  }

  ghost predicate LinkFits(w: Wire, sys: System) {
    sys.link.Some? ==>
      var link := sys.link.value;
      && link.ch in sys.server.subs && SubOf(sys).tenant == sys.tenant
      && SubscriptionFits(w, Log(sys), sys.origin, Before(sys), SubOf(sys))
      && (link.id == "" ==> link.earlier == [] && (sys.origin.clean ==> JoinedClean(sys.server, link.ch)))
  }

  /** What has been read of the stream is what its first characters say. */
  ghost predicate LinkReads(w: Wire, sys: System) {
    sys.link.Some? && sys.link.value.ch in sys.server.subs ==>
      var link := sys.link.value;
      var p := Parsed(w, link.id, Stream(SubOf(sys)), link.arrived);
      && link.arrived <= |Bytes(w, SubOf(sys))|
      && link.parser == Drained(p) && sys.lastEventID == p.lastEventID
      && MessagesIn(sys.inputs) == link.earlier + Decoded(w, p.dispatched)
  }

  /** A source that inherits its event ID has one as soon as it has heard anything. */
  ghost predicate KeepsID(w: Wire, sys: System) {
    w.inherits && sys.lastEventID == "" ==> MessagesIn(sys.inputs) == []
  }

  ghost predicate Kept(w: Wire, sys: System) {
    && Inv(sys.server) && PageKept(sys)
    && Tracking(w, Log(sys), sys.origin, Reader(sys))
    && LinkFits(w, sys)
  }

  // ---- the log only grows ------------------------------------------------------------------------

  lemma LogGrows(s: State, a: Action, tenant: string)
    ensures TenantLog(s.log, tenant) <= TenantLog(Exec(s, a).log, tenant)
  {
    if a.Publish? && Enabled(s, a) {
      TenantLogSnoc(s.log, Published(a.tenant, WatchEvent(a.kind, a.app, |s.log| + 1)), tenant);
    }
  }

  predicate SameRequest(sub: Sub, sub': Sub) {
    sub'.tenant == sub.tenant && sub'.since == sub.since && sub'.joined == sub.joined
  }

  lemma RequestStays(s: State, a: Action, ch: nat)
    requires ch in s.subs
    ensures ch in Exec(s, a).subs && SameRequest(s.subs[ch], Exec(s, a).subs[ch])
  {
  }

  lemma TracksLonger(
    w: Wire, tl: seq<WatchEvent>, tl': seq<WatchEvent>, o: Origin, client: Client, base: nat, q: nat)
    requires tl <= tl' && Tracks(w, tl, o, client, base, q)
    ensures Tracks(w, tl', o, client, base, q)
  {
    assert tl'[base..q] == tl[base..q];
  }

  lemma TrackingLonger(w: Wire, tl: seq<WatchEvent>, tl': seq<WatchEvent>, o: Origin, client: Client)
    requires tl <= tl' && Tracking(w, tl, o, client)
    ensures Tracking(w, tl', o, client)
  {
    var base: nat, q: nat :| Tracks(w, tl, o, client, base, q);
    TracksLonger(w, tl, tl', o, client, base, q);
  }

  lemma ResumesLonger(
    w: Wire, tl: seq<WatchEvent>, tl': seq<WatchEvent>, o: Origin, before: Client, sub: Sub, sub': Sub)
    requires tl <= tl' && SameRequest(sub, sub') && Resumes(w, tl, o, before, sub)
    ensures Resumes(w, tl', o, before, sub')
  {
    var base: nat, q: nat :| base < q && Tracks(w, tl, o, before, base, q) && ResumesAt(tl, sub, q);
    TracksLonger(w, tl, tl', o, before, base, q);
    assert tl'[..sub.joined] == tl[..sub.joined];
    assert ResumesAt(tl', sub', q);
  }

  // ---- every step keeps it -------------------------------------------------------------------------

  lemma ServerKeepsFit(w: Wire, sys: System, a: Action)
    requires Inv(sys.server) && LinkFits(w, sys) && sys.link.Some? && Enabled(sys.server, a)
    ensures LinkFits(w, sys.(server := Exec(sys.server, a)))
  {
    var sys' := sys.(server := Exec(sys.server, a));
    var ch := sys.link.value.ch;
    RequestStays(sys.server, a, ch);
    LogGrows(sys.server, a, sys.tenant);
    if sys.link.value.id != "" {
      ResumesLonger(w, Log(sys), Log(sys'), sys.origin, Before(sys), SubOf(sys), SubOf(sys'));
    } else if sys.origin.clean {
      ExecKeepsClean(sys.server, a, ch);
    }
  }

  lemma ServerKeeps(w: Wire, sys: System, a: Action)
    requires Kept(w, sys) && Enabled(sys.server, a)
    ensures Kept(w, sys.(server := Exec(sys.server, a)))
  {
    var sys' := sys.(server := Exec(sys.server, a));
    ExecKeepsInv(sys.server, a);
    LogGrows(sys.server, a, sys.tenant);
    TrackingLonger(w, Log(sys), Log(sys'), sys.origin, Reader(sys));
    if sys.link.Some? { ServerKeepsFit(w, sys, a); }
  }

  /** The header that the browser sends parses to the ID of the last event it saw. */
  lemma SinceIsLastSeen(id: string, tl: seq<WatchEvent>, q: nat, limit: nat)
    requires 0 < q <= |tl| && id == FormatNat(tl[q - 1].id)
    requires tl[q - 1].id <= limit <= MAX_INT64
    ensures id != "" && ParseLastEventID(id) == tl[q - 1].id
  {
    ParseFormat(tl[q - 1].id);
  }

  lemma ConnectResumes(w: Wire, sys: System, sub: Sub)
    requires Kept(w, sys) && sys.lastEventID != ""
    requires |sys.server.log| <= MAX_INT64 && |Above(Log(sys), Since(sys))| <= REPLAY_BUFFER_SIZE
    requires sub.since == Since(sys) && sub.joined == |Log(sys)|
    ensures Resumes(w, Log(sys), sys.origin, Reader(sys), sub)
  {
    var tl := Log(sys);
    var base: nat, q: nat :| Tracks(w, tl, sys.origin, Reader(sys), base, q);
    TenantLogIncreasing(sys.server.log, sys.tenant);
    SinceIsLastSeen(sys.lastEventID, tl, q, |sys.server.log|);
    ResumesHere(tl, sub, q);
    assert base < q;
  }

  lemma ResumesHere(tl: seq<WatchEvent>, sub: Sub, q: nat)
    requires 0 < q <= |tl| == sub.joined && sub.since == tl[q - 1].id && sub.since > 0
    requires |Above(tl, sub.since)| <= REPLAY_BUFFER_SIZE
    ensures ResumesAt(tl, sub, q)
  {
    assert tl[..sub.joined] == tl;
  }

  lemma FreshTracks(w: Wire, tl: seq<WatchEvent>, o: Origin, client: Client)
    requires o.start == |tl| && client == Client(o.page.rows, "")
    ensures Tracking(w, tl, o, client)
  {
    assert tl[|tl|..|tl|] == [];
    assert Tracks(w, tl, o, client, |tl|, |tl|);
  }

  lemma OpeningKeepsLog(w: Wire, sys: System, ch: nat)
    ensures Log(Opening(w, sys, ch)) == Log(sys)
  {
    assert Exec(sys.server, Subscribe(ch, sys.tenant, Since(sys))).log == sys.server.log;
  }

  lemma ConnectFits(w: Wire, sys: System, ch: nat)
    requires Kept(w, sys) && Can(w, sys, Connect(ch)) && Sound(w, sys, Connect(ch))
    ensures LinkFits(w, Opening(w, sys, ch))
  {
    var sys' := Opening(w, sys, ch);
    OpeningKeepsLog(w, sys, ch);
    if sys.lastEventID != "" {
      assert Before(sys') == Reader(sys);
      ConnectResumes(w, sys, SubOf(sys'));
    }
  }

  lemma ConnectTracks(w: Wire, sys: System, ch: nat)
    requires Kept(w, sys) && Can(w, sys, Connect(ch))
    ensures PageKept(Opening(w, sys, ch))
    ensures Tracking(w, Log(sys), Opening(w, sys, ch).origin, Reader(Opening(w, sys, ch)))
  {
    var sys' := Opening(w, sys, ch);
    if sys.lastEventID == "" {
      FreshTracks(w, Log(sys), sys'.origin, Reader(sys'));
    } else {
      assert Reader(sys') == Reader(sys);
    }
  }

  lemma ConnectKeeps(w: Wire, sys: System, ch: nat)
    requires Kept(w, sys) && Can(w, sys, Connect(ch)) && Sound(w, sys, Connect(ch))
    ensures Kept(w, Opening(w, sys, ch))
  {
    ExecKeepsInv(sys.server, Subscribe(ch, sys.tenant, Since(sys)));
    ConnectFits(w, sys, ch);
    ConnectTracks(w, sys, ch);
    OpeningKeepsLog(w, sys, ch);
  }

  // ---- what arrives on a connection ---------------------------------------------------------------------

  /** Where a stream comes from: the end of the replay, and the live stretch it may overlap by one event. */
  datatype Span = Span(joined: nat, from: nat, to: nat)

  function SpanOf(sub: Sub): Span { Span(sub.joined, sub.from, sub.from + |sub.received|) }

  ghost predicate InLog(tl: seq<WatchEvent>, at: Span) {
    at.from <= at.joined <= at.from + 1 && at.joined <= |tl| && at.from <= at.to <= |tl|
  }

  ghost predicate Begins(tl: seq<WatchEvent>, o: Origin, before: Client, events: seq<WatchEvent>, at: Span) {
    && InLog(tl, at) && before.rows == o.page.rows && at.joined == o.start && (o.clean ==> at.from == o.start)
    && events == tl[at.from..at.to]
  }

  ghost predicate Continues(
    w: Wire, tl: seq<WatchEvent>, o: Origin, before: Client, events: seq<WatchEvent>, at: Span, base: nat, q: nat)
  {
    && InLog(tl, at) && base < q <= at.joined && Tracks(w, tl, o, before, base, q)
    && events == tl[q..at.joined] + tl[at.from..at.to]
  }

  /** The stream is a stretch of the log, or a replay from where the client stood and then such a stretch. */
  ghost predicate Shaped(
    w: Wire, tl: seq<WatchEvent>, o: Origin, before: Client, events: seq<WatchEvent>, at: Span)
  {
    if before.lastEventID == "" then Begins(tl, o, before, events, at)
    else exists base: nat, q: nat :: Continues(w, tl, o, before, events, at, base, q)
  }

  lemma ResumedIsShaped(w: Wire, tl: seq<WatchEvent>, o: Origin, before: Client, sub: Sub, base: nat, q: nat)
    requires Increasing(tl) && Given(tl, sub) && sub.drops == 0
    requires base < q && Tracks(w, tl, o, before, base, q) && ResumesAt(tl, sub, q)
    ensures Continues(w, tl, o, before, Stream(sub), SpanOf(sub), base, q)
  {
    var events, at := ResumedSpan(tl, sub, q);
    assert Continues(w, tl, o, before, events, at, base, q);
  }

  lemma ResumedSpan(tl: seq<WatchEvent>, sub: Sub, q: nat) returns (events: seq<WatchEvent>, at: Span)
    requires Increasing(tl) && Given(tl, sub) && sub.drops == 0 && ResumesAt(tl, sub, q)
    ensures events == Stream(sub) && at == SpanOf(sub)
    ensures InLog(tl, at) && q <= at.joined && events == tl[q..at.joined] + tl[at.from..at.to]
  {
    ResumedParts(tl, sub, q);
    events, at := Stream(sub), SpanOf(sub);
  }

  lemma SubscriptionIsShaped(w: Wire, tl: seq<WatchEvent>, o: Origin, before: Client, sub: Sub)
    requires Increasing(tl) && Given(tl, sub) && sub.drops == 0
    requires SubscriptionFits(w, tl, o, before, sub)
    ensures Shaped(w, tl, o, before, Stream(sub), SpanOf(sub))
  {
    if before.lastEventID == "" {
      FirstStream(tl, sub);
    } else {
      var base: nat, q: nat :| base < q && Tracks(w, tl, o, before, base, q) && ResumesAt(tl, sub, q);
      ResumedIsShaped(w, tl, o, before, sub, base, q);
    }
  }

  lemma LinkIsShaped(w: Wire, sys: System)
    requires Kept(w, sys) && sys.link.Some? && SubOf(sys).drops == 0
    ensures var sub := SubOf(sys);
            && Shaped(w, Log(sys), sys.origin, Before(sys), Stream(sub), SpanOf(sub))
            && (sub.queue == [] && sub.live && UpToDate(sys.server, sys.link.value.ch) ==> SpanOf(sub).to == |Log(sys)|)
  {
    var sub := SubOf(sys);
    assert SubOk(sys.server, sys.link.value.ch, sub);
    TenantLogIncreasing(sys.server.log, sys.tenant);
    ReceivedStretch(Log(sys), sub);
    SubscriptionIsShaped(w, Log(sys), sys.origin, Before(sys), sub);
  }

  lemma FirstTracks(
    w: Wire, tl: seq<WatchEvent>, o: Origin, before: Client, events: seq<WatchEvent>, at: Span, j: nat, after: Client)
    requires before.lastEventID == "" && Begins(tl, o, before, events, at) && Saw(w, before, events, j, after)
    ensures Tracking(w, tl, o, after)
  {
    FirstRead(w, tl, at.from, at.to, events, before, j, after);
    assert Tracks(w, tl, o, after, at.from, at.from + j);
  }

  lemma StretchTracks(
    w: Wire, tl: seq<WatchEvent>, o: Origin, before: Client, events: seq<WatchEvent>, at: Span,
    base: nat, q: nat, j: nat, after: Client)
    requires Continues(w, tl, o, before, events, at, base, q) && Saw(w, before, events, j, after)
    ensures Tracking(w, tl, o, after)
  {
    ResumedRead(w, tl, base, o.page.rows, before, q, at.joined, at.from, at.to, events, j, after);
    assert Tracks(w, tl, o, after, base, ReadTo(q, at.from, at.joined - q, j));
  }

  lemma ReadingTracks(
    w: Wire, tl: seq<WatchEvent>, o: Origin, before: Client, events: seq<WatchEvent>, at: Span, j: nat, after: Client)
    requires Shaped(w, tl, o, before, events, at) && Saw(w, before, events, j, after)
    ensures Tracking(w, tl, o, after)
  {
    if before.lastEventID == "" {
      FirstTracks(w, tl, o, before, events, at, j, after);
    } else {
      var base: nat, q: nat :| Continues(w, tl, o, before, events, at, base, q);
      StretchTracks(w, tl, o, before, events, at, base, q, j, after);
    }
  }

  // ---- reading on -------------------------------------------------------------------------------------

  lemma {:induction false} DecodedConcat(w: Wire, a: seq<string>, b: seq<string>)
    ensures Decoded(w, a + b) == Decoded(w, a) + Decoded(w, b)
  {
    if b == [] {
      assert a + b == a;
    } else {
      var init, last := b[..|b| - 1], b[|b| - 1];
      DecodedConcat(w, a, init);
      Regroup(a, b);
      assert (a + init + [last])[..|a + init|] == a + init;
      Assoc(Decoded(w, a), Decoded(w, init), if w.decode(last).Some? then [w.decode(last).value] else []);
    }
  }

  lemma ParsedPieces(w: Wire, id: string, events: seq<WatchEvent>, from: nat, to: nat)
    requires from <= to <= |StreamBytes(w, events)|
    ensures Parsed(w, id, events, to) == Read(Parsed(w, id, events, from), StreamBytes(w, events)[from..to])
  {
    var bytes, o := StreamBytes(w, events), Opened(w.inherits, id);
    assert (if from < |bytes| then bytes[..from] else bytes) == bytes[..from];
    assert (if to < |bytes| then bytes[..to] else bytes) == bytes[..to];
    assert bytes[..to] == bytes[..from] + bytes[from..to];
    ReadConcat(o, bytes[..from], bytes[from..to]);
  }

  /** Reading in pieces is reading at once. */
  lemma ReadOn(w: Wire, id: string, events: seq<WatchEvent>, from: nat, to: nat)
    requires from <= to <= |StreamBytes(w, events)|
    ensures var p, q := Parsed(w, id, events, from), Parsed(w, id, events, to);
            var r := Read(Drained(p), StreamBytes(w, events)[from..to]);
            && Drained(q) == Drained(r) && q.lastEventID == r.lastEventID
            && Decoded(w, q.dispatched) == Decoded(w, p.dispatched) + Decoded(w, r.dispatched)
  {
    ParsedPieces(w, id, events, from, to);
    PiecesDecode(w, Parsed(w, id, events, from), StreamBytes(w, events)[from..to]);
  }

  lemma PiecesDecode(w: Wire, p: Parser, piece: string)
    ensures var q, r := Read(p, piece), Read(Drained(p), piece);
            && Drained(q) == Drained(r) && q.lastEventID == r.lastEventID
            && Decoded(w, q.dispatched) == Decoded(w, p.dispatched) + Decoded(w, r.dispatched)
  {
    ReadDrained(p, piece);
    DecodedConcat(w, p.dispatched, Read(Drained(p), piece).dispatched);
  }

  lemma {:induction false} MessagesAreDefinite(w: Wire, events: seq<WatchEvent>)
    ensures AllDefinite(MessagesOf(w, events))
  {
    if events != [] { MessagesAreDefinite(w, events[..|events| - 1]); }
  }

  lemma LaterAreDefinite(earlier: seq<Message>, news: seq<Message>)
    requires AllDefinite(earlier + news)
    ensures AllDefinite(news)
  {
    forall i | 0 <= i < |news| ensures Definite(news[i]) { assert (earlier + news)[|earlier| + i] == news[i]; }
  }

  /** After a further arrival the reader is where one reading of all that has arrived leads. */
  lemma ArrivedReads(w: Wire, sys: System, n: nat, at: int)
    requires Faithful(w) && PageKept(sys) && LinkReads(w, sys) && Can(w, sys, Arrive(n, at))
    ensures var sys' := Arrived(w, sys, n, at);
            var p := Parsed(w, sys.link.value.id, Stream(SubOf(sys)), n);
            && PageKept(sys') && LinkReads(w, sys') && sys'.lastEventID == p.lastEventID
            && MessagesIn(sys'.inputs) == sys.link.value.earlier + Decoded(w, p.dispatched)
  {
    var link, events := sys.link.value, Stream(SubOf(sys));
    var p, q := Parsed(w, link.id, events, link.arrived), Parsed(w, link.id, events, n);
    var r := Read(link.parser, StreamBytes(w, events)[link.arrived..n]);
    ReadOn(w, link.id, events, link.arrived, n);
    var news := Decoded(w, r.dispatched);
    var j := ConnectionReads(w, link.id, events, n);
    MessagesAreDefinite(w, events[..j]);
    LaterAreDefinite(Decoded(w, p.dispatched), news);
    HeardAllIs(news, at);
    HearingKeepsPage(sys, HeardAll(news, at), at);
    Assoc(link.earlier, Decoded(w, p.dispatched), news);
  }

  lemma ArrivedSaw(w: Wire, sys: System, n: nat, at: int) returns (j: nat)
    requires Faithful(w) && PageKept(sys) && LinkReads(w, sys) && Can(w, sys, Arrive(n, at))
    ensures Saw(w, Before(sys), Stream(SubOf(sys)), j, Reader(Arrived(w, sys, n, at)))
    ensures j == 0 ==> MessagesIn(Arrived(w, sys, n, at).inputs) == sys.link.value.earlier
  {
    var events := Stream(SubOf(sys));
    ArrivedReads(w, sys, n, at);
    j := ConnectionReads(w, sys.link.value.id, events, n);
    ApplyConcat(sys.origin.page.rows, sys.link.value.earlier, MessagesOf(w, events[..j]));
    assert j == 0 ==> sys.link.value.earlier + MessagesOf(w, events[..j]) == sys.link.value.earlier;
  }

  lemma ArriveKeeps(w: Wire, sys: System, n: nat, at: int)
    requires Faithful(w) && Kept(w, sys) && LinkReads(w, sys)
    requires Can(w, sys, Arrive(n, at)) && Sound(w, sys, Arrive(n, at))
    ensures Kept(w, Arrived(w, sys, n, at))
  {
    ArrivedReads(w, sys, n, at);
    var j := ArrivedSaw(w, sys, n, at);
    LinkIsShaped(w, sys);
    ReadingTracks(
      w, Log(sys), sys.origin, Before(sys), Stream(SubOf(sys)), SpanOf(SubOf(sys)), j, Reader(Arrived(w, sys, n, at)));
  }

  lemma RecreateKeeps(w: Wire, sys: System)
    requires Kept(w, sys)
    ensures Kept(w, Recreated(sys))
  {
    var base: nat, q: nat :| Tracks(w, Log(sys), sys.origin, Reader(sys), base, q);
    assert Log(sys)[base..base] == [];
    assert Tracks(w, Log(sys), Recreated(sys).origin, Reader(Recreated(sys)), base, base);
  }

  /** What the user does changes the page, not what has been heard. */
  lemma DeletingKeeps(w: Wire, sys: System, input: Input)
    requires Kept(w, sys) && !input.Heard? && input.at >= sys.now
    ensures Kept(w, Hearing(sys, [input], input.at))
    ensures MessagesIn(Hearing(sys, [input], input.at).inputs) == MessagesIn(sys.inputs)
  {
    HearingKeepsPage(sys, [input], input.at);
    assert MessagesIn(sys.inputs) + [] == MessagesIn(sys.inputs);
    assert Reader(Hearing(sys, [input], input.at)) == Reader(sys);
  }

  lemma StepKeeps(w: Wire, sys: System, step: Step)
    requires Faithful(w) && Kept(w, sys) && LinkReads(w, sys) && Sound(w, sys, step)
    ensures Kept(w, ExecStep(w, sys, step))
  {
    if Can(w, sys, step) {
      match step
      case Server(a) => ServerKeeps(w, sys, a);
      case Connect(ch) => ConnectKeeps(w, sys, ch);
      case Arrive(n, at) => ArriveKeeps(w, sys, n, at);
      case Disconnect =>
      case Recreate => RecreateKeeps(w, sys);
      case NoteDelete(name, at) => DeletingKeeps(w, sys, Marked(name, at));
      case DeleteAccepted(name, at) => DeletingKeeps(w, sys, Swapped(name, at));
    }
  }

  // ---- what has arrived stays what it was --------------------------------------------------------

  lemma WrittenSnoc(w: Wire, events: seq<WatchEvent>, evt: WatchEvent)
    ensures StreamBytes(w, events) <= StreamBytes(w, events + [evt])
  {
    assert (events + [evt])[..|events|] == events;
    var frames, frames' := FramesOf(w, events), FramesOf(w, events + [evt]);
    if frames' != frames {
      assert frames'[..|frames'| - 1] == frames;
    }
  }

  lemma ParsedLonger(w: Wire, id: string, events: seq<WatchEvent>, longer: seq<WatchEvent>, n: nat)
    requires StreamBytes(w, events) <= StreamBytes(w, longer) && n <= |StreamBytes(w, events)|
    ensures Parsed(w, id, longer, n) == Parsed(w, id, events, n)
  {
    var a, b := StreamBytes(w, events), StreamBytes(w, longer);
    assert (if n < |a| then a[..n] else a) == (if n < |b| then b[..n] else b);
  }

  lemma StreamGrows(w: Wire, s: State, a: Action, ch: nat)
    requires ch in s.subs && Enabled(s, a)
    ensures ch in Exec(s, a).subs && Bytes(w, s.subs[ch]) <= Bytes(w, Exec(s, a).subs[ch])
  {
    var sub, sub' := s.subs[ch], Exec(s, a).subs[ch];
    if a == Receive(ch) {
      assert Stream(sub') == Stream(sub) + [sub.queue[0]];
      WrittenSnoc(w, Stream(sub), sub.queue[0]);
    } else {
      assert Stream(sub') == Stream(sub);
    }
  }

  lemma ServerKeepsReading(w: Wire, sys: System, a: Action)
    requires LinkReads(w, sys) && Enabled(sys.server, a) && sys.link.Some? && sys.link.value.ch in sys.server.subs
    ensures LinkReads(w, sys.(server := Exec(sys.server, a)))
  {
    var link, sys' := sys.link.value, sys.(server := Exec(sys.server, a));
    StreamGrows(w, sys.server, a, link.ch);
    ParsedLonger(w, link.id, Stream(SubOf(sys)), Stream(SubOf(sys')), link.arrived);
  }

  lemma NothingArrived(w: Wire, id: string, events: seq<WatchEvent>)
    ensures Parsed(w, id, events, 0) == Opened(w.inherits, id)
  {
    assert StreamBytes(w, events)[..0] == "";
  }

  lemma ConnectReads(w: Wire, sys: System, ch: nat)
    requires Can(w, sys, Connect(ch))
    ensures LinkReads(w, Opening(w, sys, ch))
  {
    var sys' := Opening(w, sys, ch);
    NothingArrived(w, sys.lastEventID, Stream(SubOf(sys')));
    assert MessagesIn(sys'.inputs) + [] == MessagesIn(sys'.inputs);
  }

  lemma StepKeepsReading(w: Wire, sys: System, step: Step)
    requires Faithful(w) && Kept(w, sys) && LinkReads(w, sys)
    ensures LinkReads(w, ExecStep(w, sys, step))
  {
    if Can(w, sys, step) {
      match step
      case Server(a) => if sys.link.Some? { ServerKeepsReading(w, sys, a); }
      case Connect(ch) => ConnectReads(w, sys, ch);
      case Arrive(n, at) => ArrivedReads(w, sys, n, at);
      case Disconnect =>
      case Recreate =>
      case NoteDelete(name, at) => DeletingKeeps(w, sys, Marked(name, at));
      case DeleteAccepted(name, at) => DeletingKeeps(w, sys, Swapped(name, at));
    }
  }

  lemma ArriveKeepsID(w: Wire, sys: System, n: nat, at: int)
    requires Faithful(w) && Kept(w, sys) && LinkReads(w, sys) && Can(w, sys, Arrive(n, at))
    ensures KeepsID(w, Arrived(w, sys, n, at))
  {
    var j := ArrivedSaw(w, sys, n, at);
  }

  lemma StepKeepsID(w: Wire, sys: System, step: Step)
    requires Faithful(w) && Kept(w, sys) && LinkReads(w, sys) && KeepsID(w, sys)
    ensures KeepsID(w, ExecStep(w, sys, step))
  {
    if Can(w, sys, step) {
      match step
      case Arrive(n, at) => ArriveKeepsID(w, sys, n, at);
      case NoteDelete(name, at) => DeletingKeeps(w, sys, Marked(name, at));
      case DeleteAccepted(name, at) => DeletingKeeps(w, sys, Swapped(name, at));
      case _ =>
    }
  }

  // ---- the theorems ---------------------------------------------------------------------------------

  /** The names whose rows accepted deletes took out. */
  function DeletedIn(steps: seq<Step>): set<string> {
    if steps == [] then {}
    else
      var last := steps[|steps| - 1];
      DeletedIn(steps[..|steps| - 1]) + if last.DeleteAccepted? then {last.name} else {}
  }

  function DeletedBy(inputs: seq<Input>): set<string> {
    if inputs == [] then {}
    else
      var last := inputs[|inputs| - 1];
      DeletedBy(inputs[..|inputs| - 1]) + if last.Swapped? then {last.name} else {}
  }

  /** The same rows, but for some that deletes have taken out. */
  ghost predicate SameButDeleted(before: Table, after: Table, deleted: set<string>) {
    forall name :: RowAt(after, name) == RowAt(before, name) || (name in deleted && RowAt(after, name) == None)
  }

  /** A source that inherits its event ID and is never recreated starts over only from rows no message has changed. */
  ghost predicate SameRows(w: Wire, sys: System, rows: Table, steps: seq<Step>) {
    w.inherits && Recreate !in steps ==> SameButDeleted(rows, sys.origin.page.rows, DeletedIn(steps))
  }

  /** A page that has heard nothing still has its first rows, but for those its user deleted. */
  lemma {:induction false} UnheardPage(page: Page, inputs: seq<Input>)
    requires MessagesIn(inputs) == []
    ensures SameButDeleted(page.rows, After(page, inputs).rows, DeletedBy(inputs))
  {
    if inputs != [] { UnheardPage(page, inputs[..|inputs| - 1]); }
  }

  lemma StepKeepsRows(w: Wire, sys: System, step: Step)
    requires PageKept(sys) && KeepsID(w, sys) && w.inherits && step != Recreate
    ensures SameButDeleted(sys.origin.page.rows, ExecStep(w, sys, step).origin.page.rows, DeletedBy(sys.inputs))
  {
    if step.Connect? && sys.lastEventID == "" { UnheardPage(sys.origin.page, sys.inputs); }
  }

  lemma {:induction false} HeardAllDeletesNothing(msgs: seq<Message>, at: int)
    ensures DeletedBy(HeardAll(msgs, at)) == {}
  {
    if msgs != [] {
      var init := HeardAll(msgs[..|msgs| - 1], at);
      HeardAllDeletesNothing(msgs[..|msgs| - 1], at);
      assert (init + [Heard(msgs[|msgs| - 1], at)])[..|init|] == init;
    }
  }

  lemma {:induction false} DeletedConcat(a: seq<Input>, b: seq<Input>)
    ensures DeletedBy(a + b) == DeletedBy(a) + DeletedBy(b)
  {
    if b == [] {
      assert a + b == a;
    } else {
      DeletedConcat(a, b[..|b| - 1]);
      assert (a + b)[..|a + b| - 1] == a + b[..|b| - 1];
    }
  }

  lemma StepDeletes(w: Wire, sys: System, step: Step)
    ensures DeletedBy(ExecStep(w, sys, step).inputs) <= DeletedBy(sys.inputs) + DeletedIn([step])
  {
    if Can(w, sys, step) {
      match step
      case Arrive(n, at) =>
        var parser := Read(sys.link.value.parser, Bytes(w, SubOf(sys))[sys.link.value.arrived..n]);
        HeardAllDeletesNothing(Decoded(w, parser.dispatched), at);
        DeletedConcat(sys.inputs, HeardAll(Decoded(w, parser.dispatched), at));
      case NoteDelete(name, at) => DeletedConcat(sys.inputs, [Marked(name, at)]);
      case DeleteAccepted(name, at) => DeletedConcat(sys.inputs, [Swapped(name, at)]);
      case _ =>
    }
  }

  lemma DeletedSnoc(steps: seq<Step>, step: Step)
    ensures DeletedIn(steps + [step]) == DeletedIn(steps) + DeletedIn([step])
  {
    assert (steps + [step])[..|steps|] == steps && [step][..0] == [];
  }

  lemma StepKeepsTenant(w: Wire, sys: System, step: Step)
    ensures ExecStep(w, sys, step).tenant == sys.tenant
  {
  }

  lemma BeginKept(w: Wire, tenant: string, page: Page, now: int)
    ensures var sys := Begin(tenant, page, now); Kept(w, sys) && LinkReads(w, sys) && KeepsID(w, sys)
  {
    var sys := Begin(tenant, page, now);
    FreshTracks(w, [], sys.origin, Reader(sys));
  }

  ghost predicate RunKept(w: Wire, tenant: string, rows: Table, steps: seq<Step>, sys: System) {
    && Kept(w, sys) && LinkReads(w, sys) && KeepsID(w, sys)
    && sys.tenant == tenant && SameRows(w, sys, rows, steps) && DeletedBy(sys.inputs) <= DeletedIn(steps)
  }

  lemma {:induction false} RunKeeps(w: Wire, tenant: string, page: Page, now: int, steps: seq<Step>)
    requires Faithful(w) && Smooth(w, Begin(tenant, page, now), steps)
    ensures RunKept(w, tenant, page.rows, steps, RunSteps(w, Begin(tenant, page, now), steps))
  {
    if steps == [] {
      BeginKept(w, tenant, page, now);
    } else {
      var init, last := steps[..|steps| - 1], steps[|steps| - 1];
      RunKeeps(w, tenant, page, now, init);
      StepKept(w, tenant, page.rows, init, RunSteps(w, Begin(tenant, page, now), init), last);
      assert init + [last] == steps;
    }
  }

  lemma StepKept(w: Wire, tenant: string, rows: Table, steps: seq<Step>, sys: System, step: Step)
    requires Faithful(w) && RunKept(w, tenant, rows, steps, sys) && Sound(w, sys, step)
    ensures RunKept(w, tenant, rows, steps + [step], ExecStep(w, sys, step))
  {
    StepKeeps(w, sys, step);
    StepKeepsReading(w, sys, step);
    StepKeepsID(w, sys, step);
    StepKeepsTenant(w, sys, step);
    StepDeletes(w, sys, step);
    DeletedSnoc(steps, step);
    if w.inherits && Recreate !in steps + [step] {
      assert Recreate !in steps && step != Recreate;
      StepKeepsRows(w, sys, step);
    }
  }

  /**
    In every run, however often the connection breaks and wherever in a frame, all the messages heard since
    the origin say of every row what the tenant's log says, from where the source first connected up to some
    event that is the last one seen as long as its ID is remembered; and the page's own rows are what the
    accepted deletes and the messages that came no sooner than five seconds after a mark make of the rows
    it had then.
   */
  lemma AlwaysInStep(w: Wire, tenant: string, page: Page, now: int, steps: seq<Step>)
    requires Faithful(w) && Smooth(w, Begin(tenant, page, now), steps)
    ensures var sys := RunSteps(w, Begin(tenant, page, now), steps);
            && sys.page.rows == ApplyAll(sys.origin.page.rows, LetThrough(sys.origin.page.pending, sys.inputs))
            && SameRows(w, sys, page.rows, steps)
            && exists base: nat, q: nat ::
                 && base <= sys.origin.start <= base + 1 && (sys.origin.clean ==> base == sys.origin.start)
                 && InStep(w, TenantLog(sys.server.log, tenant), base, sys.origin.page.rows, Reader(sys), q)
                 && Says(w.render, Reader(sys).rows, TenantLog(sys.server.log, tenant)[base..q], sys.origin.page.rows)
  {
    RunKeeps(w, tenant, page, now, steps);
    var sys := RunSteps(w, Begin(tenant, page, now), steps);
    RowsAreLetThrough(sys.origin.page, sys.inputs, sys.now);
    var base: nat, q: nat :| Tracks(w, Log(sys), sys.origin, Reader(sys), base, q);
    assert InStep(w, TenantLog(sys.server.log, tenant), base, sys.origin.page.rows, Reader(sys), q);
    MessagesSay(w, sys.origin.page.rows, Log(sys)[base..q]);
  }

  /** The rows are, name by name, what these events say of the rows before. */
  ghost predicate Says(render: App -> Option<string>, rows: Table, events: seq<WatchEvent>, before: Table) {
    forall name :: RowAt(rows, name) == LogWord(render, events, name, RowAt(before, name))
  }

  lemma MessagesSay(w: Wire, rows: Table, events: seq<WatchEvent>)
    ensures Says(w.render, ApplyAll(rows, MessagesOf(w, events)), events, rows)
  {
    forall name
      ensures RowAt(ApplyAll(rows, MessagesOf(w, events)), name) == LogWord(w.render, events, name, RowAt(rows, name))
    {
      RowIsLogWord(w, rows, events, name);
    }
  }

  /** All that was published has been fanned out, written and has arrived. */
  ghost predicate CaughtUp(w: Wire, sys: System) {
    && sys.link.Some? && sys.link.value.ch in sys.server.subs
    && var ch := sys.link.value.ch;
       && SubOf(sys).live && SubOf(sys).queue == [] && SubOf(sys).drops == 0 && UpToDate(sys.server, ch)
       && sys.link.value.arrived == |Bytes(w, SubOf(sys))|
  }

  /** The part of the log that counts for this source, and what it says of the rows. */
  ghost predicate WholeLog(w: Wire, sys: System, log: seq<WatchEvent>) {
    exists base: nat ::
      && base <= sys.origin.start <= base + 1 && (sys.origin.clean ==> base == sys.origin.start)
      && base <= |Log(sys)| && log == Log(sys)[base..]
  }

  lemma ReadToEnd(w: Wire, tl: seq<WatchEvent>, o: Origin, before: Client, events: seq<WatchEvent>, at: Span)
    returns (base: nat)
    requires Shaped(w, tl, o, before, events, at) && at.to == |tl|
    ensures base <= o.start <= base + 1 && (o.clean ==> base == o.start) && base <= |tl|
    ensures ApplyAll(before.rows, MessagesOf(w, events)) == ApplyAll(o.page.rows, MessagesOf(w, tl[base..|tl|]))
  {
    if before.lastEventID == "" {
      base := at.from;
    } else {
      var b: nat, q: nat :| Continues(w, tl, o, before, events, at, b, q);
      base := b;
      ResumedToEnd(w, tl, base, o.page.rows, before, q, at.joined, at.from, |tl|, events);
    }
  }

  lemma CaughtUpRead(w: Wire, sys: System)
    requires Faithful(w) && LinkReads(w, sys) && CaughtUp(w, sys)
    ensures Reader(sys).rows == ApplyAll(Before(sys).rows, MessagesOf(w, Stream(SubOf(sys))))
  {
    var link, events := sys.link.value, Stream(SubOf(sys));
    var j := ConnectionReads(w, link.id, events, link.arrived);
    ApplyConcat(sys.origin.page.rows, link.earlier, MessagesOf(w, events));
  }

  lemma TailToEnd(tl: seq<WatchEvent>, base: nat)
    requires base <= |tl|
    ensures tl[base..|tl|] == tl[base..]
  {
  }

  lemma CaughtUpRows(w: Wire, sys: System) returns (log: seq<WatchEvent>)
    requires Faithful(w) && Kept(w, sys) && LinkReads(w, sys) && CaughtUp(w, sys)
    ensures WholeLog(w, sys, log) && Reader(sys).rows == ApplyAll(sys.origin.page.rows, MessagesOf(w, log))
  {
    LinkIsShaped(w, sys);
    CaughtUpRead(w, sys);
    var base := ReadToEnd(w, Log(sys), sys.origin, Before(sys), Stream(SubOf(sys)), SpanOf(SubOf(sys)));
    TailToEnd(Log(sys), base);
    log := Log(sys)[base..];
  }

  /** A browser can catch up: what has been written can arrive, all of it, at any later time. */
  lemma CatchesUp(w: Wire, sys: System, at: int)
    requires LinkReads(w, sys) && sys.link.Some? && sys.link.value.ch in sys.server.subs && at >= sys.now
    requires SubOf(sys).live && SubOf(sys).queue == [] && SubOf(sys).drops == 0
    requires UpToDate(sys.server, sys.link.value.ch)
    ensures var all := Arrive(|Bytes(w, SubOf(sys))|, at);
            Can(w, sys, all) && Sound(w, sys, all) && CaughtUp(w, ExecStep(w, sys, all))
  {
  }

  /** A browser that has lost its connection can open another, reporting the event ID it has. */
  lemma Reconnects(w: Wire, sys: System, ch: nat)
    requires sys.link.Some? && ch !in sys.server.subs
    ensures var sys' := ExecStep(w, ExecStep(w, sys, Disconnect), Connect(ch));
            && sys'.link.Some? && sys'.link.value.ch == ch && sys'.page == sys.page
            && ch in sys'.server.subs && SubOf(sys').since == ParseLastEventID(sys.lastEventID)
            && SubOf(sys').tenant == sys.tenant
  {
  }

  lemma AllRead(w: Wire, client: Client, events: seq<WatchEvent>)
    requires Faithful(w)
    ensures Connected(w, client, events, |StreamBytes(w, events)|).rows == ApplyAll(client.rows, MessagesOf(w, events))
  {
    var j := ConnectionReads(w, client.lastEventID, events, |StreamBytes(w, events)|);
  }

  /**
    Resuming loses no message: once caught up, all that was heard, over however many connections, says of the
    rows what a single unbroken connection says that carries the tenant's log from the origin on.
   */
  lemma ResumedClientHeardItAll(w: Wire, tenant: string, page: Page, now: int, steps: seq<Step>)
    returns (log: seq<WatchEvent>)
    requires Faithful(w) && Smooth(w, Begin(tenant, page, now), steps)
    requires CaughtUp(w, RunSteps(w, Begin(tenant, page, now), steps))
    ensures var sys := RunSteps(w, Begin(tenant, page, now), steps);
            && WholeLog(w, sys, log) && SameRows(w, sys, page.rows, steps)
            && Reader(sys).rows == ApplyAll(sys.origin.page.rows, MessagesOf(w, log))
            && Reader(sys).rows == Connected(w, Client(sys.origin.page.rows, ""), log, |StreamBytes(w, log)|).rows
            && Says(w.render, Reader(sys).rows, log, sys.origin.page.rows)
  {
    RunKeeps(w, tenant, page, now, steps);
    var sys := RunSteps(w, Begin(tenant, page, now), steps);
    log := CaughtUpRows(w, sys);
    AllRead(w, Client(sys.origin.page.rows, ""), log);
    MessagesSay(w, sys.origin.page.rows, log);
  }

  /**
    For this name the page shows what another page from the same origin shows, whose inputs are other, if and
    only if the last words on it agree; and on a page where the name is settled the last word is the log's.
   */
  ghost predicate EndsAs(w: Wire, sys: System, log: seq<WatchEvent>, other: seq<Input>, name: string) {
    var o := sys.origin.page;
    var whole := LogWord(w.render, log, name, RowAt(o.rows, name));
    && AllDefinite(MessagesIn(sys.inputs)) && AllDefinite(MessagesIn(other))
    && (RowAt(sys.page.rows, name) == RowAt(After(o, other).rows, name) <==>
          LastWord(o, sys.inputs, name) == LastWord(o, other, name))
    && (Settled(o.pending, sys.inputs, name) ==> LastWord(o, sys.inputs, name) == whole)
    && (Settled(o.pending, other, name) ==> LastWord(o, other, name) == whole)
  }

  /** The inputs of a page whose connection never broke: the whole log, at whatever times, and any deletes. */
  ghost predicate Unbroken(w: Wire, log: seq<WatchEvent>, other: seq<Input>, end: int) {
    MessagesIn(other) == MessagesOf(w, log) && Timed(other, end)
  }

  lemma PageEndsAs(w: Wire, sys: System, log: seq<WatchEvent>, other: seq<Input>, end: int, name: string)
    requires PageKept(sys) && Reader(sys).rows == ApplyAll(sys.origin.page.rows, MessagesOf(w, log))
    requires Unbroken(w, log, other, end)
    ensures EndsAs(w, sys, log, other, name)
  {
    var o := sys.origin.page;
    MessagesAreDefinite(w, log);
    RowIsLogWord(w, o.rows, log, name);
    PagesAgreeIff(o, sys.inputs, other, name, sys.now, end);
    if Settled(o.pending, sys.inputs, name) { SettledIsWhole(o, sys.inputs, name); }
    if Settled(o.pending, other, name) { SettledIsWhole(o, other, name); }
  }

  /**
    Once caught up, a page that lost its connections ends as one that never lost any, from the same origin:
    name by name, they show the same rows exactly when the last words agree, and so whenever neither user
    deleted something of that name too shortly before, or after, the last message for it.
   */
  lemma ResumedPageEndsAsIfNeverDropped(w: Wire, tenant: string, page: Page, now: int, steps: seq<Step>)
    returns (log: seq<WatchEvent>)
    requires Faithful(w) && Smooth(w, Begin(tenant, page, now), steps)
    requires CaughtUp(w, RunSteps(w, Begin(tenant, page, now), steps))
    ensures var sys := RunSteps(w, Begin(tenant, page, now), steps);
            && WholeLog(w, sys, log) && SameRows(w, sys, page.rows, steps)
            && forall other, end, name | Unbroken(w, log, other, end) :: EndsAs(w, sys, log, other, name)
  {
    RunKeeps(w, tenant, page, now, steps);
    log := ResumedClientHeardItAll(w, tenant, page, now, steps);
    var sys := RunSteps(w, Begin(tenant, page, now), steps);
    forall other, end, name | Unbroken(w, log, other, end) ensures EndsAs(w, sys, log, other, name) {
      PageEndsAs(w, sys, log, other, end, name);
    }
  }

  // ---- where it ends ----------------------------------------------------------------------------------

  /** The event just before q is the last one the browser has seen. */
  ghost predicate LeftOffAt(sys: System, q: nat) {
    0 < q <= |Log(sys)| && sys.lastEventID == FormatNat(Log(sys)[q - 1].id)
  }

  /** What the server would replay on a connection opened now. */
  function Replayed(sys: System): seq<WatchEvent> { MissedEvents(Log(sys), Since(sys)) }

  lemma OpeningReplays(w: Wire, sys: System, ch: nat)
    requires Can(w, sys, Connect(ch))
    ensures Opening(w, sys, ch).server.subs[ch].missed == Replayed(sys)
  {
  }

  /** Any connection opened now is replayed the same, and that is all from q on iff it is at most 128 events. */
  ghost predicate ReplaysFrom(w: Wire, sys: System, q: nat) {
    && LeftOffAt(sys, q) && (Replayed(sys) == Log(sys)[q..] <==> |Log(sys)| - q <= 128)
    && ReplaysAlike(w, sys)
  }

  ghost predicate ReplaysAlike(w: Wire, sys: System) {
    forall ch | Can(w, sys, Connect(ch)) :: Opening(w, sys, ch).server.subs[ch].missed == Replayed(sys)
  }

  lemma AllOpeningsReplay(w: Wire, sys: System)
    ensures ReplaysAlike(w, sys)
  {
    forall ch | Can(w, sys, Connect(ch)) ensures Opening(w, sys, ch).server.subs[ch].missed == Replayed(sys) {
      OpeningReplays(w, sys, ch);
    }
  }

  lemma KeptReplays(w: Wire, sys: System) returns (q: nat)
    requires Kept(w, sys) && sys.lastEventID != "" && |sys.server.log| <= MAX_INT64
    ensures ReplaysFrom(w, sys, q)
  {
    q := SeenUpTo(w, sys);
    AllOpeningsReplay(w, sys);
  }

  /** A replay brings back all that was missed exactly when at most 128 newer events are in the log. */
  lemma ReplayIsCompleteIff(w: Wire, tenant: string, page: Page, now: int, steps: seq<Step>) returns (q: nat)
    requires Faithful(w) && Smooth(w, Begin(tenant, page, now), steps)
    requires var sys := RunSteps(w, Begin(tenant, page, now), steps);
             sys.lastEventID != "" && |sys.server.log| <= MAX_INT64
    ensures ReplaysFrom(w, RunSteps(w, Begin(tenant, page, now), steps), q)
  {
    var sys := RunSteps(w, Begin(tenant, page, now), steps);
    RunKeeps(w, tenant, page, now, steps);
    q := KeptReplays(w, sys);
  }

  lemma SeenUpTo(w: Wire, sys: System) returns (q: nat)
    requires Kept(w, sys) && sys.lastEventID != "" && |sys.server.log| <= MAX_INT64
    ensures LeftOffAt(sys, q)
    ensures Replayed(sys) == Log(sys)[q..] <==> |Log(sys)| - q <= REPLAY_BUFFER_SIZE
  {
    var base: nat, seen: nat :| Tracks(w, Log(sys), sys.origin, Reader(sys), base, seen);
    q := seen;
    TenantLogIncreasing(sys.server.log, sys.tenant);
    SinceIsLastSeen(sys.lastEventID, Log(sys), q, |sys.server.log|);
    ReplayFrom(Log(sys), q);
  }

  lemma ReplayFrom(tl: seq<WatchEvent>, q: nat)
    requires Increasing(tl) && 0 < q <= |tl| && tl[q - 1].id > 0
    ensures MissedEvents(tl, tl[q - 1].id) == tl[q..] <==> |tl| - q <= REPLAY_BUFFER_SIZE
  {
    var since := tl[q - 1].id;
    AboveIsTail(tl, since);
    ReplayIsSuffix(tl, since);
    assert q < |tl| ==> tl[q].id > since;
    assert FirstAbove(tl, since) == q;
  }

  /**
    A source without an event ID is replayed nothing: it starts over at the end of the log from the rows it has,
    without the events in between. That is a source that has seen no frame yet; one created anew after an error
    closed the old one; or one whose streams do not inherit the ID, after a connection that broke between the
    preamble and its first frame.
   */
  lemma NothingSeenNothingReplayed(w: Wire, tenant: string, page: Page, now: int, steps: seq<Step>, ch: nat)
    requires Faithful(w) && Smooth(w, Begin(tenant, page, now), steps)
    requires var sys := RunSteps(w, Begin(tenant, page, now), steps); Can(w, sys, Connect(ch)) && sys.lastEventID == ""
    ensures var sys := RunSteps(w, Begin(tenant, page, now), steps);
            var sys' := Opening(w, sys, ch);
            && sys'.origin.start == |Log(sys')| && Reader(sys') == Client(sys.page.rows, "") && sys'.page == sys.page
            && Stream(SubOf(sys')) == [] && SubOf(sys').since == 0
            && (w.inherits && Recreate !in steps ==> SameButDeleted(page.rows, sys.page.rows, DeletedIn(steps)))
  {
    RunKeeps(w, tenant, page, now, steps);
    var sys := RunSteps(w, Begin(tenant, page, now), steps);
    if w.inherits { UnheardPage(sys.origin.page, sys.inputs); }
  }

  // ---- what a recreated source never sees -----------------------------------------------------------------

  lemma StepKeepsStart(w: Wire, sys: System, step: Step)
    requires sys.origin.start <= |Log(sys)|
    ensures ExecStep(w, sys, step).origin.start <= |Log(ExecStep(w, sys, step))|
    ensures sys.origin.start <= ExecStep(w, sys, step).origin.start
  {
    if step.Server? { LogGrows(sys.server, step.a, sys.tenant); }
  }

  lemma {:induction false} StartsLater(w: Wire, sys: System, steps: seq<Step>)
    requires sys.origin.start <= |Log(sys)|
    ensures var sys' := RunSteps(w, sys, steps); sys.origin.start <= sys'.origin.start <= |Log(sys')|
  {
    if steps != [] {
      StartsLater(w, sys, steps[..|steps| - 1]);
      StepKeepsStart(w, RunSteps(w, sys, steps[..|steps| - 1]), steps[|steps| - 1]);
    }
  }

  lemma {:induction false} RunStepsConcat(w: Wire, sys: System, a: seq<Step>, b: seq<Step>)
    ensures RunSteps(w, sys, a + b) == RunSteps(w, RunSteps(w, sys, a), b)
  {
    if b == [] {
      assert a + b == a;
    } else {
      var init := b[..|b| - 1];
      RunStepsConcat(w, sys, a, init);
      assert (a + b)[..|a + b| - 1] == a + init;
    }
  }

  /** The run up to and including the next connection of a recreated source. */
  function Reopened(w: Wire, sys: System, ch: nat): System { Opening(w, Recreated(sys), ch) }

  lemma ReopenedSteps(w: Wire, sys: System, ch: nat)
    requires ch !in sys.server.subs
    ensures RunSteps(w, sys, [Recreate, Connect(ch)]) == Reopened(w, sys, ch)
  {
    RunStepsConcat(w, sys, [Recreate], [Connect(ch)]);
    assert [Recreate] + [Connect(ch)] == [Recreate, Connect(ch)];
    assert RunSteps(w, sys, [Recreate]) == Recreated(sys);
    assert Can(w, Recreated(sys), Connect(ch));
  }

  /**
    Whatever follows, a recreated source never sees the events logged before its next connection, except for the
    very last one, and that only if it is being fanned out just then: the messages heard from there on say what
    the log says from base on, and base is no earlier.
   */
  lemma RecreatedSourceSkipsTheGap(
    w: Wire, tenant: string, page: Page, now: int, steps: seq<Step>, ch: nat, more: seq<Step>)
    requires Faithful(w) && Smooth(w, Begin(tenant, page, now), steps + [Recreate, Connect(ch)] + more)
    requires ch !in RunSteps(w, Begin(tenant, page, now), steps).server.subs
    ensures var sys := RunSteps(w, Begin(tenant, page, now), steps);
            var sys' := RunSteps(w, Begin(tenant, page, now), steps + [Recreate, Connect(ch)] + more);
            && Reopened(w, sys, ch).origin == Origin(|Log(sys)|, !ReachesNewcomers(sys.server, tenant), sys.page)
            && |Log(sys)| <= sys'.origin.start
            && exists base: nat, q: nat ::
                 && |Log(sys)| <= base + 1 && (sys'.origin.clean ==> |Log(sys)| <= base)
                 && InStep(w, TenantLog(sys'.server.log, tenant), base, sys'.origin.page.rows, Reader(sys'), q)
  {
    var begin := Begin(tenant, page, now);
    var sys, all := RunSteps(w, begin, steps), steps + [Recreate, Connect(ch)] + more;
    RunStepsConcat(w, begin, steps, [Recreate, Connect(ch)]);
    RunStepsConcat(w, begin, steps + [Recreate, Connect(ch)], more);
    ReopenedSteps(w, sys, ch);
    TenantStays(w, begin, steps);
    StartsLater(w, Reopened(w, sys, ch), more);
    AlwaysInStep(w, tenant, page, now, all);
    var sys' := RunSteps(w, begin, all);
    var base: nat, q: nat :|
      && base <= sys'.origin.start <= base + 1 && (sys'.origin.clean ==> base == sys'.origin.start)
      && InStep(w, TenantLog(sys'.server.log, tenant), base, sys'.origin.page.rows, Reader(sys'), q);
  }

  lemma {:induction false} TenantStays(w: Wire, sys: System, steps: seq<Step>)
    ensures RunSteps(w, sys, steps).tenant == sys.tenant
  {
    if steps != [] {
      TenantStays(w, sys, steps[..|steps| - 1]);
      StepKeepsTenant(w, RunSteps(w, sys, steps[..|steps| - 1]), steps[|steps| - 1]);
    }
  }
}
