/**
  The whole live-update path: watcher, replay, frames, a connection that may break after any character,
  the browser's parser and the row table (internal/k8s/watcher.go, internal/api/sse.go, static/ts/sse.ts).
  A client that reconnects ends with the rows of one that never dropped.
 */
module Resume {
  import opened Text
  import opened Ring
  import opened Delivery
  import opened Rows
  import opened EventStream

  /**
    How apps are rendered for this tenant, the JSON encoding of messages, and whether the browser lets a new
    stream inherit the event ID (EventStream.Opened).
   */
  datatype Wire = Wire(
    render: App -> Option<string>, encode: Message -> string, decode: string -> Option<Message>, inherits: bool)

  /** JSON puts no line break into a payload and gives back what was encoded. */
  ghost predicate Faithful(w: Wire) {
    forall m :: OneLine(w.encode(m)) && w.decode(w.encode(m)) == Some(m)
  }

  predicate Framed(w: Wire, evt: WatchEvent) { BuildMessage(evt, w.render).Some? }

  function MessageList(w: Wire, evt: WatchEvent): seq<Message> {
    var m := BuildMessage(evt, w.render);
    if m.Some? then [m.value] else []
  }

  function MessagesOf(w: Wire, events: seq<WatchEvent>): seq<Message> {
    if events == [] then [] else MessagesOf(w, events[..|events| - 1]) + MessageList(w, events[|events| - 1])
  }

  /** writeEvent for each event in turn; an event without a message emits no frame. */
  function FramesOf(w: Wire, events: seq<WatchEvent>): seq<Frame> {
    if events == [] then []
    else
      var last := events[|events| - 1];
      var m := BuildMessage(last, w.render);
      FramesOf(w, events[..|events| - 1]) + if m.Some? then [Frame(last.id, w.encode(m.value))] else []
  }

  /** handleMessage for each payload: what does not parse is ignored. */
  function Decoded(w: Wire, payloads: seq<string>): seq<Message> {
    if payloads == [] then []
    else
      var m := w.decode(payloads[|payloads| - 1]);
      Decoded(w, payloads[..|payloads| - 1]) + if m.Some? then [m.value] else []
  }

  lemma {:induction false} FramesAreLines(w: Wire, events: seq<WatchEvent>)
    requires Faithful(w)
    ensures AllOneLine(FramesOf(w, events))
  {
    if events != [] { FramesAreLines(w, events[..|events| - 1]); }
  }

  lemma FramesSnoc(w: Wire, init: seq<WatchEvent>, last: WatchEvent, m: Message)
    requires BuildMessage(last, w.render) == Some(m) && w.decode(w.encode(m)) == Some(m)
    ensures Decoded(w, Payloads(FramesOf(w, init + [last]))) == Decoded(w, Payloads(FramesOf(w, init))) + [m]
  {
    var frames, f := FramesOf(w, init), Frame(last.id, w.encode(m));
    assert (init + [last])[..|init|] == init;
    assert FramesOf(w, init + [last]) == frames + [f];
    assert (frames + [f])[..|frames|] == frames;
    var payloads := Payloads(frames);
    assert (payloads + [f.payload])[..|payloads|] == payloads;
  }

  lemma {:induction false} FramesDecode(w: Wire, events: seq<WatchEvent>)
    requires Faithful(w)
    ensures Decoded(w, Payloads(FramesOf(w, events))) == MessagesOf(w, events)
  {
    if events != [] {
      var init, last := events[..|events| - 1], events[|events| - 1];
      assert events == init + [last];
      FramesDecode(w, init);
      match BuildMessage(last, w.render)
      case Some(m) => FramesSnoc(w, init, last, m);
      case None =>
        assert FramesOf(w, events) == FramesOf(w, init);
        assert MessagesOf(w, events) == MessagesOf(w, init);
    }
  }

  lemma MessagesSnoc(w: Wire, events: seq<WatchEvent>, evt: WatchEvent)
    ensures MessagesOf(w, events + [evt]) == MessagesOf(w, events) + MessageList(w, evt)
  {
    assert (events + [evt])[..|events|] == events;
  }

  lemma {:induction false} MessagesConcat(w: Wire, a: seq<WatchEvent>, b: seq<WatchEvent>)
    ensures MessagesOf(w, a + b) == MessagesOf(w, a) + MessagesOf(w, b)
  {
    if b == [] {
      assert a + b == a;
    } else {
      var init, last := b[..|b| - 1], b[|b| - 1];
      MessagesConcat(w, a, init);
      Regroup(a, b);
      MessagesSnoc(w, a + init, last);
      Assoc(MessagesOf(w, a), MessagesOf(w, init), MessageList(w, last));
    }
  }

  /** The first k frames are the frames of some first j events, the j-th of which is framed. */
  lemma {:induction false} FramesPrefix(w: Wire, events: seq<WatchEvent>, k: nat) returns (j: nat)
    requires k <= |FramesOf(w, events)|
    ensures j <= |events| && FramesOf(w, events)[..k] == FramesOf(w, events[..j])
    ensures if k == 0 then j == 0 else j > 0 && Framed(w, events[j - 1])
  {
    if k == 0 {
      j := 0;
    } else {
      var init, last := events[..|events| - 1], events[|events| - 1];
      if k == |FramesOf(w, events)| && Framed(w, last) {
        j := |events|;
        assert events[..j] == events;
      } else {
        j := FramesPrefix(w, init, k);
        assert init[..j] == events[..j];
      }
    }
  }

  // ---- what the events say of a row --------------------------------------------------------------

  /** What an event says of the row of its own app: nothing if the row cannot be rendered. */
  function EventWord(render: App -> Option<string>, evt: WatchEvent, before: Option<Row>): Option<Row> {
    match evt.kind
    case Deleted => None
    case _ =>
      match render(evt.app)
      case None => before
      case Some(html) => Some(Row(html, if evt.app.status == "" then None else Some(evt.app.status)))
  }

  /** The last word of the events on the row of the app called name, given the row it had. */
  function LogWord(
    render: App -> Option<string>, events: seq<WatchEvent>, name: string, before: Option<Row>): Option<Row>
  {
    if events == [] then before
    else
      var word, last := LogWord(render, events[..|events| - 1], name, before), events[|events| - 1];
      if name != "" && last.app.name == name then EventWord(render, last, word) else word
  }

  /** The rows after the messages of some events are what the events themselves say. */
  lemma {:induction false} RowIsLogWord(w: Wire, rows: Table, events: seq<WatchEvent>, name: string)
    ensures RowAt(ApplyAll(rows, MessagesOf(w, events)), name) == LogWord(w.render, events, name, RowAt(rows, name))
  {
    if events != [] {
      var init, last := events[..|events| - 1], events[|events| - 1];
      RowIsLogWord(w, rows, init, name);
      ApplyConcat(rows, MessagesOf(w, init), MessageList(w, last));
      OneEvent(w, ApplyAll(rows, MessagesOf(w, init)), last, name);
    }
  }

  lemma OneEvent(w: Wire, rows: Table, evt: WatchEvent, name: string)
    ensures RowAt(ApplyAll(rows, MessageList(w, evt)), name) ==
            if name != "" && evt.app.name == name then EventWord(w.render, evt, RowAt(rows, name))
            else RowAt(rows, name)
  {
    match BuildMessage(evt, w.render)
    case None =>
    case Some(m) => ApplyOne(rows, m);
  }

  lemma ApplyOne(rows: Table, m: Message)
    ensures ApplyAll(rows, [m]) == Applied(rows, m)
  {
    assert [m][..0] == [];
  }

  /** What the message of a framed event says; a removal carries nothing but the name. */
  lemma MessageSays(w: Wire, evt: WatchEvent)
    requires Framed(w, evt)
    ensures MessageList(w, evt) ==
            match evt.kind
            case Added => [Message(OpAdded, evt.app.name, evt.app.status, w.render(evt.app))]
            case Modified => [Message(OpModified, evt.app.name, evt.app.status, w.render(evt.app))]
            case Deleted => [Message(OpRemoved, evt.app.name, "", None)]
  {
  }

  /** Which events get a frame, and that its ID is the event's. */
  lemma FramedIff(w: Wire, evt: WatchEvent)
    ensures Framed(w, evt) <==> evt.app.name != "" && (evt.kind == Deleted || w.render(evt.app).Some?)
    ensures FramesOf(w, [evt]) != [] <==> Framed(w, evt)
    ensures Framed(w, evt) ==> |FramesOf(w, [evt])| == 1 && FramesOf(w, [evt])[0].id == evt.id
  {
    assert [evt][..0] == [];
  }

  // ---- one connection ------------------------------------------------------------------------

  datatype Client = Client(rows: Table, lastEventID: string)

  function StreamBytes(w: Wire, events: seq<WatchEvent>): string { PREAMBLE + AllBytes(FramesOf(w, events)) }

  /** The parser after the first n characters of a connection on which these events were written, or after all. */
  function Parsed(w: Wire, id: string, events: seq<WatchEvent>, n: nat): Parser {
    var bytes := StreamBytes(w, events);
    Read(Opened(w.inherits, id), if n < |bytes| then bytes[..n] else bytes)
  }

  /** The client then, if no message is suppressed. */
  function Connected(w: Wire, client: Client, events: seq<WatchEvent>, n: nat): Client {
    var p := Parsed(w, client.lastEventID, events, n);
    Client(ApplyAll(client.rows, Decoded(w, p.dispatched)), p.lastEventID)
  }

  lemma ConnectionParses(w: Wire, id: string, events: seq<WatchEvent>, n: nat) returns (k: nat)
    requires Faithful(w)
    ensures k <= |FramesOf(w, events)| && (n >= |StreamBytes(w, events)| ==> k == |FramesOf(w, events)|)
    ensures var read := FramesOf(w, events)[..k];
            var p := Parsed(w, id, events, n);
            p.dispatched == Payloads(read) && p.lastEventID == LastID(read, IDBeforeFrames(w.inherits, id, n))
  {
    FramesAreLines(w, events);
    var bytes := StreamBytes(w, events);
    var m := if n < |bytes| then n else |bytes|;
    assert bytes[..m] == if n < |bytes| then bytes[..n] else bytes;
    assert IDBeforeFrames(w.inherits, id, m) == IDBeforeFrames(w.inherits, id, n);
    k := StreamCutAnywhere(w.inherits, id, FramesOf(w, events), m);
  }

  /** The ID that p reports after the j-th event, whose frame was seen, or after none. */
  ghost predicate Reports(w: Wire, id: string, events: seq<WatchEvent>, j: nat, reported: string) {
    && j <= |events|
    && if j == 0 then reported == id || (!w.inherits && reported == "")
       else Framed(w, events[j - 1]) && reported == FormatNat(events[j - 1].id)
  }

  /** Cut anywhere, a connection delivers the messages of some first j events, and all of them if it is not cut. */
  lemma ConnectionReads(w: Wire, id: string, events: seq<WatchEvent>, n: nat) returns (j: nat)
    requires Faithful(w)
    ensures var p := Parsed(w, id, events, n);
            && Reports(w, id, events, j, p.lastEventID) && Decoded(w, p.dispatched) == MessagesOf(w, events[..j])
            && (n >= |StreamBytes(w, events)| ==> Decoded(w, p.dispatched) == MessagesOf(w, events))
  {
    var k := ConnectionParses(w, id, events, n);
    j := FramesPrefix(w, events, k);
    FramesDecode(w, events[..j]);
    if j > 0 {
      LastFrame(w, events[..j]);
    }
    if n >= |StreamBytes(w, events)| {
      assert FramesOf(w, events)[..k] == FramesOf(w, events);
      FramesDecode(w, events);
    }
  }

  /** The client has applied the messages of the first j events and remembers the ID of the j-th, whose frame it saw. */
  ghost predicate Saw(w: Wire, client: Client, events: seq<WatchEvent>, j: nat, after: Client) {
    && Reports(w, client.lastEventID, events, j, after.lastEventID)
    && after.rows == ApplyAll(client.rows, MessagesOf(w, events[..j]))
  }

  lemma LastFrame(w: Wire, events: seq<WatchEvent>)
    requires events != [] && Framed(w, events[|events| - 1])
    ensures FramesOf(w, events) != [] && FramesOf(w, events)[|FramesOf(w, events)| - 1].id == events[|events| - 1].id
  {
  }

  // ---- staying in step with the log ------------------------------------------------------------

  /**
    The client's rows are what the tenant's log from base up to q makes of the rows it had there, and an event
    ID it still has is that of the event just before q, whose frame it saw.
   */
  ghost predicate InStep(w: Wire, tl: seq<WatchEvent>, base: nat, rows: Table, client: Client, q: nat) {
    && base <= q <= |tl|
    && client.rows == ApplyAll(rows, MessagesOf(w, tl[base..q]))
    && (client.lastEventID != "" ==>
          base < q && Framed(w, tl[q - 1]) && client.lastEventID == FormatNat(tl[q - 1].id))
  }

  /** What the server writes on a subscription: the replay, then the live events received so far. */
  function Stream(sub: Sub): seq<WatchEvent> { sub.missed + sub.received }

  /** Rows after the log up to one point, then a stretch that may start one event earlier. */
  lemma ApplyStretch(w: Wire, tl: seq<WatchEvent>, base: nat, rows: Table, at: nat, from: nat, to: nat)
    requires base <= from <= at <= to <= |tl|
    ensures ApplyAll(ApplyAll(rows, MessagesOf(w, tl[base..at])), MessagesOf(w, tl[from..to])) ==
            ApplyAll(rows, MessagesOf(w, tl[base..to]))
  {
    var before, overlap, after := tl[base..from], tl[from..at], tl[at..to];
    assert tl[base..at] == before + overlap && tl[from..to] == overlap + after;
    assert tl[base..to] == before + overlap + after;
    MessagesConcat(w, before, overlap);
    MessagesConcat(w, overlap, after);
    MessagesConcat(w, before + overlap, after);
    OverlapChangesNothing(rows, MessagesOf(w, before), MessagesOf(w, overlap), MessagesOf(w, after));
  }

  /** The received events of a subscription without drops are the next stretch of the log. */
  lemma ReceivedStretch(tl: seq<WatchEvent>, sub: Sub)
    requires Given(tl, sub) && sub.drops == 0
    ensures |sub.received| <= sub.to - sub.from && sub.received == tl[sub.from..sub.from + |sub.received|]
    ensures sub.queue == [] ==> sub.from + |sub.received| == sub.to
  {
    var all := sub.received + sub.queue;
    assert sub.received == all[..|sub.received|];
    assert all == tl[sub.from..sub.to];
  }

  /** What a connection without replay delivered puts the client in step with the log. */
  lemma FirstRead(
    w: Wire, tl: seq<WatchEvent>, from: nat, to: nat, events: seq<WatchEvent>, client: Client, j: nat, after: Client)
    requires from <= to <= |tl| && events == tl[from..to]
    requires client.lastEventID == "" && Saw(w, client, events, j, after)
    ensures InStep(w, tl, from, client.rows, after, from + j)
  {
    assert events[..j] == tl[from..from + j];
    assert j > 0 ==> events[j - 1] == tl[from + j - 1];
  }

  /** Nothing is replayed on a first connection. */
  lemma FirstStream(tl: seq<WatchEvent>, sub: Sub)
    requires Given(tl, sub) && sub.drops == 0 && sub.since == 0
    ensures sub.from + |sub.received| <= |tl| && Stream(sub) == tl[sub.from..sub.from + |sub.received|]
    ensures sub.queue == [] ==> sub.from + |sub.received| == sub.to
  {
    ReceivedStretch(tl, sub);
    assert Stream(sub) == sub.received;
  }

  /** The replay of a resumed subscription starts right after the event the client saw last. */
  lemma ResumedStream(tl: seq<WatchEvent>, sub: Sub, q: nat)
    requires Increasing(tl) && Given(tl, sub) && sub.drops == 0
    requires 0 < q <= sub.joined && sub.since == tl[q - 1].id && sub.since > 0
    requires |Above(tl[..sub.joined], sub.since)| <= REPLAY_BUFFER_SIZE
    ensures sub.missed == tl[q..sub.joined]
  {
    var seen := tl[..sub.joined];
    IncreasingPiece(tl, 0, sub.joined);
    ReplayIsSuffix(seen, sub.since);
    AboveIsTail(seen, sub.since);
    var f := FirstAbove(seen, sub.since);
    assert seen[q - 1] == tl[q - 1];
    assert f >= q;
    assert q < |seen| ==> seen[q].id > sub.since;
    assert f == q;
    assert seen[q..] == tl[q..sub.joined];
  }

  /** Two stretches of the log applied in turn, the second of which may start one event early. */
  lemma TwoStretches(
    w: Wire, tl: seq<WatchEvent>, base: nat, rows: Table, at: Table, q: nat, joined: nat, from: nat, to: nat,
    missed: seq<WatchEvent>, live: seq<WatchEvent>)
    requires base <= q <= joined <= to <= |tl| && base <= from <= joined
    requires at == ApplyAll(rows, MessagesOf(w, tl[base..q]))
    requires missed == tl[q..joined] && live == tl[from..to]
    ensures ApplyAll(at, MessagesOf(w, missed + live)) == ApplyAll(rows, MessagesOf(w, tl[base..to]))
  {
    ApplyStretch(w, tl, base, rows, q, q, joined);
    ApplyStretch(w, tl, base, rows, joined, from, to);
    MessagesConcat(w, missed, live);
    ApplyConcat(at, MessagesOf(w, missed), MessagesOf(w, live));
  }

  /** Where in the log the client stands after j events of a replay from q and a live stretch from from. */
  function ReadTo(q: nat, from: nat, missed: nat, j: nat): nat {
    if j <= missed then q + j else from + (j - missed)
  }

  /** The rows after the first j events of a resumed stream. */
  lemma StretchRows(
    w: Wire, tl: seq<WatchEvent>, base: nat, rows: Table, q: nat, joined: nat, from: nat, to: nat,
    events: seq<WatchEvent>, j: nat)
    requires base < q <= joined <= |tl| && base <= from <= joined && from <= to <= |tl| && joined <= from + 1
    requires events == tl[q..joined] + tl[from..to] && j <= |events|
    ensures var end := ReadTo(q, from, joined - q, j);
            && base <= end <= |tl|
            && ApplyAll(ApplyAll(rows, MessagesOf(w, tl[base..q])), MessagesOf(w, events[..j])) ==
               ApplyAll(rows, MessagesOf(w, tl[base..end]))
  {
    StretchPrefix(tl, q, joined, from, to, events, j);
    PrefixRows(w, tl, base, rows, q, joined, from, to, j, events[..j]);
  }

  /** The first j events, without the others. */
  ghost predicate IsPrefix(
    tl: seq<WatchEvent>, q: nat, joined: nat, from: nat, to: nat, j: nat, prefix: seq<WatchEvent>)
    requires q <= joined <= |tl| && from <= to <= |tl| && j <= (joined - q) + (to - from)
  {
    var end := ReadTo(q, from, joined - q, j);
    if j <= joined - q then prefix == tl[q..end] else prefix == tl[q..joined] + tl[from..end]
  }

  lemma StretchPrefix(tl: seq<WatchEvent>, q: nat, joined: nat, from: nat, to: nat, events: seq<WatchEvent>, j: nat)
    requires q <= joined <= |tl| && from <= to <= |tl| && events == tl[q..joined] + tl[from..to] && j <= |events|
    ensures IsPrefix(tl, q, joined, from, to, j, events[..j])
  {
    if j <= joined - q {
      assert events[..j] == tl[q..q + j];
    } else {
      assert events[..j] == tl[q..joined] + tl[from..from + (j - (joined - q))];
    }
  }

  lemma PrefixRows(
    w: Wire, tl: seq<WatchEvent>, base: nat, rows: Table, q: nat, joined: nat, from: nat, to: nat,
    j: nat, prefix: seq<WatchEvent>)
    requires base < q <= joined <= |tl| && base <= from <= joined && from <= to <= |tl| && joined <= from + 1
    requires j <= (joined - q) + (to - from) && IsPrefix(tl, q, joined, from, to, j, prefix)
    ensures var end := ReadTo(q, from, joined - q, j);
            && base <= end <= |tl|
            && ApplyAll(ApplyAll(rows, MessagesOf(w, tl[base..q])), MessagesOf(w, prefix)) ==
               ApplyAll(rows, MessagesOf(w, tl[base..end]))
  {
    var end := ReadTo(q, from, joined - q, j);
    if j <= joined - q {
      ReplayRows(w, tl, base, rows, q, end, prefix);
    } else {
      LiveRows(w, tl, base, rows, q, joined, from, end, prefix);
    }
  }

  lemma ReplayRows(
    w: Wire, tl: seq<WatchEvent>, base: nat, rows: Table, q: nat, end: nat, events: seq<WatchEvent>)
    requires base <= q <= end <= |tl| && events == tl[q..end]
    ensures ApplyAll(ApplyAll(rows, MessagesOf(w, tl[base..q])), MessagesOf(w, events)) ==
            ApplyAll(rows, MessagesOf(w, tl[base..end]))
  {
    ApplyStretch(w, tl, base, rows, q, q, end);
  }

  lemma LiveRows(
    w: Wire, tl: seq<WatchEvent>, base: nat, rows: Table, q: nat, joined: nat, from: nat, end: nat,
    events: seq<WatchEvent>)
    requires base <= q <= joined <= end <= |tl| && base <= from <= joined && events == tl[q..joined] + tl[from..end]
    ensures ApplyAll(ApplyAll(rows, MessagesOf(w, tl[base..q])), MessagesOf(w, events)) ==
            ApplyAll(rows, MessagesOf(w, tl[base..end]))
  {
    var at := ApplyAll(rows, MessagesOf(w, tl[base..q]));
    TwoStretches(w, tl, base, rows, at, q, joined, from, end, tl[q..joined], tl[from..end]);
  }

  lemma StretchLast(tl: seq<WatchEvent>, q: nat, joined: nat, from: nat, to: nat, events: seq<WatchEvent>, j: nat)
    requires 0 < q <= joined <= |tl| && from <= joined && from <= to <= |tl|
    requires events == tl[q..joined] + tl[from..to] && 0 < j <= |events|
    ensures var end := ReadTo(q, from, joined - q, j); 0 < end <= |tl| && events[j - 1] == tl[end - 1]
  {
  }

  /** The event ID after the first j events of a resumed stream. */
  lemma StretchID(
    w: Wire, tl: seq<WatchEvent>, base: nat, q: nat, joined: nat, from: nat, to: nat,
    events: seq<WatchEvent>, j: nat, id: string, reported: string)
    requires base < q <= joined <= |tl| && base <= from <= joined <= from + 1 && from <= to <= |tl|
    requires events == tl[q..joined] + tl[from..to] && Reports(w, id, events, j, reported)
    requires id != "" ==> Framed(w, tl[q - 1]) && id == FormatNat(tl[q - 1].id)
    ensures var end := ReadTo(q, from, joined - q, j);
            && base < end <= |tl|
            && (reported != "" ==> Framed(w, tl[end - 1]) && reported == FormatNat(tl[end - 1].id))
  {
    if j > 0 { StretchLast(tl, q, joined, from, to, events, j); }
  }

  /** What a connection that replays from where the client stands delivered leaves it in step. */
  lemma ResumedRead(
    w: Wire, tl: seq<WatchEvent>, base: nat, rows: Table, client: Client, q: nat, joined: nat, from: nat, to: nat,
    events: seq<WatchEvent>, j: nat, after: Client)
    requires base < q <= joined <= |tl| && base <= from <= joined <= from + 1 && from <= to <= |tl|
    requires InStep(w, tl, base, rows, client, q) && events == tl[q..joined] + tl[from..to]
    requires Saw(w, client, events, j, after)
    ensures InStep(w, tl, base, rows, after, ReadTo(q, from, joined - q, j))
  {
    StretchRows(w, tl, base, rows, q, joined, from, to, events, j);
    StretchID(w, tl, base, q, joined, from, to, events, j, client.lastEventID, after.lastEventID);
  }

  /** When all of it arrives, the rows are those of the log up to there. */
  lemma ResumedToEnd(
    w: Wire, tl: seq<WatchEvent>, base: nat, rows: Table, client: Client, q: nat, joined: nat, from: nat, to: nat,
    events: seq<WatchEvent>)
    requires base < q <= joined <= to <= |tl| && base <= from <= joined <= from + 1
    requires InStep(w, tl, base, rows, client, q) && events == tl[q..joined] + tl[from..to]
    ensures ApplyAll(client.rows, MessagesOf(w, events)) == ApplyAll(rows, MessagesOf(w, tl[base..to]))
  {
    TwoStretches(w, tl, base, rows, client.rows, q, joined, from, to, tl[q..joined], tl[from..to]);
  }

  /** What a resumed subscription writes: the replay from q, then a live stretch that may repeat one event. */
  lemma ResumedParts(tl: seq<WatchEvent>, sub: Sub, q: nat)
    requires Increasing(tl) && Given(tl, sub) && sub.drops == 0
    requires 0 < q <= sub.joined && sub.since == tl[q - 1].id && sub.since > 0
    requires |Above(tl[..sub.joined], sub.since)| <= REPLAY_BUFFER_SIZE
    ensures sub.from <= sub.joined <= |tl| && sub.joined <= sub.from + 1 && sub.from + |sub.received| <= |tl|
    ensures Stream(sub) == tl[q..sub.joined] + tl[sub.from..sub.from + |sub.received|]
    ensures sub.queue == [] ==> sub.from + |sub.received| == sub.to && sub.joined <= sub.to
  {
    ResumedStream(tl, sub, q);
    ReceivedStretch(tl, sub);
  }
}
