/**
  From watcher events to browser messages (buildMessage, internal/api/sse.go) and from messages to table
  rows (applyChange and its helpers, static/ts/sse.ts). The table is a map from names to rows.
 */
module Rows {
  import opened Text
  import opened Ring

  datatype Op = OpAdded | OpModified | OpRemoved

  /** row is the table row that the message's HTML yields, None when it yields no element. */
  datatype Message = Message(op: Op, name: string, status: string, row: Option<string>)

  /** buildMessage; render is what renderAppRow makes of an app, None for an error. */
  function BuildMessage(evt: WatchEvent, render: App -> Option<string>): Option<Message> {
    if evt.app.name == "" then None
    else match evt.kind
      case Deleted => Some(Message(OpRemoved, evt.app.name, "", None))
      case _ =>
        (match render(evt.app)
         case None => None
         case Some(html) =>
           var op := if evt.kind == Modified then OpModified else OpAdded;
           Some(Message(op, evt.app.name, evt.app.status, Some(html))))
  }

  /** badge is the status written over the one the row was rendered with. */
  datatype Row = Row(html: string, badge: Option<string>)

  type Table = map<string, Row>

  function UpsertRow(rows: Table, name: string, row: Option<string>): Table {
    if row.Some? then rows[name := Row(row.value, None)] else rows
  }

  function ApplyStatus(rows: Table, name: string, status: string): Table {
    if status != "" && name in rows then rows[name := rows[name].(badge := Some(status))] else rows
  }

  /** applyChange for a name with no delete pending. */
  function Applied(rows: Table, msg: Message): Table {
    if msg.name == "" then rows
    else if msg.op == OpRemoved then rows - {msg.name}
    else ApplyStatus(UpsertRow(rows, msg.name, msg.row), msg.name, msg.status)
  }

  function ApplyAll(rows: Table, msgs: seq<Message>): Table {
    if msgs == [] then rows else Applied(ApplyAll(rows, msgs[..|msgs| - 1]), msgs[|msgs| - 1])
  }

  lemma {:induction false} ApplyConcat(rows: Table, a: seq<Message>, b: seq<Message>)
    ensures ApplyAll(rows, a + b) == ApplyAll(ApplyAll(rows, a), b)
  {
    if b == [] {
      assert a + b == a;
    } else {
      var init := b[..|b| - 1];
      ApplyConcat(rows, a, init);
      assert (a + b)[..|a + b| - 1] == a + init;
    }
  }

  // ---- the table object, with its pending deletions ---------------------------------------

  const PENDING_DELETE_WINDOW := 5000

  predicate Pending(pending: map<string, int>, name: string, now: int) {
    name in pending && now - pending[name] <= PENDING_DELETE_WINDOW
  }

  /** Added and modified messages for a name the user has just deleted are dropped. */
  predicate Suppressed(pending: map<string, int>, msg: Message, now: int) {
    msg.op != OpRemoved && Pending(pending, msg.name, now)
  }

  /** The rows after applyChange. */
  function Reduced(rows: Table, pending: map<string, int>, msg: Message, now: int): Table {
    if Suppressed(pending, msg, now) then rows else Applied(rows, msg)
  }

  /** isPendingDelete forgets an entry whose window has passed. */
  function Forget(pending: map<string, int>, name: string, now: int): map<string, int> {
    if name in pending && !Pending(pending, name, now) then pending - {name} else pending
  }

  /** The pending deletions after applyChange. */
  function PendingNext(pending: map<string, int>, msg: Message, now: int): map<string, int> {
    if msg.name == "" then pending
    else if msg.op == OpRemoved then pending - {msg.name}
    else Forget(pending, msg.name, now)
  }

  /** A removal clears its name; no other later answer changes. */
  lemma PendingAfter(pending: map<string, int>, msg: Message, now: int, name: string, t: int)
    requires now <= t
    ensures Pending(PendingNext(pending, msg, now), name, t) ==
            (Pending(pending, name, t) && !(msg.op == OpRemoved && msg.name == name && name != ""))
  {
  }

  class AppTable {
    var rows: Table
    var pendingDeletions: map<string, int>

    constructor (initial: Table)
      ensures rows == initial && pendingDeletions == map[]
    {
      rows, pendingDeletions := initial, map[];
    }

    method NotePendingDelete(name: string, now: int)
      modifies this`pendingDeletions
      ensures pendingDeletions == old(pendingDeletions)[name := now]
    {
      pendingDeletions := pendingDeletions[name := now];
    }

    /** Forgets an entry whose window has passed; no other answer changes. */
    method IsPendingDelete(name: string, now: int) returns (pending: bool)
      modifies this`pendingDeletions
      ensures pending == Pending(old(pendingDeletions), name, now)
      ensures pendingDeletions == Forget(old(pendingDeletions), name, now)
      ensures forall n, t | t >= now :: Pending(pendingDeletions, n, t) == Pending(old(pendingDeletions), n, t)
    {
      if name !in pendingDeletions {
        return false;
      }
      if now - pendingDeletions[name] > PENDING_DELETE_WINDOW {
        pendingDeletions := pendingDeletions - {name};
        return false;
      }
      return true;
    }

    method ApplyChange(msg: Message, now: int)
      modifies this
      ensures rows == Reduced(old(rows), old(pendingDeletions), msg, now)
      ensures pendingDeletions == PendingNext(old(pendingDeletions), msg, now)
    {
      if msg.name == "" {
        return;
      }
      if msg.op != OpRemoved {
        var pending := IsPendingDelete(msg.name, now);
        if pending {
          return;
        }
      }
      match msg.op
      case OpRemoved =>
        pendingDeletions := pendingDeletions - {msg.name};
        rows := rows - {msg.name};
      case _ =>
        if msg.row.Some? {
          rows := UpsertRow(rows, msg.name, msg.row);
        }
        if msg.status != "" {
          rows := ApplyStatus(rows, msg.name, msg.status);
        }
    }
  }

  // ---- replaying messages is harmless --------------------------------------------------------

  function RowAt(rows: Table, name: string): Option<Row> {
    if name in rows then Some(rows[name]) else None
  }

  /** What a run of messages does to one name's row: nothing, a new badge, or a fixed outcome. */
  datatype Effect = Keep | Badge(status: string) | Become(row: Option<Row>)

  function Act(e: Effect, row: Option<Row>): Option<Row> {
    match e
    case Keep => row
    case Badge(status) => if row.Some? then Some(row.value.(badge := Some(status))) else None
    case Become(r) => r
  }

  function Then(first: Effect, second: Effect): Effect {
    match second
    case Keep => first
    case Become(_) => second
    case Badge(_) => if first.Become? then Become(Act(second, first.row)) else second
  }

  function EffectOf(msg: Message, name: string): Effect {
    if msg.name == "" || msg.name != name then Keep
    else if msg.op == OpRemoved then Become(None)
    else if msg.row.Some? then Become(Some(Row(msg.row.value, if msg.status != "" then Some(msg.status) else None)))
    else if msg.status != "" then Badge(msg.status) else Keep
  }

  function EffectOfAll(msgs: seq<Message>, name: string): Effect {
    if msgs == [] then Keep else Then(EffectOfAll(msgs[..|msgs| - 1], name), EffectOf(msgs[|msgs| - 1], name))
  }

  lemma {:induction false} ApplyIsAct(rows: Table, msgs: seq<Message>, name: string)
    ensures RowAt(ApplyAll(rows, msgs), name) == Act(EffectOfAll(msgs, name), RowAt(rows, name))
  {
    if msgs != [] {
      var init, last := msgs[..|msgs| - 1], msgs[|msgs| - 1];
      ApplyIsAct(rows, init, name);
      var before := ApplyAll(rows, init);
      assert RowAt(Applied(before, last), name) == Act(EffectOf(last, name), RowAt(before, name));
    }
  }

  lemma SameTable(a: Table, b: Table)
    requires forall name :: RowAt(a, name) == RowAt(b, name)
    ensures a == b
  {
    forall name ensures name in a <==> name in b
      ensures name in a && name in b ==> a[name] == b[name]
    {
      assert RowAt(a, name) == RowAt(b, name);
    }
  }

  /** Re-applying what was just applied changes nothing, for any messages and any table. */
  lemma ReplayChangesNothing(rows: Table, before: seq<Message>, again: seq<Message>)
    ensures ApplyAll(rows, before + again + again) == ApplyAll(rows, before + again)
  {
    var done := ApplyAll(rows, before + again);
    ApplyConcat(rows, before + again, again);
    ApplyConcat(rows, before, again);
    forall name ensures RowAt(ApplyAll(done, again), name) == RowAt(done, name) {
      ApplyIsAct(ApplyAll(rows, before), again, name);
      ApplyIsAct(done, again, name);
    }
    SameTable(ApplyAll(done, again), done);
  }

  /** A stream that overlaps what was already applied leads to the same table as one that does not. */
  lemma OverlapChangesNothing(rows: Table, before: seq<Message>, overlap: seq<Message>, after: seq<Message>)
    ensures ApplyAll(ApplyAll(rows, before + overlap), overlap + after) == ApplyAll(rows, before + overlap + after)
  {
    ApplyConcat(ApplyAll(rows, before + overlap), overlap, after);
    ApplyConcat(rows, before + overlap, overlap);
    ReplayChangesNothing(rows, before, overlap);
    ApplyConcat(rows, before + overlap, after);
  }

  /**
    With deletes pending, a message that comes again acts the second time exactly when the window
    suppressed it the first time and has closed since, and the row it brings back is not as the table has it.
   */
  lemma RepeatedMessageActsIff(rows: Table, pending: map<string, int>, msg: Message, first: int, again: int)
    requires first <= again
    ensures var once, pending' := Reduced(rows, pending, msg, first), PendingNext(pending, msg, first);
            Reduced(once, pending', msg, again) != once <==>
            && Suppressed(pending, msg, first) && again - pending[msg.name] > 5000
            && Applied(rows, msg) != rows
  {
    PendingAfter(pending, msg, first, msg.name, again);
    AppliedTwice(rows, msg);
  }

  lemma AppliedTwice(rows: Table, msg: Message)
    ensures Applied(Applied(rows, msg), msg) == Applied(rows, msg)
  {
    assert [] + [msg] + [msg] == [msg, msg] && [] + [msg] == [msg];
    assert [msg, msg][..1] == [msg] && [msg][..0] == [];
    ReplayChangesNothing(rows, [], [msg]);
  }
}
