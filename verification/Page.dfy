/**
  One open page: its rows and its pending deletions, and what the user and the stream do to them over time
  (applyChange, isPendingDelete and notePendingDelete, static/ts/sse.ts). The same log may reach two pages
  at different times, and then a pending delete may suppress different messages on each.
 */
module Page {
  import opened Text
  import opened Rows

  datatype Page = Page(rows: Table, pending: map<string, int>)

  /**
    A message arrives; the user asks for a delete; or a delete that the server accepted takes the row out of
    the table (hx-swap "delete", internal/view/page/app_table_rows.templ). The last one happens only if the
    row element the delete was requested on is still there: a swap of a replaced one changes nothing.
   */
  datatype Input = Heard(msg: Message, at: int) | Marked(name: string, at: int) | Swapped(name: string, at: int)

  function Removal(name: string): Message { Message(OpRemoved, name, "", None) }

  function Next(page: Page, input: Input): Page {
    match input
    case Heard(msg, at) => Page(Reduced(page.rows, page.pending, msg, at), PendingNext(page.pending, msg, at))
    case Marked(name, at) => page.(pending := page.pending[name := at])
    // The row goes as with a removal, but the mark stays.
    case Swapped(name, _) => page.(rows := Applied(page.rows, Removal(name)))
  }

  function After(page: Page, inputs: seq<Input>): Page {
    if inputs == [] then page else Next(After(page, inputs[..|inputs| - 1]), inputs[|inputs| - 1])
  }

  function MessagesIn(inputs: seq<Input>): seq<Message> {
    if inputs == [] then []
    else
      var last := inputs[|inputs| - 1];
      MessagesIn(inputs[..|inputs| - 1]) + if last.Heard? then [last.msg] else []
  }

  /** What an input does to the table, as messages. */
  function ActingNow(page: Page, input: Input): seq<Message> {
    match input
    case Heard(msg, at) => if Suppressed(page.pending, msg, at) then [] else [msg]
    case Marked(_, _) => []
    case Swapped(name, _) => [Removal(name)]
  }

  /** The messages that were not suppressed, and the rows that deletes took out. */
  function Acting(page: Page, inputs: seq<Input>): seq<Message> {
    if inputs == [] then []
    else
      var init, last := inputs[..|inputs| - 1], inputs[|inputs| - 1];
      Acting(page, init) + ActingNow(After(page, init), last)
  }

  lemma ApplySnoc(rows: Table, msgs: seq<Message>, msg: Message)
    ensures ApplyAll(rows, msgs + [msg]) == Applied(ApplyAll(rows, msgs), msg)
  {
    assert (msgs + [msg])[..|msgs|] == msgs;
  }

  /** The rows are what the unsuppressed messages and the accepted deletes make of the first ones. */
  lemma {:induction false} RowsAreActing(page: Page, inputs: seq<Input>)
    ensures After(page, inputs).rows == ApplyAll(page.rows, Acting(page, inputs))
  {
    if inputs != [] {
      var init, last := inputs[..|inputs| - 1], inputs[|inputs| - 1];
      RowsAreActing(page, init);
      var now := ActingNow(After(page, init), last);
      if now == [] {
        assert Acting(page, init) + [] == Acting(page, init);
      } else {
        ApplySnoc(page.rows, Acting(page, init), now[0]);
      }
    }
  }

  // ---- when a message is suppressed ------------------------------------------------------------

  ghost predicate Timed(inputs: seq<Input>, end: int) {
    && (forall i, j | 0 <= i < j < |inputs| :: inputs[i].at <= inputs[j].at)
    && (forall i | 0 <= i < |inputs| :: inputs[i].at <= end)
  }

  /** When the name was last marked, unless its removal has been heard since. */
  function LastMark(pending: map<string, int>, inputs: seq<Input>, name: string): Option<int> {
    if inputs == [] then if name in pending then Some(pending[name]) else None
    else
      var before := LastMark(pending, inputs[..|inputs| - 1], name);
      match inputs[|inputs| - 1]
      case Marked(n, at) => if n == name then Some(at) else before
      case Heard(msg, _) => if msg.op == OpRemoved && msg.name == name && name != "" then None else before
      case Swapped(_, _) => before
  }

  /** A delete is pending for five seconds after its mark, and no longer than until the removal is heard. */
  lemma {:induction false} PendingIff(page: Page, inputs: seq<Input>, name: string, t: int)
    requires Timed(inputs, t)
    ensures var mark := LastMark(page.pending, inputs, name);
            Pending(After(page, inputs).pending, name, t) <==> mark.Some? && t - mark.value <= 5000
  {
    if inputs != [] {
      var init, last := inputs[..|inputs| - 1], inputs[|inputs| - 1];
      PendingIff(page, init, name, t);
      if last.Heard? { PendingAfter(After(page, init).pending, last.msg, last.at, name, t); }
    }
  }

  /** A change, heard after these inputs, that comes within five seconds of a mark not yet cleared. */
  predicate Late(pending: map<string, int>, before: seq<Input>, msg: Message, at: int) {
    var mark := LastMark(pending, before, msg.name);
    msg.op != OpRemoved && mark.Some? && at - mark.value <= PENDING_DELETE_WINDOW
  }

  /** Acting, computed from the marks, the times and the messages alone. */
  function LetThrough(pending: map<string, int>, inputs: seq<Input>): seq<Message> {
    if inputs == [] then []
    else
      var init := inputs[..|inputs| - 1];
      LetThrough(pending, init) +
      match inputs[|inputs| - 1]
      case Heard(msg, at) => if Late(pending, init, msg, at) then [] else [msg]
      case Marked(_, _) => []
      case Swapped(name, _) => [Removal(name)]
  }

  lemma TimedInit(inputs: seq<Input>, end: int)
    requires inputs != [] && Timed(inputs, end)
    ensures Timed(inputs[..|inputs| - 1], inputs[|inputs| - 1].at) && Timed(inputs[..|inputs| - 1], end)
  {
  }

  lemma {:induction false} ActingIsLetThrough(page: Page, inputs: seq<Input>, end: int)
    requires Timed(inputs, end)
    ensures Acting(page, inputs) == LetThrough(page.pending, inputs)
  {
    if inputs != [] {
      var init, last := inputs[..|inputs| - 1], inputs[|inputs| - 1];
      TimedInit(inputs, end);
      ActingIsLetThrough(page, init, end);
      if last.Heard? { PendingIff(page, init, last.msg.name, last.at); }
    }
  }

  /** The rows, from the marks, the times and the messages alone. */
  lemma RowsAreLetThrough(page: Page, inputs: seq<Input>, end: int)
    requires Timed(inputs, end)
    ensures After(page, inputs).rows == ApplyAll(page.rows, LetThrough(page.pending, inputs))
  {
    RowsAreActing(page, inputs);
    ActingIsLetThrough(page, inputs, end);
  }

  /** The last message heard for the name was suppressed. */
  predicate Hidden(page: Page, inputs: seq<Input>, name: string) {
    inputs != [] &&
    var init, last := inputs[..|inputs| - 1], inputs[|inputs| - 1];
    if last.Heard? && last.msg.name == name then Suppressed(After(page, init).pending, last.msg, last.at)
    else Hidden(page, init, name)
  }

  /** Position i holds the last message for the name. */
  predicate LastHeardAt(inputs: seq<Input>, name: string, i: int) {
    && 0 <= i < |inputs| && inputs[i].Heard? && inputs[i].msg.name == name
    && forall j | i < j < |inputs| :: !(inputs[j].Heard? && inputs[j].msg.name == name)
  }

  /** The message heard at position i was late. */
  predicate LateAt(pending: map<string, int>, inputs: seq<Input>, i: int)
    requires 0 <= i < |inputs| && inputs[i].Heard?
  {
    Late(pending, inputs[..i], inputs[i].msg, inputs[i].at)
  }

  lemma LastHeardBefore(pending: map<string, int>, inputs: seq<Input>, name: string, i: int)
    requires inputs != [] && 0 <= i < |inputs| - 1
    requires var last := inputs[|inputs| - 1]; !(last.Heard? && last.msg.name == name)
    ensures LastHeardAt(inputs[..|inputs| - 1], name, i) == LastHeardAt(inputs, name, i)
    ensures inputs[i].Heard? ==>
              LateAt(pending, inputs[..|inputs| - 1], i) == LateAt(pending, inputs, i)
  {
    var init := inputs[..|inputs| - 1];
    assert init[..i] == inputs[..i];
    assert forall j | 0 <= j < |init| :: init[j] == inputs[j];
  }

  lemma {:induction false} HiddenIff(page: Page, inputs: seq<Input>, name: string, end: int)
    requires Timed(inputs, end)
    ensures Hidden(page, inputs, name) <==>
            exists i :: LastHeardAt(inputs, name, i) && LateAt(page.pending, inputs, i)
  {
    if inputs != [] {
      var init, last := inputs[..|inputs| - 1], inputs[|inputs| - 1];
      if last.Heard? && last.msg.name == name {
        PendingIff(page, init, name, last.at);
        assert LastHeardAt(inputs, name, |init|);
      } else {
        HiddenIff(page, init, name, end);
        if i :| LastHeardAt(init, name, i) && LateAt(page.pending, init, i) {
          LastHeardBefore(page.pending, inputs, name, i);
        }
        if i :| LastHeardAt(inputs, name, i) && LateAt(page.pending, inputs, i) {
          assert i < |init|;
          LastHeardBefore(page.pending, inputs, name, i);
        }
      }
    }
  }

  // ---- what a page shows --------------------------------------------------------------------------

  /** A removal or a message with a row: it decides the row of its name by itself. */
  predicate Definite(msg: Message) { msg.name != "" && (msg.op == OpRemoved || msg.row.Some?) }

  ghost predicate AllDefinite(msgs: seq<Message>) {
    forall i | 0 <= i < |msgs| :: Definite(msgs[i])
  }

  function Outcome(msg: Message): Option<Row>
    requires Definite(msg)
  {
    if msg.op == OpRemoved then None
    else Some(Row(msg.row.value, if msg.status != "" then Some(msg.status) else None))
  }

  /** The outcome of the last message for the name, or the row it had. */
  function Standing(rows: Table, msgs: seq<Message>, name: string): Option<Row>
    requires AllDefinite(msgs)
  {
    if msgs == [] then RowAt(rows, name)
    else
      var last := msgs[|msgs| - 1];
      if last.name == name then Outcome(last) else Standing(rows, msgs[..|msgs| - 1], name)
  }

  lemma {:induction false} RowIsStanding(rows: Table, msgs: seq<Message>, name: string)
    requires AllDefinite(msgs)
    ensures RowAt(ApplyAll(rows, msgs), name) == Standing(rows, msgs, name)
  {
    if msgs != [] {
      RowIsStanding(rows, msgs[..|msgs| - 1], name);
    }
  }

  lemma DefiniteInit(inputs: seq<Input>)
    requires inputs != [] && AllDefinite(MessagesIn(inputs))
    ensures AllDefinite(MessagesIn(inputs[..|inputs| - 1]))
    ensures inputs[|inputs| - 1].Heard? ==> Definite(inputs[|inputs| - 1].msg)
  {
    var before, msgs := MessagesIn(inputs[..|inputs| - 1]), MessagesIn(inputs);
    forall i | 0 <= i < |before| ensures Definite(before[i]) { assert before[i] == msgs[i]; }
    if inputs[|inputs| - 1].Heard? { assert msgs[|msgs| - 1] == inputs[|inputs| - 1].msg; }
  }

  /**
    The last word on a row, from the marks, the times and the messages alone: the last accepted delete of
    the name, or the last message for it that was not late, or the row the page started with.
   */
  function LastWord(page: Page, inputs: seq<Input>, name: string): Option<Row>
    requires AllDefinite(MessagesIn(inputs))
  {
    if inputs == [] then RowAt(page.rows, name)
    else
      var init := inputs[..|inputs| - 1];
      DefiniteInit(inputs);
      match inputs[|inputs| - 1]
      case Heard(msg, at) =>
        if msg.name == name && !Late(page.pending, init, msg, at) then Outcome(msg) else LastWord(page, init, name)
      case Marked(_, _) => LastWord(page, init, name)
      case Swapped(n, _) => if n == name && name != "" then None else LastWord(page, init, name)
  }

  /** Every row of a page is the last word on it. */
  lemma {:induction false} RowIsLastWord(page: Page, inputs: seq<Input>, name: string, end: int)
    requires AllDefinite(MessagesIn(inputs)) && Timed(inputs, end)
    ensures RowAt(After(page, inputs).rows, name) == LastWord(page, inputs, name)
  {
    if inputs != [] {
      var init, last := inputs[..|inputs| - 1], inputs[|inputs| - 1];
      TimedInit(inputs, end);
      DefiniteInit(inputs);
      RowIsLastWord(page, init, name, end);
      if last.Heard? { PendingIff(page, init, last.msg.name, last.at); }
    }
  }

  /** Neither a late change nor an accepted delete came after the last message for the name that got through. */
  predicate Settled(pending: map<string, int>, inputs: seq<Input>, name: string) {
    inputs == [] ||
    var init := inputs[..|inputs| - 1];
    match inputs[|inputs| - 1]
    case Heard(msg, at) => if msg.name == name then !Late(pending, init, msg, at) else Settled(pending, init, name)
    case Marked(_, _) => Settled(pending, init, name)
    case Swapped(n, _) => n != name && Settled(pending, init, name)
  }

  /** For a settled name the last word is what all the messages heard say, suppressed or not. */
  lemma {:induction false} SettledIsWhole(page: Page, inputs: seq<Input>, name: string)
    requires AllDefinite(MessagesIn(inputs)) && Settled(page.pending, inputs, name)
    ensures LastWord(page, inputs, name) == RowAt(ApplyAll(page.rows, MessagesIn(inputs)), name)
  {
    if inputs != [] {
      var init, last := inputs[..|inputs| - 1], inputs[|inputs| - 1];
      DefiniteInit(inputs);
      if last.Heard? {
        ApplySnoc(page.rows, MessagesIn(init), last.msg);
      } else {
        assert MessagesIn(init) + [] == MessagesIn(init);
      }
      if !(last.Heard? && last.msg.name == name) { SettledIsWhole(page, init, name); }
    }
  }

  /** What a page shows for a name: the last word, which for a settled name is what all it heard says. */
  lemma PageShows(page: Page, inputs: seq<Input>, name: string, end: int)
    requires AllDefinite(MessagesIn(inputs)) && Timed(inputs, end)
    ensures RowAt(After(page, inputs).rows, name) == LastWord(page, inputs, name)
    ensures Settled(page.pending, inputs, name) ==>
              RowAt(After(page, inputs).rows, name) == RowAt(ApplyAll(page.rows, MessagesIn(inputs)), name)
  {
    RowIsLastWord(page, inputs, name, end);
    if Settled(page.pending, inputs, name) { SettledIsWhole(page, inputs, name); }
  }

  /** Two pages with one origin agree on a name exactly when the last words do, and always when both are settled. */
  lemma PagesAgreeIff(origin: Page, a: seq<Input>, b: seq<Input>, name: string, endA: int, endB: int)
    requires AllDefinite(MessagesIn(a)) && AllDefinite(MessagesIn(b)) && Timed(a, endA) && Timed(b, endB)
    ensures RowAt(After(origin, a).rows, name) == RowAt(After(origin, b).rows, name) <==>
            LastWord(origin, a, name) == LastWord(origin, b, name)
    ensures ApplyAll(origin.rows, MessagesIn(a)) == ApplyAll(origin.rows, MessagesIn(b)) &&
            Settled(origin.pending, a, name) && Settled(origin.pending, b, name) ==>
              RowAt(After(origin, a).rows, name) == RowAt(After(origin, b).rows, name)
  {
    PageShows(origin, a, name, endA);
    PageShows(origin, b, name, endB);
  }

  // ---- one log, two arrival schedules -----------------------------------------------------------------

  /** The messages, each at its time. */
  function Schedule(msgs: seq<Message>, times: seq<int>): seq<Input>
    requires |times| == |msgs|
  {
    if msgs == [] then []
    else
      Schedule(msgs[..|msgs| - 1], times[..|msgs| - 1]) + [Heard(msgs[|msgs| - 1], times[|msgs| - 1])]
  }

  ghost predicate Sorted(times: seq<int>) {
    forall i, j | 0 <= i < j < |times| :: times[i] <= times[j]
  }

  /** The first message that gets through for the name: its removal, or the first one after the window. */
  function FirstActing(pending: map<string, int>, msgs: seq<Message>, times: seq<int>, name: string): (k: nat)
    requires |times| == |msgs|
    ensures k <= |msgs|
  {
    if msgs == [] then 0
    else
      var n := |msgs| - 1;
      var k := FirstActing(pending, msgs[..n], times[..n], name);
      if k < n then k
      else if msgs[n].name == name && (msgs[n].op == OpRemoved || !Pending(pending, name, times[n])) then n
      else n + 1
  }

  lemma AfterSchedule(page: Page, msgs: seq<Message>, times: seq<int>)
    requires |times| == |msgs| > 0
    ensures var n := |msgs| - 1;
            After(page, Schedule(msgs, times)) ==
            Next(After(page, Schedule(msgs[..n], times[..n])), Heard(msgs[n], times[n]))
  {
    var n := |msgs| - 1;
    var init := Schedule(msgs[..n], times[..n]);
    assert (init + [Heard(msgs[n], times[n])])[..|init|] == init;
  }

  /** What a schedule leaves pending for the name: as before until a message has got through, nothing after that. */
  lemma {:induction false} PendingAlong(page: Page, msgs: seq<Message>, times: seq<int>, name: string, t: int)
    requires |times| == |msgs| && Sorted(times) && (forall i | 0 <= i < |times| :: times[i] <= t) && name != ""
    ensures Pending(After(page, Schedule(msgs, times)).pending, name, t) ==
            (Pending(page.pending, name, t) && FirstActing(page.pending, msgs, times, name) == |msgs|)
  {
    if msgs != [] {
      var n := |msgs| - 1;
      PendingAlong(page, msgs[..n], times[..n], name, t);
      AfterSchedule(page, msgs, times);
      PendingAfter(After(page, Schedule(msgs[..n], times[..n])).pending, msgs[n], times[n], name, t);
    }
  }

  lemma OtherNames(rows: Table, msg: Message, name: string)
    requires msg.name != name || name == ""
    ensures RowAt(Applied(rows, msg), name) == RowAt(rows, name)
  {
  }

  /** The suppressed messages for a name are an initial stretch: the row comes from all the others. */
  lemma {:induction false} InitialStretch(page: Page, msgs: seq<Message>, times: seq<int>, name: string)
    requires |times| == |msgs| && Sorted(times) && name != ""
    ensures var k := FirstActing(page.pending, msgs, times, name);
            RowAt(After(page, Schedule(msgs, times)).rows, name) == RowAt(ApplyAll(page.rows, msgs[k..]), name)
  {
    if msgs != [] {
      var n := |msgs| - 1;
      var k, j := FirstActing(page.pending, msgs, times, name), FirstActing(page.pending, msgs[..n], times[..n], name);
      var mid := After(page, Schedule(msgs[..n], times[..n]));
      InitialStretch(page, msgs[..n], times[..n], name);
      AfterSchedule(page, msgs, times);
      PendingAlong(page, msgs[..n], times[..n], name, times[n]);
      StretchSnoc(page.rows, msgs, j);
      var rest := ApplyAll(page.rows, msgs[..n][j..]);
      if msgs[n].name != name {
        OtherNames(mid.rows, msgs[n], name);
        OtherNames(rest, msgs[n], name);
      }
      if k == n + 1 {
        assert msgs[k..] == [] && msgs[..n][j..] == [];
      } else {
        SameEffect(mid.rows, rest, msgs[n], name);
      }
    }
  }

  lemma StretchSnoc(rows: Table, msgs: seq<Message>, j: nat)
    requires msgs != [] && j <= |msgs| - 1
    ensures ApplyAll(rows, msgs[j..]) == Applied(ApplyAll(rows, msgs[..|msgs| - 1][j..]), msgs[|msgs| - 1])
  {
    assert msgs[j..] == msgs[..|msgs| - 1][j..] + [msgs[|msgs| - 1]];
    ApplySnoc(rows, msgs[..|msgs| - 1][j..], msgs[|msgs| - 1]);
  }

  lemma SameEffect(a: Table, b: Table, msg: Message, name: string)
    requires RowAt(a, name) == RowAt(b, name)
    ensures RowAt(Applied(a, msg), name) == RowAt(Applied(b, msg), name)
  {
  }

  lemma {:induction false} BecomeIff(msgs: seq<Message>, name: string)
    requires name != ""
    ensures EffectOfAll(msgs, name).Become? <==>
            exists i :: 0 <= i < |msgs| && msgs[i].name == name && Definite(msgs[i])
  {
    if msgs != [] {
      var init, last := msgs[..|msgs| - 1], msgs[|msgs| - 1];
      BecomeIff(init, name);
      if i :| 0 <= i < |init| && init[i].name == name && Definite(init[i]) { assert msgs[i] == init[i]; }
      if i :| 0 <= i < |msgs| && msgs[i].name == name && Definite(msgs[i]) {
        if i < |init| { assert init[i] == msgs[i]; }
      }
      if Definite(last) && last.name == name { assert msgs[|init|] == last; }
    }
  }

  /** Some message of the stretch removes the row or replaces it. */
  predicate Heals(msgs: seq<Message>, name: string) {
    exists i | 0 <= i < |msgs| :: msgs[i].name == name && Definite(msgs[i])
  }

  /** The row as the later messages leave it, which at most write a badge over it, shows no trace of the stretch. */
  predicate NoTrace(stretch: Effect, later: Effect, row: Option<Row>) {
    match stretch
    case Keep => true
    case Badge(status) => later.Badge? || row.None? || row.value.badge == Some(status)
    case Become(r) =>
      if later.Badge? && r.Some? && row.Some? then r.value.html == row.value.html else r == row
  }

  /**
    One log that reaches two pages in the same state at different times. Let lo and hi be the first messages
    for a name that get through on either page. The pages agree on the name if and only if a removal or a
    row comes at hi or later, where both hear it, or the stretch that only one let through leaves no trace.
   */
  lemma TwoSchedulesAgreeIff(page: Page, msgs: seq<Message>, a: seq<int>, b: seq<int>, name: string)
    requires |a| == |msgs| && |b| == |msgs| && Sorted(a) && Sorted(b) && name != ""
    ensures var i, j := FirstActing(page.pending, msgs, a, name), FirstActing(page.pending, msgs, b, name);
            var lo, hi := if i <= j then i else j, if i <= j then j else i;
            RowAt(After(page, Schedule(msgs, a)).rows, name) == RowAt(After(page, Schedule(msgs, b)).rows, name) <==>
            || Heals(msgs[hi..], name)
            || NoTrace(EffectOfAll(msgs[lo..hi], name), EffectOfAll(msgs[hi..], name), RowAt(page.rows, name))
  {
    InitialStretch(page, msgs, a, name);
    InitialStretch(page, msgs, b, name);
    var i, j := FirstActing(page.pending, msgs, a, name), FirstActing(page.pending, msgs, b, name);
    if i <= j { TailsAgreeIff(page.rows, msgs, i, j, name); } else { TailsAgreeIff(page.rows, msgs, j, i, name); }
  }

  lemma TailsAgreeIff(rows: Table, msgs: seq<Message>, lo: nat, hi: nat, name: string)
    requires lo <= hi <= |msgs| && name != ""
    ensures RowAt(ApplyAll(rows, msgs[lo..]), name) == RowAt(ApplyAll(rows, msgs[hi..]), name) <==>
            || Heals(msgs[hi..], name)
            || NoTrace(EffectOfAll(msgs[lo..hi], name), EffectOfAll(msgs[hi..], name), RowAt(rows, name))
  {
    var stretch, later := msgs[lo..hi], msgs[hi..];
    assert msgs[lo..] == stretch + later;
    ApplyConcat(rows, stretch, later);
    ApplyIsAct(rows, stretch, name);
    ApplyIsAct(ApplyAll(rows, stretch), later, name);
    ApplyIsAct(rows, later, name);
    BecomeIff(later, name);
  }

  /**
    The plain case: one change after a delete, heard by one page within the window and by the other, which was
    away, after it. The second page has the row back, and they agree only if it was the row shown all along.
   */
  lemma ChangeHeardAfterTheWindow(page: Page, msg: Message, soon: int, late: int)
    requires Definite(msg) && msg.op != OpRemoved && msg.name in page.pending
    requires soon - page.pending[msg.name] <= 5000 < late - page.pending[msg.name]
    ensures var near, far := After(page, [Heard(msg, soon)]), After(page, [Heard(msg, late)]);
            && near.rows == page.rows && RowAt(far.rows, msg.name) == Outcome(msg)
            && (near.rows == far.rows <==> RowAt(page.rows, msg.name) == Outcome(msg))
  {
    var near, far := After(page, [Heard(msg, soon)]), After(page, [Heard(msg, late)]);
    assert [Heard(msg, soon)][..0] == [] && [Heard(msg, late)][..0] == [];
    if RowAt(page.rows, msg.name) == Outcome(msg) {
      forall name ensures RowAt(near.rows, name) == RowAt(far.rows, name) {
        if name != msg.name { OtherNames(page.rows, msg, name); }
      }
      SameTable(near.rows, far.rows);
    }
  }

  /**
    Another plain case: a delete that was accepted on one page, while no removal has been logged yet. The two
    pages heard the same, and they differ exactly if there was a row to delete.
   */
  lemma DeletedOnOnePage(page: Page, name: string, asked: int, accepted: int)
    requires name != ""
    ensures var here := After(page, [Marked(name, asked), Swapped(name, accepted)]);
            && RowAt(here.rows, name) == None
            && (here.rows == page.rows <==> name !in page.rows)
  {
    var inputs := [Marked(name, asked), Swapped(name, accepted)];
    assert inputs[..1] == [Marked(name, asked)] && [Marked(name, asked)][..0] == [];
    assert After(page, [Marked(name, asked)]) == page.(pending := page.pending[name := asked]);
    assert After(page, inputs).rows == page.rows - {name};
    if name !in page.rows { assert page.rows - {name} == page.rows; }
  }
}
