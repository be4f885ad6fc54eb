/** The per-tenant replay ring (replayBuffer, internal/k8s/watcher.go). */
module Ring {

  datatype EventType = Added | Modified | Deleted

  /** details stands for everything else a row is rendered from. */
  datatype App = App(name: string, status: string, details: string)

  datatype WatchEvent = WatchEvent(kind: EventType, app: App, id: nat)

  const REPLAY_BUFFER_SIZE := 128

  function Above(events: seq<WatchEvent>, sinceID: int): seq<WatchEvent> {
    if events == [] then []
    else
      var last := events[|events| - 1];
      Above(events[..|events| - 1], sinceID) + if last.id > sinceID then [last] else []
  }

  /** The part of the log the ring still holds. */
  function Retained(log: seq<WatchEvent>): seq<WatchEvent> {
    if |log| > REPLAY_BUFFER_SIZE then log[|log| - REPLAY_BUFFER_SIZE..] else log
  }

  lemma RingIndex(n: nat, i: nat)
    ensures n >= REPLAY_BUFFER_SIZE ==>
              (n % REPLAY_BUFFER_SIZE + i) % REPLAY_BUFFER_SIZE == (n - REPLAY_BUFFER_SIZE + i) % REPLAY_BUFFER_SIZE
    ensures n < REPLAY_BUFFER_SIZE && i < n ==> i % REPLAY_BUFFER_SIZE == i
  {
  }

  /** The slot an event is written to holds none of the 127 before it. */
  lemma SlotIsFree(n: nat, i: nat)
    requires n - REPLAY_BUFFER_SIZE < i < n
    ensures i % REPLAY_BUFFER_SIZE != n % REPLAY_BUFFER_SIZE
  {
  }

  lemma NextSlot(n: nat)
    ensures (n % REPLAY_BUFFER_SIZE + 1) % REPLAY_BUFFER_SIZE == (n + 1) % REPLAY_BUFFER_SIZE
  {
  }

  class ReplayBuffer {
    var events: array?<WatchEvent>
    var head: nat
    var full: bool
    ghost var log: seq<WatchEvent> // everything ever added

    ghost predicate Valid()
      reads this, events
    {
      if events == null then log == [] && head == 0 && !full
      else
        && events.Length == REPLAY_BUFFER_SIZE
        && log != [] && head == |log| % REPLAY_BUFFER_SIZE
        && (full <==> |log| >= REPLAY_BUFFER_SIZE)
        && forall i | 0 <= i < |log| && |log| - REPLAY_BUFFER_SIZE <= i :: events[i % REPLAY_BUFFER_SIZE] == log[i]
    }

    constructor ()
      ensures Valid() && log == [] && events == null
    {
      events, head, full, log := null, 0, false, [];
    }

    method Add(evt: WatchEvent)
      requires Valid()
      modifies this, events
      ensures Valid() && log == old(log) + [evt]
      ensures if old(events) == null then fresh(events) else events == old(events)
    {
      if events == null {
        events := new WatchEvent[REPLAY_BUFFER_SIZE];
      }
      forall i | |log| - REPLAY_BUFFER_SIZE < i < |log| && i >= 0 ensures i % REPLAY_BUFFER_SIZE != head {
        SlotIsFree(|log|, i);
      }
      NextSlot(|log|);
      events[head] := evt;
      head := (head + 1) % REPLAY_BUFFER_SIZE;
      if head == 0 {
        full := true;
      }
      log := log + [evt];
    }

    method Since(sinceID: int) returns (out: seq<WatchEvent>)
      requires Valid()
      ensures out == Above(Retained(log), sinceID)
    {
      out := [];
      if events == null {
        return;
      }
      var start, count := 0, head;
      if full {
        start, count := head, REPLAY_BUFFER_SIZE;
      }
      ghost var kept := Retained(log);
      assert count == |kept|;
      for i := 0 to count
        invariant out == Above(kept[..i], sinceID)
      {
        var idx := (start + i) % REPLAY_BUFFER_SIZE;
        ghost var pos := |log| - count + i;
        RingIndex(|log|, i);
        assert idx == pos % REPLAY_BUFFER_SIZE && kept[i] == log[pos];
        assert kept[..i + 1][..i] == kept[..i];
        if events[idx].id > sinceID {
          out := out + [events[idx]];
        }
      }
      assert kept[..count] == kept;
    }
  }

  // ---- what a replay contains ---------------------------------------------------------

  ghost predicate Increasing(log: seq<WatchEvent>) {
    forall i, j | 0 <= i < j < |log| :: log[i].id < log[j].id
  }

  /** The position from which on every event of an increasing log is above sinceID. */
  function FirstAbove(log: seq<WatchEvent>, sinceID: int): (k: nat)
    ensures k <= |log|
  {
    if log == [] then 0
    else
      var init := log[..|log| - 1];
      if log[|log| - 1].id > sinceID then FirstAbove(init, sinceID) else |log|
  }

  lemma {:induction false} FirstAboveDivides(log: seq<WatchEvent>, sinceID: int)
    requires Increasing(log)
    ensures forall i | 0 <= i < |log| :: log[i].id > sinceID <==> i >= FirstAbove(log, sinceID)
  {
    if log != [] {
      var init := log[..|log| - 1];
      FirstAboveDivides(init, sinceID);
      assert forall i | 0 <= i < |init| :: init[i] == log[i];
    }
  }

  lemma {:induction false} AboveIsTail(log: seq<WatchEvent>, sinceID: int)
    requires Increasing(log)
    ensures Above(log, sinceID) == log[FirstAbove(log, sinceID)..]
    ensures forall i | 0 <= i < |log| :: log[i].id > sinceID <==> i >= FirstAbove(log, sinceID)
  {
    FirstAboveDivides(log, sinceID);
    if log != [] {
      var init, last := log[..|log| - 1], log[|log| - 1];
      AboveIsTail(init, sinceID);
      if last.id > sinceID {
        TailSnoc(log, FirstAbove(init, sinceID));
      } else {
        NoneAbove(init, sinceID);
      }
    }
  }

  lemma TailSnoc(log: seq<WatchEvent>, k: nat)
    requires k < |log|
    ensures log[..|log| - 1][k..] + [log[|log| - 1]] == log[k..]
  {
  }

  lemma {:induction false} NoneAbove(log: seq<WatchEvent>, sinceID: int)
    requires forall i | 0 <= i < |log| :: log[i].id <= sinceID
    ensures Above(log, sinceID) == []
  {
    if log != [] { NoneAbove(log[..|log| - 1], sinceID); }
  }

  /** Where the replay starts in the log. */
  function ReplayStart(log: seq<WatchEvent>, sinceID: int): (k: nat)
    ensures k <= |log|
  {
    var first := FirstAbove(log, sinceID);
    if |log| - first > REPLAY_BUFFER_SIZE then |log| - REPLAY_BUFFER_SIZE else first
  }

  lemma FirstAboveOfSuffix(log: seq<WatchEvent>, sinceID: int, cut: nat)
    requires Increasing(log) && cut <= |log|
    ensures var first := FirstAbove(log, sinceID);
            FirstAbove(log[cut..], sinceID) == if first <= cut then 0 else first - cut
  {
    var kept := log[cut..];
    AboveIsTail(log, sinceID);
    AboveIsTail(kept, sinceID);
    assert forall i | 0 <= i < |kept| :: kept[i] == log[cut + i];
    var f, g := FirstAbove(log, sinceID), FirstAbove(kept, sinceID);
    assert g < |kept| ==> kept[g].id > sinceID;
    assert g > 0 ==> kept[g - 1].id <= sinceID;
    assert f < |log| ==> log[f].id > sinceID;
    assert f > 0 ==> log[f - 1].id <= sinceID;
  }

  /**
    A replay is a contiguous suffix of the tenant's log, and it is everything above sinceID exactly
    when at most 128 events are.
   */
  lemma ReplayIsSuffix(log: seq<WatchEvent>, sinceID: int)
    requires Increasing(log)
    ensures Above(Retained(log), sinceID) == log[ReplayStart(log, sinceID)..]
    ensures Above(Retained(log), sinceID) == Above(log, sinceID) <==> |Above(log, sinceID)| <= 128
  {
    RetainedAbove(log, sinceID);
    AboveIsTail(log, sinceID);
    var k, first := ReplayStart(log, sinceID), FirstAbove(log, sinceID);
    assert |log[k..]| == |log| - k && |log[first..]| == |log| - first;
  }

  lemma RetainedAbove(log: seq<WatchEvent>, sinceID: int)
    requires Increasing(log)
    ensures Above(Retained(log), sinceID) == log[ReplayStart(log, sinceID)..]
  {
    var kept := Retained(log);
    var cut := |log| - |kept|;
    assert kept == log[cut..];
    AboveIsTail(kept, sinceID);
    FirstAboveOfSuffix(log, sinceID, cut);
    TailOfTail(log, cut, FirstAbove(kept, sinceID));
  }

  lemma TailOfTail(log: seq<WatchEvent>, cut: nat, k: nat)
    requires cut + k <= |log|
    ensures log[cut..][k..] == log[cut + k..]
  {
  }
}
