/**
  The fan-out of handleEvent one step finer than in Delivery: the range over the live map picks a subscriber,
  and only then comes the send. Unsubscribe closes the channel in its own time, and a send on a closed channel
  panics (internal/k8s/watcher.go). Until that happens every run is one of Delivery's.
 */
module Fanout {
  import opened Text
  import opened Delivery

  /** picked: the subscriber that the range has come to and that has not been sent to yet. */
  datatype Fanout = Fanout(server: State, picked: Option<nat>, panicked: bool)

  const BEGINNING := Fanout(INITIAL, None, false)

  datatype Step = Pick(ch: nat) | Send | Other(a: Action)

  predicate Possible(f: Fanout, step: Step) {
    && !f.panicked
    && match step
       case Pick(ch) => f.picked.None? && Enabled(f.server, Offer(ch))
       case Send => f.picked.Some?
       // handleEvent itself does not go on before it has sent.
       case Other(a) => !a.Offer? && (a.Finish? ==> f.picked.None?) && Enabled(f.server, a)
  }

  predicate Closed(f: Fanout, ch: nat) { ch !in f.server.subs || !f.server.subs[ch].live }

  function Next(f: Fanout, step: Step): Fanout {
    if !Possible(f, step) then f
    else match step
      case Pick(ch) => f.(picked := Some(ch))
      case Send =>
        if Closed(f, f.picked.value) then f.(picked := None, panicked := true)
        else f.(server := Exec(f.server, Offer(f.picked.value)), picked := None)
      case Other(a) => f.(server := Exec(f.server, a))
  }

  function After(f: Fanout, steps: seq<Step>): Fanout {
    if steps == [] then f else Next(After(f, steps[..|steps| - 1]), steps[|steps| - 1])
  }

  lemma AfterSnoc(f: Fanout, steps: seq<Step>, step: Step)
    ensures After(f, steps + [step]) == Next(After(f, steps), step)
  {
    assert (steps + [step])[..|steps|] == steps;
  }

  lemma {:induction false} AfterConcat(f: Fanout, a: seq<Step>, b: seq<Step>)
    ensures After(f, a + b) == After(After(f, a), b)
  {
    if b == [] {
      assert a + b == a;
    } else {
      AfterConcat(f, a, b[..|b| - 1]);
      Regroup(a, b);
      AfterSnoc(f, a + b[..|b| - 1], b[|b| - 1]);
    }
  }

  // ---- a picked subscriber stays within reach ----------------------------------------------------

  /** As long as the picked subscriber has not left, the offer that Delivery makes in one step is still open. */
  ghost predicate InReach(f: Fanout) {
    f.picked.Some? && !f.panicked ==>
      var ch := f.picked.value;
      ch in f.server.subs && f.server.current.Some? && (f.server.subs[ch].live ==> Enabled(f.server, Offer(ch)))
  }

  lemma OtherKeepsReach(f: Fanout, a: Action)
    requires InReach(f) && Possible(f, Other(a)) && f.picked.Some?
    ensures InReach(Next(f, Other(a)))
  {
    var ch, s := f.picked.value, f.server;
    var s' := Exec(s, a);
    if s'.subs[ch].live { assert s.subs[ch].live && s'.subs[ch].tenant == s.subs[ch].tenant; }
  }

  lemma NextKeepsReach(f: Fanout, step: Step)
    requires InReach(f)
    ensures InReach(Next(f, step))
  {
    if step.Other? && Possible(f, step) && f.picked.Some? { OtherKeepsReach(f, step.a); }
  }

  lemma {:induction false} AfterKeepsReach(f: Fanout, steps: seq<Step>)
    requires InReach(f)
    ensures InReach(After(f, steps))
  {
    if steps != [] {
      AfterKeepsReach(f, steps[..|steps| - 1]);
      NextKeepsReach(After(f, steps[..|steps| - 1]), steps[|steps| - 1]);
    }
  }

  /** What the subscribers are given is what a run of Delivery gives them, where picking and sending are one step. */
  lemma {:induction false} FanoutIsRun(steps: seq<Step>) returns (actions: seq<Action>)
    ensures After(BEGINNING, steps).server == Run(INITIAL, actions)
  {
    if steps == [] {
      actions := [];
    } else {
      var init, step := steps[..|steps| - 1], steps[|steps| - 1];
      var f := After(BEGINNING, init);
      AfterKeepsReach(BEGINNING, init);
      actions := FanoutIsRun(init);
      if Possible(f, step) && step.Other? {
        RunSnoc(INITIAL, actions, step.a);
        actions := actions + [step.a];
      } else if Possible(f, step) && step.Send? && !Closed(f, f.picked.value) {
        RunSnoc(INITIAL, actions, Offer(f.picked.value));
        actions := actions + [Offer(f.picked.value)];
      }
    }
  }

  // ---- exactly when a send panics --------------------------------------------------------------------

  lemma ClosingStep(f: Fanout, ch: nat, step: Step)
    requires !f.panicked && f.picked == Some(ch) && ch in f.server.subs && step != Send
    ensures var g := Next(f, step);
            && !g.panicked && g.picked == Some(ch) && ch in g.server.subs
            && (Closed(g, ch) <==> Closed(f, ch) || step == Other(Unsubscribe(ch)))
  {
  }

  /** Between picking ch and sending: it has been closed exactly if it has unsubscribed in between. */
  lemma {:induction false} ClosedIffLeft(f: Fanout, ch: nat, between: seq<Step>)
    requires !f.panicked && f.picked == Some(ch) && !Closed(f, ch) && Send !in between
    ensures var g := After(f, between);
            && !g.panicked && g.picked == Some(ch) && ch in g.server.subs
            && (Closed(g, ch) <==> Other(Unsubscribe(ch)) in between)
  {
    if between != [] {
      var init, last := between[..|between| - 1], between[|between| - 1];
      assert between == init + [last];
      assert Send !in init && last != Send;
      ClosedIffLeft(f, ch, init);
      ClosingStep(After(f, init), ch, last);
    }
  }

  ghost predicate LeavesPicked(before: seq<Step>, ch: nat, between: seq<Step>) {
    && Possible(After(BEGINNING, before), Pick(ch))
    && Send !in between && Other(Unsubscribe(ch)) in between
  }

  function Sending(before: seq<Step>, ch: nat, between: seq<Step>): seq<Step> {
    before + [Pick(ch)] + between + [Send]
  }

  /** The send to a picked subscriber panics if and only if it unsubscribed after it was picked. */
  lemma SendPanicsIff(before: seq<Step>, ch: nat, between: seq<Step>)
    requires Possible(After(BEGINNING, before), Pick(ch)) && Send !in between
    ensures After(BEGINNING, Sending(before, ch, between)).panicked <==> Other(Unsubscribe(ch)) in between
  {
    var f := After(BEGINNING, before);
    AfterSnoc(BEGINNING, before, Pick(ch));
    AfterConcat(BEGINNING, before + [Pick(ch)], between);
    AfterSnoc(BEGINNING, before + [Pick(ch)] + between, Send);
    ClosedIffLeft(Next(f, Pick(ch)), ch, between);
  }

  lemma {:induction false} PanickedIsIdle(steps: seq<Step>)
    ensures After(BEGINNING, steps).panicked ==> After(BEGINNING, steps).picked == None
  {
    if steps != [] { PanickedIsIdle(steps[..|steps| - 1]); }
  }

  /** Where the subscriber now picked was picked. */
  lemma {:induction false} PickedAt(steps: seq<Step>, ch: nat) returns (before: seq<Step>, between: seq<Step>)
    requires After(BEGINNING, steps).picked == Some(ch)
    ensures steps == before + [Pick(ch)] + between && Send !in between
    ensures Possible(After(BEGINNING, before), Pick(ch))
  {
    var init, last := steps[..|steps| - 1], steps[|steps| - 1];
    assert steps == init + [last];
    PanickedIsIdle(init);
    if After(BEGINNING, init).picked == Some(ch) {
      var rest;
      before, rest := PickedAt(init, ch);
      between := rest + [last];
      Assoc(before + [Pick(ch)], rest, [last]);
    } else {
      before, between := init, [];
      assert init + [last] + [] == init + [last];
    }
  }

  lemma {:induction false} PanicStays(f: Fanout, steps: seq<Step>)
    requires f.panicked
    ensures After(f, steps).panicked
  {
    if steps != [] { PanicStays(f, steps[..|steps| - 1]); }
  }

  lemma {:induction false} PanicComesFrom(steps: seq<Step>)
    returns (before: seq<Step>, ch: nat, between: seq<Step>, rest: seq<Step>)
    requires After(BEGINNING, steps).panicked
    ensures LeavesPicked(before, ch, between) && steps == Sending(before, ch, between) + rest
  {
    var init, last := steps[..|steps| - 1], steps[|steps| - 1];
    assert steps == init + [last];
    if After(BEGINNING, init).panicked {
      var tail;
      before, ch, between, tail := PanicComesFrom(init);
      rest := tail + [last];
      Assoc(Sending(before, ch, between), tail, [last]);
    } else {
      ch := After(BEGINNING, init).picked.value;
      before, between := PickedAt(init, ch);
      SendPanicsIff(before, ch, between);
      rest := [];
      assert Sending(before, ch, between) + [] == Sending(before, ch, between);
    }
  }

  /** The watcher panics in a run if and only if somewhere in it a picked subscriber leaves before it is sent to. */
  lemma RunPanicsIff(steps: seq<Step>)
    ensures After(BEGINNING, steps).panicked <==>
            exists before, ch, between, rest ::
              LeavesPicked(before, ch, between) && steps == Sending(before, ch, between) + rest
  {
    if After(BEGINNING, steps).panicked {
      var before, ch, between, rest := PanicComesFrom(steps);
    }
    if before, ch, between, rest :| LeavesPicked(before, ch, between) && steps == Sending(before, ch, between) + rest {
      SendPanicsIff(before, ch, between);
      AfterConcat(BEGINNING, Sending(before, ch, between), rest);
      PanicStays(After(BEGINNING, Sending(before, ch, between)), rest);
    }
  }

  // ---- every run of the coarser machine is one of these -----------------------------------------------

  lemma OfferIsPickAndSend(f: Fanout, ch: nat)
    requires !f.panicked && f.picked.None? && Enabled(f.server, Offer(ch))
    ensures After(f, [Pick(ch), Send]) == f.(server := Exec(f.server, Offer(ch)))
  {
    AfterSnoc(f, [], Pick(ch));
    AfterSnoc(f, [Pick(ch)], Send);
    assert [] + [Pick(ch)] == [Pick(ch)] && [Pick(ch)] + [Send] == [Pick(ch), Send];
  }

  /** Picking and sending at once, it does all that Delivery does, and does not panic. */
  lemma {:induction false} RunIsFanout(actions: seq<Action>) returns (steps: seq<Step>)
    ensures After(BEGINNING, steps) == Fanout(Run(INITIAL, actions), None, false)
  {
    if actions == [] {
      steps := [];
    } else {
      var init, a := actions[..|actions| - 1], actions[|actions| - 1];
      steps := RunIsFanout(init);
      var f := After(BEGINNING, steps);
      if Enabled(f.server, a) && a.Offer? {
        OfferIsPickAndSend(f, a.ch);
        AfterConcat(BEGINNING, steps, [Pick(a.ch), Send]);
        steps := steps + [Pick(a.ch), Send];
      } else if Enabled(f.server, a) {
        AfterSnoc(BEGINNING, steps, Other(a));
        steps := steps + [Other(a)];
      }
    }
  }
}
