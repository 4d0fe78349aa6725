/** What whole runs of the client come to, told by the steps that were taken. */
module AmiRuns {
  import opened AmiRouting

  // ------------------------------------------------------------- the calls

  predicate Ends(s: State, c: nat, outcome: Outcome) {
    HasStage(s, c, Leaving(outcome)) || HasStage(s, c, Done(outcome))
  }

  /** The call got a block, good or bad. */
  predicate Replied(s: State, c: nat) {
    c < |s.calls| &&
    match s.calls[c].stage
    case Leaving(o) => o.Answered? || o.Refused?
    case Done(o) => o.Answered? || o.Refused?
    case _ => false
  }

  lemma StepEndsCalls(s: State, step: Step, c: nat)
    requires Enabled(s, step)
    ensures var t := Next(s, step);
      && (Ends(t, c, WriteFailed) <==> Ends(s, c, WriteFailed) || step == Write(c, false))
      && (Ends(t, c, TimedOut) <==> Ends(s, c, TimedOut) || step == Expire(c))
  {
    hide Get, IsAccepted, ActionId;
  }

  lemma StepReplies(s: State, step: Step, c: nat)
    requires Enabled(s, step)
    ensures Replied(Next(s, step), c) <==> Replied(s, c) || step == Take(c)
  {
    hide Get, IsAccepted, ActionId;
  }

  lemma StepRegisters(s: State, step: Step, c: nat)
    requires Enabled(s, step)
    ensures var t := Next(s, step);
      && (c < |s.calls| ==>
            && (Ends(t, c, NotConnected) <==> Ends(s, c, NotConnected))
            && (HasStage(t, c, Registered) <==>
                  HasStage(s, c, Registered) && step != Write(c, true) && step != Write(c, false)))
      && (c >= |s.calls| && c < |t.calls| ==> HasStage(t, c, Registered) || Ends(t, c, NotConnected))
      && (c >= |s.calls| ==> step != Write(c, true) && step != Write(c, false))
      && |s.calls| <= |t.calls|
  {
    hide Get, IsAccepted, ActionId;
  }

  lemma {:induction false} RunTold(s: State, steps: seq<Step>, c: nat)
    requires ValidRun(s, steps)
    ensures var t := Exec(s, steps);
      && (Ends(t, c, WriteFailed) <==> Ends(s, c, WriteFailed) || Write(c, false) in steps)
      && (Ends(t, c, TimedOut) <==> Ends(s, c, TimedOut) || Expire(c) in steps)
      && (Replied(t, c) <==> Replied(s, c) || Take(c) in steps)
      && (c < |s.calls| ==> (Ends(t, c, NotConnected) <==> Ends(s, c, NotConnected)))
      && (c < |t.calls| ==>
            (HasStage(t, c, Registered) <==>
              && (c < |s.calls| ==> HasStage(s, c, Registered))
              && !Ends(t, c, NotConnected) && Write(c, true) !in steps && Write(c, false) !in steps))
      && |s.calls| <= |t.calls|
    decreases steps
  {
    hide Next, Enabled, Replied;
    if steps != [] {
      StepEndsCalls(s, steps[0], c);
      StepReplies(s, steps[0], c);
      StepRegisters(s, steps[0], c);
      RunTold(Next(s, steps[0]), steps[1..], c);
      assert forall step :: step in steps <==> step == steps[0] || step in steps[1..];
    }
  }

  /**
   The story of every call of every run: its write failed, it timed out or it got a block
   exactly if that step was taken; until its write it is registered, unless it found no
   connection; and otherwise it waits.
   */
  lemma EveryCallTold(steps: seq<Step>, c: nat)
    requires ValidRun(START, steps) && c < |Exec(START, steps).calls|
    ensures var t := Exec(START, steps);
      && (Ends(t, c, WriteFailed) <==> Write(c, false) in steps)
      && (Ends(t, c, TimedOut) <==> Expire(c) in steps)
      && (Replied(t, c) <==> Take(c) in steps)
      && (HasStage(t, c, Registered) <==>
            !Ends(t, c, NotConnected) && Write(c, true) !in steps && Write(c, false) !in steps)
      && (HasStage(t, c, Waiting) <==>
            && !Ends(t, c, NotConnected) && !HasStage(t, c, Registered)
            && Write(c, false) !in steps && Expire(c) !in steps && Take(c) !in steps)
  {
    RunTold(START, steps, c);
  }

  /** A new call has its id from the clock; it finds no connection exactly while no session is on. */
  lemma RegisterTold(s: State, stamp: string)
    requires Inv(s)
    ensures var t := Next(s, Register(stamp)); var c := |s.calls|;
      && |t.calls| == c + 1 && t.calls[..c] == s.calls
      && t.calls[c].id == "ya-" + stamp && t.calls[c].slot.None?
      && (Ends(t, c, NotConnected) <==> s.session.Idle?)
      && (HasStage(t, c, Registered) <==> !s.session.Idle?)
  {
  }

  // ---------------------------------------------------------- the sessions

  /** The session read an error response addressed to no call. */
  ghost predicate ReadError(s: State, session: nat) {
    exists i :: 0 <= i < |s.log| && s.log[i] == Entry(session, s.log[i].block, EndsSession)
  }

  ghost predicate EndedByError(s: State) {
    (s.session.Ended? || s.session.Down?) ==> ReadError(s, s.session.number)
  }

  lemma StepEnds(s: State, step: Step)
    requires Enabled(s, step) && EndedByError(s) && !step.EndRead?
    ensures EndedByError(Next(s, step))
  {
    var t := Next(s, step);
    CallsPersist(s, step);
    hide Get, IsAccepted, ActionId;
    if step.Deliver? {
      FlagAfter(s);
      assert t.log[|s.log|] == HeldEntry(s);
    } else if (t.session.Ended? || t.session.Down?) && ReadError(s, s.session.number) {
      var i :| 0 <= i < |s.log| && s.log[i] == Entry(s.session.number, s.log[i].block, EndsSession);
      assert t.log[i] == s.log[i];
    }
  }

  lemma {:induction false} RunEnds(s: State, steps: seq<Step>)
    requires ValidRun(s, steps) && EndedByError(s) && EndRead !in steps
    ensures EndedByError(Exec(s, steps))
    decreases steps
  {
    hide Next, Enabled, EndedByError;
    if steps != [] {
      assert steps[0] in steps;
      StepEnds(s, steps[0]);
      RunEnds(Next(s, steps[0]), steps[1..]);
    }
  }

  /** A session whose reading was not ended from outside goes down only after an error response. */
  lemma OnlyErrorsEndSessions(steps: seq<Step>)
    requires ValidRun(START, steps) && EndRead !in steps
    ensures EndedByError(Exec(START, steps))
  {
    RunEnds(START, steps);
  }

  // ------------------------------------------------------------ the counts

  /** How often a kind of step is taken. */
  function Times(kind: Step -> bool, steps: seq<Step>): nat {
    if steps == [] then 0 else (if kind(steps[0]) then 1 else 0) + Times(kind, steps[1..])
  }

  predicate IsDial(step: Step) { step.Dial? }
  predicate IsForget(step: Step) { step.Forget? }
  predicate IsMarkDown(step: Step) { step.MarkDown? }
  predicate IsReceive(step: Step) { step.Receive? }
  predicate IsDeliver(step: Step) { step.Deliver? }
  predicate IsRegister(step: Step) { step.Register? }
  predicate IsConsume(step: Step) { step.Consume? }

  /** The last step that opened, began or ended a session. */
  function LastTurn(steps: seq<Step>, before: Step): Step {
    if steps == [] then before
    else LastTurn(steps[1..],
                  if steps[0].Dial? || steps[0].Login? || steps[0].EndRead? || steps[0].Forget? then steps[0] else before)
  }

  lemma StepCounts(s: State, step: Step)
    requires Enabled(s, step)
    ensures var t := Next(s, step);
      && t.dials == s.dials + Times(IsDial, [step]) && |t.consumed| == |s.consumed| + Times(IsConsume, [step])
      && |t.calls| == |s.calls| + Times(IsRegister, [step])
      && Off(t) == Off(s) + Times(IsForget, [step]) - Times(IsDial, [step])
      && Falling(t) == Falling(s) + Times(IsMarkDown, [step]) - Times(IsForget, [step])
      && Held(t) == Held(s) + Times(IsReceive, [step]) - Times(IsDeliver, [step])
  {
    hide Get, IsAccepted, ActionId;
    assert [step][1..] == [];
  }

  function Off(s: State): int { if s.session.Idle? then 1 else 0 }

  function Falling(s: State): int { if s.session.Down? then 1 else 0 }

  function Held(s: State): int { if s.session.Holding? then 1 else 0 }

  lemma TimesCons(kind: Step -> bool, steps: seq<Step>)
    requires steps != []
    ensures Times(kind, steps) == Times(kind, [steps[0]]) + Times(kind, steps[1..])
  {
    assert [steps[0]][1..] == [];
  }

  lemma {:induction false} RunCounts(s: State, steps: seq<Step>)
    requires ValidRun(s, steps)
    ensures var t := Exec(s, steps);
      && t.dials == s.dials + Times(IsDial, steps) && |t.consumed| == |s.consumed| + Times(IsConsume, steps)
      && |t.calls| == |s.calls| + Times(IsRegister, steps)
      && Off(t) == Off(s) + Times(IsForget, steps) - Times(IsDial, steps)
      && Falling(t) == Falling(s) + Times(IsMarkDown, steps) - Times(IsForget, steps)
      && Held(t) == Held(s) + Times(IsReceive, steps) - Times(IsDeliver, steps)
    decreases steps
  {
    hide Next, Enabled, Off, Falling, Held;
    if steps != [] {
      StepCounts(s, steps[0]);
      RunCounts(Next(s, steps[0]), steps[1..]);
      TimesCons(IsDial, steps);
      TimesCons(IsConsume, steps);
      TimesCons(IsRegister, steps);
      TimesCons(IsForget, steps);
      TimesCons(IsMarkDown, steps);
      TimesCons(IsReceive, steps);
      TimesCons(IsDeliver, steps);
    }
  }

  lemma StepGreets(s: State, step: Step, before: Step)
    requires Enabled(s, step) && (s.session.Greeting? <==> before.Dial?)
    ensures Next(s, step).session.Greeting? <==> LastTurn([step], before).Dial?
  {
    hide Get, IsAccepted, ActionId;
    assert [step][1..] == [];
  }

  lemma {:induction false} RunGreets(s: State, steps: seq<Step>, before: Step)
    requires ValidRun(s, steps) && (s.session.Greeting? <==> before.Dial?)
    ensures Exec(s, steps).session.Greeting? <==> LastTurn(steps, before).Dial?
    decreases steps
  {
    hide Next, Enabled;
    if steps != [] {
      StepGreets(s, steps[0], before);
      assert [steps[0]][1..] == [];
      RunGreets(Next(s, steps[0]), steps[1..], LastTurn([steps[0]], before));
    }
  }

  /**
   Where a run has got, by its steps: calls, sessions and consumed events are as many as were begun;
   no session is on after as many Forgets as Dials; one is down between MarkDown and Forget, holds a
   block between Receive and Deliver, and greets until a Dial is followed by Login or EndRead.
   */
  lemma EveryRunCounted(steps: seq<Step>)
    requires ValidRun(START, steps)
    ensures var t := Exec(START, steps);
      && t.dials == Times(IsDial, steps) && |t.consumed| == Times(IsConsume, steps)
      && |t.calls| == Times(IsRegister, steps)
      && (t.session.Idle? <==> Times(IsDial, steps) == Times(IsForget, steps))
      && (t.session.Down? <==> Times(IsMarkDown, steps) == Times(IsForget, steps) + 1)
      && (t.session.Holding? <==> Times(IsReceive, steps) == Times(IsDeliver, steps) + 1)
      && (t.session.Greeting? <==> LastTurn(steps, Consume).Dial?)
  {
    RunCounts(START, steps);
    RunGreets(START, steps, Consume);
  }
}
