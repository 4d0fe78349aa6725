/** The client as the object it is: each locked section or channel operation is a method. */
module AmiClients {
  import opened Wrappers
  import opened AmiWire
  import opened AmiRouting

  lemma HeldFacts(s: State)
    requires Inv(s)
    ensures s.session.Holding? && s.session.target.Some? ==> s.session.target.value < |s.calls|
  {
  }

  lemma SlotFacts(s: State, c: nat)
    requires Inv(s) && Enabled(s, Take(c))
    ensures "ActionID" in s.calls[c].slot.value && s.calls[c].slot.value["ActionID"] == s.calls[c].id
  {
    OwnAnswer(s, c);
    var id, b := s.calls[c].id, s.calls[c].slot.value;
    assert b in InSlot(s.calls[c]);
    assert Get(b, "ActionID") == id;
    assert IsActionId(id) && |id| >= 3;
  }

  class Client {
    // shared fields
    var conn: Option<nat>
    var connected: bool
    var pending: map<string, nat>
    var events: seq<Headers>
    // local variables of connect and of the callers, which outlive each section
    var session: Session
    var calls: seq<Call>
    ghost var dials: nat
    ghost var consumed: seq<Headers>
    ghost var log: seq<Entry>

    ghost function Current(): State
      reads this
    {
      State(conn, connected, session, dials, pending, calls, events, consumed, log)
    }

    ghost predicate Valid()
      reads this
    {
      Inv(Current())
    }

    constructor ()
      ensures Valid() && Current() == START
    {
      conn, connected, pending, events := None, false, map[], [];
      session, calls := Idle, [];
      dials, consumed, log := 0, [], [];
      new;
      StartInv();
    }

    /** connect, once the peer is dialled: client.go:227-229. */
    method Dial(number: nat)
      requires Valid() && Enabled(Current(), AmiRouting.Dial) && number == dials
      modifies this
      ensures Valid() && Current() == Next(old(Current()), AmiRouting.Dial)
    {
      hide Inv, ActionId;
      NextInv(Current(), AmiRouting.Dial);
      conn := Some(number);
      session := Greeting(number);
      dials := dials + 1;
    }

    method Login()
      requires Valid() && Enabled(Current(), AmiRouting.Login)
      modifies this
      ensures Valid() && Current() == Next(old(Current()), AmiRouting.Login)
    {
      hide Inv, ActionId;
      NextInv(Current(), AmiRouting.Login);
      session := Reading(session.number);
    }

    /** readLoop has a complete block, and looks its id up under the lock. */
    method Receive(b: Headers)
      requires Valid() && Enabled(Current(), AmiRouting.Receive(b))
      modifies this
      ensures Valid() && Current() == Next(old(Current()), AmiRouting.Receive(b))
    {
      hide Inv, ActionId;
      NextInv(Current(), AmiRouting.Receive(b));
      var id := Get(b, "ActionID");
      var target := None;
      if id != "" {
        if id in pending {
          target := Some(pending[id]);
        }
      }
      session := Holding(session.number, b, target);
    }

    /** Without the lock, it hands the block on. */
    method Deliver()
      requires Valid() && Enabled(Current(), AmiRouting.Deliver)
      modifies this
      ensures Valid() && Current() == Next(old(Current()), AmiRouting.Deliver)
    {
      hide Inv, ActionId;
      ghost var before := Current();
      NextInv(before, AmiRouting.Deliver);
      HeldFacts(before);
      log := log + [HeldEntry(before)];
      var b, target := session.block, session.target;
      session := Reading(session.number);
      if target.Some? {
        var ch := target.value;
        if calls[ch].slot.None? {
          calls := calls[ch := calls[ch].(slot := Some(b))];
        }
        return;
      }
      if "Response" in b {
        if b["Response"] == "Success" {
          if Get(b, "Message") == "Authentication accepted" {
            connected := true;
          }
        } else if b["Response"] == "Error" {
          session := Ended(session.number);
          return;
        }
      }
      if |events| < EVENT_CAPACITY {
        events := events + [b];
      }
    }

    method EndRead()
      requires Valid() && Enabled(Current(), AmiRouting.EndRead)
      modifies this
      ensures Valid() && Current() == Next(old(Current()), AmiRouting.EndRead)
    {
      hide Inv, ActionId;
      NextInv(Current(), AmiRouting.EndRead);
      session := Ended(session.number);
    }

    /** The deferred half of connect that takes no lock. */
    method MarkDown()
      requires Valid() && Enabled(Current(), AmiRouting.MarkDown)
      modifies this
      ensures Valid() && Current() == Next(old(Current()), AmiRouting.MarkDown)
    {
      hide Inv, ActionId;
      NextInv(Current(), AmiRouting.MarkDown);
      connected := false;
      session := Down(session.number);
    }

    /** The deferred half of connect under the lock. */
    method Forget()
      requires Valid() && Enabled(Current(), AmiRouting.Forget)
      modifies this
      ensures Valid() && Current() == Next(old(Current()), AmiRouting.Forget)
    {
      hide Inv, ActionId;
      NextInv(Current(), AmiRouting.Forget);
      if conn == Some(session.number) {
        conn := None;
      }
      session := Idle;
    }

    /** The first locked section of SendActionWait. */
    method Register(stamp: string) returns (call: nat)
      requires Valid() && FreshStep(Current(), AmiRouting.Register(stamp))
      modifies this
      ensures Valid() && Current() == Next(old(Current()), AmiRouting.Register(stamp))
      ensures call == old(|calls|)
    {
      hide Inv, ActionId;
      NextInv(Current(), AmiRouting.Register(stamp));
      var id := ActionId(stamp);
      call := |calls|;
      if conn.Some? {
        pending := pending[id := call];
        calls := calls + [Call(id, Registered, None)];
      } else {
        calls := calls + [Call(id, Done(NotConnected), None)];
      }
    }

    method Write(call: nat, ok: bool)
      requires Valid() && Enabled(Current(), AmiRouting.Write(call, ok))
      modifies this
      ensures Valid() && Current() == Next(old(Current()), AmiRouting.Write(call, ok))
    {
      hide Inv, ActionId;
      NextInv(Current(), AmiRouting.Write(call, ok));
      calls := calls[call := calls[call].(stage := if ok then Waiting else Leaving(WriteFailed))];
    }

    /** The select of SendActionWait when an answer is there. */
    method Take(call: nat) returns (outcome: Outcome)
      requires Valid() && Enabled(Current(), AmiRouting.Take(call))
      modifies this
      ensures Valid() && Current() == Next(old(Current()), AmiRouting.Take(call))
      ensures outcome.Answered? || outcome.Refused?
      ensures outcome.Refused? <==> "Response" in outcome.block && outcome.block["Response"] == "Error"
      ensures "ActionID" in outcome.block && outcome.block["ActionID"] == old(calls[call].id)
    {
      hide Inv, ActionId;
      NextInv(Current(), AmiRouting.Take(call));
      SlotFacts(Current(), call);
      var evt := calls[call].slot.value;
      if Get(evt, "Response") == "Error" {
        outcome := Refused(evt);
      } else {
        outcome := Answered(evt);
      }
      calls := calls[call := calls[call].(stage := Leaving(outcome), slot := None)];
    }

    method Expire(call: nat)
      requires Valid() && Enabled(Current(), AmiRouting.Expire(call))
      modifies this
      ensures Valid() && Current() == Next(old(Current()), AmiRouting.Expire(call))
    {
      hide Inv, ActionId;
      NextInv(Current(), AmiRouting.Expire(call));
      calls := calls[call := calls[call].(stage := Leaving(TimedOut))];
    }

    /** The deferred delete of SendActionWait. */
    method Leave(call: nat)
      requires Valid() && Enabled(Current(), AmiRouting.Leave(call))
      modifies this
      ensures Valid() && Current() == Next(old(Current()), AmiRouting.Leave(call))
    {
      hide Inv, ActionId;
      NextInv(Current(), AmiRouting.Leave(call));
      pending := pending - {calls[call].id};
      calls := calls[call := calls[call].(stage := Done(calls[call].stage.outcome))];
    }

    method Consume() returns (b: Headers)
      requires Valid() && Enabled(Current(), AmiRouting.Consume)
      modifies this
      ensures Valid() && Current() == Next(old(Current()), AmiRouting.Consume)
      ensures b == old(events[0])
    {
      hide Inv, ActionId;
      NextInv(Current(), AmiRouting.Consume);
      b := events[0];
      events := events[1..];
      consumed := consumed + [b];
    }
  }
}
