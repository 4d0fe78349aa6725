/** Reply routing: calls waiting for their answer, the read loop, and the connection they share. */
module AmiRouting {
  import opened Wrappers
  import opened AmiWire

  const EVENT_CAPACITY := 128

  /** Where a call of SendActionWait ends up. */
  datatype Outcome = NotConnected | WriteFailed | Answered(block: Headers) | Refused(block: Headers) | TimedOut

  datatype Stage = Registered | Waiting | Leaving(outcome: Outcome) | Done(outcome: Outcome)

  /** A call with its one-slot channel. */
  datatype Call = Call(id: string, stage: Stage, slot: Option<Headers>)

  /** What became of a block the read loop received. */
  datatype Fate = ToCall(call: nat) | SlotFull(call: nat) | Queued | QueueFull | EndsSession

  datatype Entry = Entry(session: nat, block: Headers, fate: Fate)

  /**
   How far the one run of connect has got; each is numbered.  While it holds a block, the
   read loop has let go of the lock and knows only the channel it looked up.
   */
  datatype Session =
    | Idle
    | Greeting(number: nat)
    | Reading(number: nat)
    | Holding(number: nat, block: Headers, target: Option<nat>)
    | Ended(number: nat)
    | Down(number: nat)

  datatype State = State(
    conn: Option<nat>,
    connected: bool,
    session: Session,
    dials: nat,
    pending: map<string, nat>,
    calls: seq<Call>,
    events: seq<Headers>,
    consumed: seq<Headers>,
    log: seq<Entry>)

  const START := State(None, false, Idle, 0, map[], [], [], [], [])

  datatype Step =
    | Dial
    | Login
    | Receive(block: Headers)
    | Deliver
    | EndRead
    | MarkDown
    | Forget
    | Register(stamp: string)
    | Write(call: nat, ok: bool)
    | Take(call: nat)
    | Expire(call: nat)
    | Leave(call: nat)
    | Consume

  function Get(b: Headers, key: string): string {
    if key in b then b[key] else ""
  }

  function ActionId(stamp: string): string { "ya-" + stamp }

  predicate IsAccepted(b: Headers) {
    Get(b, "Response") == "Success" && Get(b, "Message") == "Authentication accepted"
  }

  predicate HasStage(s: State, c: nat, stage: Stage) {
    c < |s.calls| && s.calls[c].stage == stage
  }

  predicate Enabled(s: State, step: Step) {
    match step
    case Dial => s.session.Idle?
    case Login => s.session.Greeting?
    case Receive(b) => s.session.Reading? && b != map[]
    case Deliver => s.session.Holding?
    case EndRead => s.session.Greeting? || s.session.Reading?
    case MarkDown => s.session.Ended?
    case Forget => s.session.Down?
    case Register(_) => true
    case Write(c, _) => HasStage(s, c, Registered)
    case Take(c) => HasStage(s, c, Waiting) && s.calls[c].slot.Some?
    case Expire(c) => HasStage(s, c, Waiting)
    case Leave(c) => c < |s.calls| && s.calls[c].stage.Leaving?
    case Consume => s.events != []
  }

  function WithCall(s: State, c: nat, call: Call): State
    requires c < |s.calls|
  {
    s.(calls := s.calls[c := call])
  }

  function Answer(b: Headers): Outcome {
    if Get(b, "Response") == "Error" then Refused(b) else Answered(b)
  }

  /** The call a block is addressed to, by the pending table. */
  function Addressee(s: State, b: Headers): Option<nat> {
    var id := Get(b, "ActionID");
    if id != "" && id in s.pending then Some(s.pending[id]) else None
  }

  /** What becomes of a held block, as things are when it is handed on. */
  function FateOf(s: State, b: Headers, target: Option<nat>): Fate {
    match target
    case Some(c) => if c < |s.calls| && s.calls[c].slot.None? then ToCall(c) else SlotFull(c)
    case None =>
      if Get(b, "Response") == "Error" then EndsSession
      else if |s.events| < EVENT_CAPACITY then Queued else QueueFull
  }

  function HeldFate(s: State): Fate
    requires s.session.Holding?
  {
    FateOf(s, s.session.block, s.session.target)
  }

  function HeldEntry(s: State): Entry
    requires s.session.Holding?
  {
    Entry(s.session.number, s.session.block, HeldFate(s))
  }

  function Delivered(s: State): State
    requires s.session.Holding?
  {
    var b := s.session.block;
    var t := s.(log := s.log + [HeldEntry(s)], session := Reading(s.session.number));
    match HeldFate(s)
    case ToCall(c) => WithCall(t, c, t.calls[c].(slot := Some(b)))
    case SlotFull(_) => t
    case EndsSession => t.(session := Ended(s.session.number))
    case Queued => t.(connected := t.connected || IsAccepted(b), events := t.events + [b])
    case QueueFull => t.(connected := t.connected || IsAccepted(b))
  }

  function Next(s: State, step: Step): State
    requires Enabled(s, step)
  {
    match step
    case Dial => s.(conn := Some(s.dials), session := Greeting(s.dials), dials := s.dials + 1)
    case Login => s.(session := Reading(s.session.number))
    case Receive(b) => s.(session := Holding(s.session.number, b, Addressee(s, b)))
    case Deliver => Delivered(s)
    case EndRead => s.(session := Ended(s.session.number))
    case MarkDown => s.(connected := false, session := Down(s.session.number))
    case Forget =>
      s.(session := Idle, conn := if s.conn == Some(s.session.number) then None else s.conn)
    case Register(stamp) =>
      var id := ActionId(stamp);
      if s.conn.None? then s.(calls := s.calls + [Call(id, Done(NotConnected), None)])
      else s.(calls := s.calls + [Call(id, Registered, None)], pending := s.pending[id := |s.calls|])
    case Write(c, ok) =>
      WithCall(s, c, s.calls[c].(stage := if ok then Waiting else Leaving(WriteFailed)))
    case Take(c) =>
      WithCall(s, c, s.calls[c].(stage := Leaving(Answer(s.calls[c].slot.value)), slot := None))
    case Expire(c) => WithCall(s, c, s.calls[c].(stage := Leaving(TimedOut)))
    case Leave(c) =>
      WithCall(s, c, s.calls[c].(stage := Done(s.calls[c].stage.outcome))).(pending := s.pending - {s.calls[c].id})
    case Consume => s.(events := s.events[1..], consumed := s.consumed + [s.events[0]])
  }

  ghost predicate ValidRun(s: State, steps: seq<Step>)
    decreases steps
  {
    steps != [] ==> Enabled(s, steps[0]) && ValidRun(Next(s, steps[0]), steps[1..])
  }

  ghost function Exec(s: State, steps: seq<Step>): State
    requires ValidRun(s, steps)
    decreases steps
  {
    if steps == [] then s else Exec(Next(s, steps[0]), steps[1..])
  }

  // ------------------------------------------------------------ invariants

  predicate InFlight(call: Call) {
    !call.stage.Done?
  }

  /** The pending table holds exactly the calls in flight, each under its own id. */
  ghost predicate PendingExact(s: State) {
    && (forall id :: id in s.pending ==>
          s.pending[id] < |s.calls| && s.calls[s.pending[id]].id == id && InFlight(s.calls[s.pending[id]]))
    && (forall c :: 0 <= c < |s.calls| && InFlight(s.calls[c]) ==>
          s.calls[c].id in s.pending && s.pending[s.calls[c].id] == c)
  }

  predicate IsActionId(id: string) { "ya-" <= id }

  ghost predicate OwnIds(s: State) {
    forall c :: 0 <= c < |s.calls| ==> IsActionId(s.calls[c].id)
  }

  /** The block a call has taken out of its channel. */
  function Taken(call: Call): seq<Headers> {
    match call.stage
    case Leaving(Answered(b)) => [b]
    case Leaving(Refused(b)) => [b]
    case Done(Answered(b)) => [b]
    case Done(Refused(b)) => [b]
    case _ => []
  }

  function InSlot(call: Call): seq<Headers> {
    match call.slot
    case Some(b) => [b]
    case None => []
  }

  /** The blocks the log sends to one call. */
  function SentTo(log: seq<Entry>, c: nat): seq<Headers> {
    if log == [] then []
    else
      var e := log[|log|-1];
      SentTo(log[..|log|-1], c) + (if e.fate == ToCall(c) then [e.block] else [])
  }

  /** The blocks the log sends to the event queue. */
  function SentToQueue(log: seq<Entry>): seq<Headers> {
    if log == [] then []
    else
      var e := log[|log|-1];
      SentToQueue(log[..|log|-1]) + (if e.fate == Queued then [e.block] else [])
  }

  /** Nothing sent to the call is lost or doubled, and it all carries the call's id. */
  ghost predicate CallServed(log: seq<Entry>, c: nat, call: Call) {
    && SentTo(log, c) == Taken(call) + InSlot(call)
    && forall b :: b in SentTo(log, c) ==> Get(b, "ActionID") == call.id
  }

  ghost predicate CallsServed(s: State) {
    && (forall c :: 0 <= c < |s.calls| ==> CallServed(s.log, c, s.calls[c]))
    && (forall c :: c >= |s.calls| ==> SentTo(s.log, c) == [])
  }

  ghost predicate QueueExact(s: State) {
    SentToQueue(s.log) == s.consumed + s.events && |s.events| <= 128
  }

  /** No login reply, nor any other foreign block, ever went near a call. */
  ghost predicate CallsUndisturbed(s: State) {
    forall i :: 0 <= i < |s.log| && (s.log[i].fate.ToCall? || s.log[i].fate.SlotFull?) ==>
      s.log[i].fate.call < |s.calls|
      && Get(s.log[i].block, "ActionID") == s.calls[s.log[i].fate.call].id != "auth-1"
  }

  /** The block reports an error. */
  predicate SaysError(b: Headers) {
    "Response" in b && b["Response"] == "Error"
  }

  /** The session read this block, not addressed to a call, and it accepts the login. */
  predicate AcceptsLogin(e: Entry, session: nat) {
    && e.session == session && (e.fate == Queued || e.fate == QueueFull)
    && "Response" in e.block && e.block["Response"] == "Success"
    && "Message" in e.block && e.block["Message"] == "Authentication accepted"
  }

  /** The session may still read, or has just stopped. */
  predicate IsUp(session: Session) {
    session.Reading? || session.Holding? || session.Ended?
  }

  /** The connection is that of the session, and connected means that its login was accepted. */
  ghost predicate ConnectionExact(s: State) {
    && (s.conn == if s.session.Idle? then None else Some(s.session.number))
    && (!s.session.Idle? ==> s.session.number < s.dials)
    && (s.connected <==>
          IsUp(s.session) && exists i :: 0 <= i < |s.log| && AcceptsLogin(s.log[i], s.session.number))
  }

  /** The log is that of the sessions there were; none read on after an error, and one that greets has read nothing. */
  ghost predicate SessionsExact(s: State) {
    && (forall i :: 0 <= i < |s.log| ==> s.log[i].session < s.dials)
    && (s.session.Greeting? ==> forall i :: 0 <= i < |s.log| ==> s.log[i].session != s.session.number)
    && (s.session.Reading? || s.session.Holding? ==>
          forall i :: 0 <= i < |s.log| ==> s.log[i] != Entry(s.session.number, s.log[i].block, EndsSession))
  }

  /** A call was refused with an error response, and answered with anything else. */
  predicate OutcomeTold(call: Call) {
    match call.stage
    case Leaving(Refused(b)) => SaysError(b)
    case Done(Refused(b)) => SaysError(b)
    case Leaving(Answered(b)) => !SaysError(b)
    case Done(Answered(b)) => !SaysError(b)
    case _ => true
  }

  ghost predicate OutcomesTold(s: State) {
    forall c :: 0 <= c < |s.calls| ==> OutcomeTold(s.calls[c])
  }

  /** A held block's call is one with the block's id, though it may be gone by now. */
  ghost predicate HeldExact(s: State) {
    s.session.Holding? && s.session.target.Some? ==>
      s.session.target.value < |s.calls| && s.calls[s.session.target.value].id == Get(s.session.block, "ActionID")
  }

  ghost predicate Inv(s: State) {
    && PendingExact(s) && OwnIds(s) && HeldExact(s) && CallsServed(s) && QueueExact(s) && CallsUndisturbed(s)
    && ConnectionExact(s) && SessionsExact(s) && OutcomesTold(s)
  }

  // ---------------------------------------------------------- preservation

  /** The one demand on the clock: no two calls in flight share an id. */
  predicate FreshStep(s: State, step: Step) {
    step.Register? && s.conn.Some? ==> ActionId(step.stamp) !in s.pending
  }

  lemma NextPending(s: State, step: Step)
    requires Enabled(s, step) && PendingExact(s) && FreshStep(s, step)
    ensures PendingExact(Next(s, step))
  {
    match step {
      case Write(c, ok) => CallPending(s, c, s.calls[c].(stage := if ok then Waiting else Leaving(WriteFailed)));
      case Take(c) => CallPending(s, c, s.calls[c].(stage := Leaving(Answer(s.calls[c].slot.value)), slot := None));
      case Expire(c) => CallPending(s, c, s.calls[c].(stage := Leaving(TimedOut)));
      case Leave(c) => LeavePending(s, c);
      case Register(stamp) => RegisterPending(s, stamp);
      case Deliver => DeliverPending(s);
      case _ =>
    }
  }

  lemma CallPending(s: State, c: nat, call: Call)
    requires PendingExact(s) && c < |s.calls| && InFlight(call) == InFlight(s.calls[c]) && call.id == s.calls[c].id
    ensures PendingExact(WithCall(s, c, call))
  {
  }

  lemma LeavePending(s: State, c: nat)
    requires PendingExact(s) && Enabled(s, Leave(c))
    ensures PendingExact(Next(s, Leave(c)))
  {
    var id := s.calls[c].id;
    forall d | 0 <= d < |s.calls| && s.calls[d].id == id && InFlight(s.calls[d]) ensures d == c {
      assert s.pending[id] == d && s.pending[id] == c;
    }
  }

  lemma RegisterPending(s: State, stamp: string)
    requires PendingExact(s) && FreshStep(s, Register(stamp))
    ensures PendingExact(Next(s, Register(stamp)))
  {
    hide ActionId;
  }

  lemma DeliverPending(s: State)
    requires PendingExact(s) && Enabled(s, Deliver)
    ensures PendingExact(Next(s, Deliver))
  {
    hide Get;
    match HeldFate(s) {
      case ToCall(c) => CallPending(s, c, s.calls[c].(slot := Some(s.session.block)));
      case _ =>
    }
  }

  lemma NextOwnIds(s: State, step: Step)
    requires Enabled(s, step) && OwnIds(s)
    ensures OwnIds(Next(s, step))
  {
    hide IsActionId, Get, Delivered, ActionId;
    if step.Register? { ActionIdOwn(step.stamp); }
    CallsPersist(s, step);
    match step {
      case Deliver => CallsKept(s);
      case _ =>
    }
  }

  lemma ActionIdOwn(stamp: string)
    ensures IsActionId(ActionId(stamp))
  {
  }

  lemma CallsKept(s: State)
    requires Enabled(s, Deliver)
    ensures |Next(s, Deliver).calls| == |s.calls|
  {
    hide Get, IsAccepted;
  }

  /** Exactly the fresh registrations keep the table exact. */
  lemma RegisterExact(s: State, stamp: string)
    requires PendingExact(s)
    ensures PendingExact(Next(s, Register(stamp))) <==> FreshStep(s, Register(stamp))
  {
    if FreshStep(s, Register(stamp)) {
      NextPending(s, Register(stamp));
    } else {
      var id := ActionId(stamp);
      var t := Next(s, Register(stamp));
      var c := s.pending[id];
      assert InFlight(t.calls[c]) && t.calls[c].id == id && t.pending[id] != c;
    }
  }

  lemma SentSnoc(log: seq<Entry>, e: Entry, c: nat)
    ensures SentTo(log + [e], c) == SentTo(log, c) + if e.fate == ToCall(c) then [e.block] else []
    ensures SentToQueue(log + [e]) == SentToQueue(log) + if e.fate == Queued then [e.block] else []
  {
    assert (log + [e])[..|log|] == log;
  }

  lemma AddresseeFacts(s: State, b: Headers)
    requires PendingExact(s) && Addressee(s, b).Some?
    ensures var c := Addressee(s, b).value;
      c < |s.calls| && InFlight(s.calls[c]) && s.calls[c].id == Get(b, "ActionID")
  {
  }

  lemma NextHeld(s: State, step: Step)
    requires Enabled(s, step) && PendingExact(s) && HeldExact(s)
    ensures HeldExact(Next(s, step))
  {
    hide Get, ActionId, IsAccepted;
    CallsPersist(s, step);
    if step.Receive? && Addressee(s, step.block).Some? { AddresseeFacts(s, step.block); }
  }

  lemma DeliverServed(s: State)
    requires Enabled(s, Deliver) && HeldExact(s) && CallsServed(s)
    ensures CallsServed(Next(s, Deliver))
  {
    hide Get, CallServed, SentTo;
    LogServed(s, HeldEntry(s));
  }

  /** Logging an entry, and filling the slot it names, keeps every call served. */
  lemma LogServed(s: State, e: Entry)
    requires CallsServed(s)
    requires e.fate.ToCall? ==>
      && e.fate.call < |s.calls| && s.calls[e.fate.call].slot.None?
      && Get(e.block, "ActionID") == s.calls[e.fate.call].id
    ensures var t := s.(log := s.log + [e]);
      CallsServed(if e.fate.ToCall? then WithCall(t, e.fate.call, t.calls[e.fate.call].(slot := Some(e.block))) else t)
  {
    hide SentTo, Get, CallServed;
    forall c: nat ensures e.fate != ToCall(c) ==> SentTo(s.log + [e], c) == SentTo(s.log, c) {
      NotSent(s.log, e, c);
    }
    forall c: nat | c < |s.calls|
      ensures e.fate != ToCall(c) ==> CallServed(s.log + [e], c, s.calls[c])
      ensures e.fate == ToCall(c) ==> CallServed(s.log + [e], c, s.calls[c].(slot := Some(e.block)))
    {
      EntryServed(s.log, e, c, s.calls[c]);
    }
  }

  lemma NotSent(log: seq<Entry>, e: Entry, c: nat)
    ensures e.fate != ToCall(c) ==> SentTo(log + [e], c) == SentTo(log, c)
  {
    SentSnoc(log, e, c);
  }

  lemma EntryServed(log: seq<Entry>, e: Entry, c: nat, call: Call)
    requires CallServed(log, c, call)
    requires e.fate == ToCall(c) ==> call.slot.None? && Get(e.block, "ActionID") == call.id
    ensures CallServed(log + [e], c, if e.fate == ToCall(c) then call.(slot := Some(e.block)) else call)
  {
    hide SentTo, Get;
    SentSnoc(log, e, c);
  }

  lemma NextServed(s: State, step: Step)
    requires Enabled(s, step) && HeldExact(s) && CallsServed(s)
    ensures CallsServed(Next(s, step))
  {
    hide SentTo, Get, CallServed;
    match step {
      case Deliver => DeliverServed(s);
      case Write(c, ok) => CallRestaged(s, c, s.calls[c].(stage := if ok then Waiting else Leaving(WriteFailed)));
      case Take(c) => CallRestaged(s, c, s.calls[c].(stage := Leaving(Answer(s.calls[c].slot.value)), slot := None));
      case Expire(c) => CallRestaged(s, c, s.calls[c].(stage := Leaving(TimedOut)));
      case Leave(c) => CallRestaged(s, c, s.calls[c].(stage := Done(s.calls[c].stage.outcome)));
      case Register(stamp) => RegisterServed(s, stamp);
      case _ =>
    }
  }

  lemma RegisterServed(s: State, stamp: string)
    requires CallsServed(s)
    ensures CallsServed(Next(s, Register(stamp)))
  {
    hide SentTo, Get, CallServed, ActionId;
    NewServed(s.log, |s.calls|, Next(s, Register(stamp)).calls[|s.calls|]);
  }

  lemma NewServed(log: seq<Entry>, c: nat, call: Call)
    requires SentTo(log, c) == [] && call.slot.None? && (call.stage.Registered? || call.stage == Done(NotConnected))
    ensures CallServed(log, c, call)
  {
    hide SentTo, Get;
  }

  lemma CallRestaged(s: State, c: nat, call: Call)
    requires CallsServed(s) && c < |s.calls| && call.id == s.calls[c].id
    requires Taken(call) + InSlot(call) == Taken(s.calls[c]) + InSlot(s.calls[c])
    ensures CallsServed(WithCall(s, c, call))
  {
    assert CallServed(s.log, c, call);
    hide SentTo, Get, CallServed;
  }

  lemma DeliverQueue(s: State)
    requires Enabled(s, Deliver) && QueueExact(s)
    ensures QueueExact(Next(s, Deliver))
  {
    hide SentToQueue, Next, FateOf, Get;
    SentSnoc(s.log, HeldEntry(s), 0);
    CallsPersist(s, Deliver);
    EventsAfter(s);
    Regroup(s.consumed, s.events, if HeldFate(s) == Queued then [s.session.block] else []);
  }

  lemma EventsAfter(s: State)
    requires Enabled(s, Deliver) && |s.events| <= EVENT_CAPACITY
    ensures var t := Next(s, Deliver);
      && t.consumed == s.consumed && |t.events| <= EVENT_CAPACITY
      && t.events == s.events + if HeldFate(s) == Queued then [s.session.block] else []
  {
    hide Get, IsAccepted;
    assert s.events + [] == s.events;
  }

  lemma NextQueue(s: State, step: Step)
    requires Enabled(s, step) && QueueExact(s)
    ensures QueueExact(Next(s, step))
  {
    hide SentToQueue, Delivered;
    if step.Deliver? { DeliverQueue(s); }
  }

  /** Calls are never removed and keep their id; only a delivered block is logged. */
  lemma CallsPersist(s: State, step: Step)
    requires Enabled(s, step)
    ensures |s.calls| <= |Next(s, step).calls|
    ensures forall c :: 0 <= c < |s.calls| ==> Next(s, step).calls[c].id == s.calls[c].id
    ensures Next(s, step).log == s.log + if step.Deliver? then [HeldEntry(s)] else []
  {
    hide Get, IsAccepted, ActionId;
  }

  lemma NextUndisturbed(s: State, step: Step)
    requires Enabled(s, step) && HeldExact(s) && OwnIds(s) && CallsUndisturbed(s)
    ensures CallsUndisturbed(Next(s, step))
  {
    hide Next, Get, IsActionId;
    CallsPersist(s, step);
    if step.Deliver? && s.session.target.Some? {
      NotTheLogin(s.calls[s.session.target.value].id);
    }
  }

  lemma NotTheLogin(id: string)
    requires IsActionId(id)
    ensures id != "auth-1"
  {
    assert "auth-1"[0] == 'a';
  }

  lemma NextConnection(s: State, step: Step)
    requires Enabled(s, step) && ConnectionExact(s) && SessionsExact(s)
    ensures ConnectionExact(Next(s, step))
  {
    var t := Next(s, step);
    CallsPersist(s, step);
    if step.Deliver? {
      FlagAfter(s);
      hide Next, FateOf, Get, IsAccepted, AcceptsLogin, Enabled;
      assert forall i :: 0 <= i < |s.log| ==> t.log[i] == s.log[i];
      assert t.log[|s.log|] == HeldEntry(s);
    } else {
      assert t.log == s.log;
      hide FateOf, Get, IsAccepted, AcceptsLogin;
    }
  }

  /** Handing on a block sets the flag exactly if it accepts the login. */
  lemma FlagAfter(s: State)
    requires Enabled(s, Deliver)
    ensures var t := Next(s, Deliver);
      && t.connected == (s.connected || AcceptsLogin(HeldEntry(s), s.session.number))
      && t.conn == s.conn && t.dials == s.dials && t.log == s.log + [HeldEntry(s)]
      && t.session == (if HeldFate(s).EndsSession? then Ended(s.session.number) else Reading(s.session.number))
  {
  }

  lemma NextSessions(s: State, step: Step)
    requires Enabled(s, step) && ConnectionExact(s) && SessionsExact(s)
    ensures SessionsExact(Next(s, step))
  {
    CallsPersist(s, step);
    if step.Deliver? {
      FlagAfter(s);
      hide Next, FateOf, Get, IsAccepted, AcceptsLogin, Enabled;
    } else {
      hide FateOf, Get, IsAccepted, AcceptsLogin;
    }
  }

  lemma NextTold(s: State, step: Step)
    requires Enabled(s, step) && OutcomesTold(s)
    ensures OutcomesTold(Next(s, step))
  {
    hide IsAccepted, ActionId;
    var t := Next(s, step);
    forall c | 0 <= c < |t.calls| ensures OutcomeTold(t.calls[c]) {
      if c < |s.calls| { assert OutcomeTold(s.calls[c]); }
    }
  }

  lemma NextInv(s: State, step: Step)
    requires Enabled(s, step) && Inv(s) && FreshStep(s, step)
    ensures Inv(Next(s, step))
  {
    hide PendingExact, OwnIds, HeldExact, CallsServed, QueueExact, CallsUndisturbed, ConnectionExact, SessionsExact,
         OutcomesTold, Next, Enabled, FreshStep;
    NextPending(s, step);
    NextOwnIds(s, step);
    NextHeld(s, step);
    NextServed(s, step);
    NextQueue(s, step);
    NextUndisturbed(s, step);
    NextConnection(s, step);
    NextSessions(s, step);
    NextTold(s, step);
  }

  lemma StartInv()
    ensures Inv(START)
  {
  }

  // ------------------------------------------------------------ whole runs

  ghost predicate FreshRun(s: State, steps: seq<Step>)
    requires ValidRun(s, steps)
    decreases steps
  {
    steps != [] ==> FreshStep(s, steps[0]) && FreshRun(Next(s, steps[0]), steps[1..])
  }

  lemma {:induction false} RunInv(s: State, steps: seq<Step>)
    requires ValidRun(s, steps) && FreshRun(s, steps) && Inv(s)
    ensures Inv(Exec(s, steps))
    decreases steps
  {
    if steps != [] {
      hide Inv, Next, Enabled, FreshStep;
      NextInv(s, steps[0]);
      RunInv(Next(s, steps[0]), steps[1..]);
    }
  }

  predicate DistinctStamps(steps: seq<Step>) {
    forall i, j :: 0 <= i < j < |steps| && steps[i].Register? && steps[j].Register? ==>
      steps[i].stamp != steps[j].stamp
  }

  lemma NextPendingKeys(s: State, step: Step, id: string)
    requires Enabled(s, step) && id in Next(s, step).pending
    ensures id in s.pending || (step.Register? && id == ActionId(step.stamp))
  {
  }

  lemma StampsTell(a: string, b: string)
    ensures a != b ==> ActionId(a) != ActionId(b)
  {
    assert ActionId(a)[3..] == a && ActionId(b)[3..] == b;
  }

  /** A clock that never repeats makes every interleaving a fresh one. */
  lemma {:induction false} DistinctIsFresh(s: State, steps: seq<Step>)
    requires ValidRun(s, steps) && DistinctStamps(steps)
    requires forall i :: 0 <= i < |steps| && steps[i].Register? ==> ActionId(steps[i].stamp) !in s.pending
    ensures FreshRun(s, steps)
    decreases steps
  {
    if steps != [] {
      var t := Next(s, steps[0]);
      forall i | 0 <= i < |steps[1..]| && steps[1..][i].Register?
        ensures ActionId(steps[1..][i].stamp) !in t.pending
      {
        var stamp := steps[i + 1].stamp;
        if steps[0].Register? { StampsTell(stamp, steps[0].stamp); }
        if ActionId(stamp) in t.pending { NextPendingKeys(s, steps[0], ActionId(stamp)); }
      }
      hide Next, Enabled, ActionId;
      DistinctIsFresh(t, steps[1..]);
    }
  }

  /**
   Safety over all interleavings: with distinct action ids every state any run reaches
   has an exact pending table, calls that hold only their own blocks, an event queue
   that lost only what was counted as dropped, a connected flag that says whether the
   current connection accepted the login, no session that reads on after an error, and
   refusals exactly of the calls whose answer was an error response.
   */
  lemma EveryRunSafe(steps: seq<Step>)
    requires ValidRun(START, steps) && DistinctStamps(steps)
    ensures Inv(Exec(START, steps))
  {
    StartInv();
    DistinctIsFresh(START, steps);
    RunInv(START, steps);
  }

  /** The blocks a run receives. */
  function Received(steps: seq<Step>): seq<Headers> {
    if steps == [] then []
    else (if steps[0].Receive? then [steps[0].block] else []) + Received(steps[1..])
  }

  function Blocks(log: seq<Entry>): (r: seq<Headers>)
    ensures |r| == |log| && forall i :: 0 <= i < |log| ==> r[i] == log[i].block
  {
    seq(|log|, i requires 0 <= i < |log| => log[i].block)
  }

  /** The block the read loop has in hand. */
  function InHand(s: State): seq<Headers> {
    if s.session.Holding? then [s.session.block] else []
  }

  /** Every received block has exactly one fate, in the order of receipt, but for one still in hand. */
  lemma {:induction false} EveryBlockAccounted(s: State, steps: seq<Step>)
    requires ValidRun(s, steps)
    ensures Blocks(Exec(s, steps).log) + InHand(Exec(s, steps)) == Blocks(s.log) + InHand(s) + Received(steps)
    decreases steps
  {
    hide Next, Enabled, Blocks, InHand;
    if steps == [] {
      assert Blocks(s.log) + InHand(s) + [] == Blocks(s.log) + InHand(s);
    } else {
      NextLogged(s, steps[0]);
      EveryBlockAccounted(Next(s, steps[0]), steps[1..]);
      Regroup(Blocks(s.log) + InHand(s), if steps[0].Receive? then [steps[0].block] else [], Received(steps[1..]));
    }
  }

  lemma Regroup(a: seq<Headers>, b: seq<Headers>, c: seq<Headers>)
    ensures a + b + c == a + (b + c)
  {
  }

  /** A block comes to hand when it is received and leaves it when it is delivered. */
  lemma HandMoves(s: State, step: Step)
    requires Enabled(s, step)
    ensures var t := Next(s, step);
      if step.Receive? then InHand(s) == [] && InHand(t) == [step.block]
      else if step.Deliver? then InHand(s) == [HeldEntry(s).block] && InHand(t) == []
      else InHand(t) == InHand(s)
  {
    hide Get, IsAccepted, ActionId, FateOf;
  }

  lemma NextLogged(s: State, step: Step)
    requires Enabled(s, step)
    ensures var t := Next(s, step);
      Blocks(t.log) + InHand(t) == Blocks(s.log) + InHand(s) + if step.Receive? then [step.block] else []
  {
    hide Next, Enabled, InHand;
    CallsPersist(s, step);
    HandMoves(s, step);
  }

  /** What a caller was given, it keeps; and it is at most one block, with its own id. */
  lemma {:induction false} OutcomeFinal(s: State, steps: seq<Step>, c: nat)
    requires ValidRun(s, steps) && c < |s.calls| && (s.calls[c].stage.Leaving? || s.calls[c].stage.Done?)
    ensures var t := Exec(s, steps);
      && c < |t.calls| && t.calls[c].id == s.calls[c].id
      && (t.calls[c].stage.Leaving? || t.calls[c].stage.Done?)
      && t.calls[c].stage.outcome == s.calls[c].stage.outcome
    decreases steps
  {
    if steps != [] {
      OutcomeKept(s, steps[0], c);
      hide Next, Enabled;
      OutcomeFinal(Next(s, steps[0]), steps[1..], c);
    }
  }

  lemma OutcomeKept(s: State, step: Step, c: nat)
    requires Enabled(s, step) && c < |s.calls| && (s.calls[c].stage.Leaving? || s.calls[c].stage.Done?)
    ensures var t := Next(s, step);
      && c < |t.calls| && t.calls[c].id == s.calls[c].id
      && (t.calls[c].stage.Leaving? || t.calls[c].stage.Done?)
      && t.calls[c].stage.outcome == s.calls[c].stage.outcome
  {
  }

  lemma OwnAnswer(s: State, c: nat)
    requires CallsServed(s) && c < |s.calls|
    ensures |Taken(s.calls[c])| <= 1
    ensures forall b :: b in Taken(s.calls[c]) + InSlot(s.calls[c]) ==> Get(b, "ActionID") == s.calls[c].id
    ensures Taken(s.calls[c]) != [] ==> Taken(s.calls[c])[0] == SentTo(s.log, c)[0]
  {
    assert CallServed(s.log, c, s.calls[c]);
  }

  /** A call in flight this block answers. */
  predicate Answers(s: State, b: Headers, c: nat) {
    c < |s.calls| && InFlight(s.calls[c]) && "ActionID" in b && s.calls[c].id == b["ActionID"]
  }

  /** Until it is handed on, nothing another party does changes what the read loop holds. */
  lemma {:induction false} HeldThrough(s: State, steps: seq<Step>)
    requires s.session.Holding? && ValidRun(s, steps) && forall i :: 0 <= i < |steps| ==> !steps[i].Deliver?
    ensures Exec(s, steps).session == s.session && |s.calls| <= |Exec(s, steps).calls|
    decreases steps
  {
    if steps != [] {
      hide Addressee, Answer, ActionId;
      CallsPersist(s, steps[0]);
      assert !steps[0].Deliver? && Next(s, steps[0]).session == s.session;
      HeldThrough(Next(s, steps[0]), steps[1..]);
    }
  }

  /**
   Where a block goes, in terms of the calls and not of the table, whatever happens
   between its lookup and its delivery: to the call in flight at the lookup with its id,
   if there is one and its slot is still empty; otherwise, without such a call, an error
   response ends the session, and anything else is queued unless the queue is full by then.
   */
  lemma RouteExact(s: State, b: Headers, others: seq<Step>, c: nat)
    requires Inv(s) && Enabled(s, Receive(b)) && ValidRun(Next(s, Receive(b)), others)
    requires forall i :: 0 <= i < |others| ==> !others[i].Deliver?
    ensures var t := Exec(Next(s, Receive(b)), others);
      && t.session.Holding? && t.session.block == b
      && (HeldFate(t) == ToCall(c) <==> Answers(s, b, c) && c < |t.calls| && t.calls[c].slot.None?)
      && (HeldFate(t) == SlotFull(c) <==> Answers(s, b, c) && c < |t.calls| && t.calls[c].slot.Some?)
      && (HeldFate(t).EndsSession? <==> SaysError(b) && forall d: nat :: !Answers(s, b, d))
      && (HeldFate(t).QueueFull? <==>
            && !SaysError(b) && |t.events| >= 128
            && forall d: nat :: !Answers(s, b, d))
  {
    hide Inv, Addressee, ValidRun, Exec, PendingExact, OwnIds;
    HeldThrough(Next(s, Receive(b)), others);
    Addressed(s, b);
  }

  lemma Addressed(s: State, b: Headers)
    requires Inv(s)
    ensures forall d: nat :: Addressee(s, b) == Some(d) <==> Answers(s, b, d)
    ensures Addressee(s, b).Some? ==> Answers(s, b, Addressee(s, b).value)
  {
    hide Addressee, Answers, PendingExact, OwnIds, HeldExact, CallsServed, QueueExact, CallsUndisturbed, ConnectionExact,
         SessionsExact, OutcomesTold;
    forall d: nat ensures Addressee(s, b) == Some(d) <==> Answers(s, b, d) { AddresseeExact(s, b, d); }
    if Addressee(s, b).Some? { AddresseeExact(s, b, Addressee(s, b).value); }
  }

  /** The table finds the call a block answers, and no other. */
  lemma AddresseeExact(s: State, b: Headers, c: nat)
    requires PendingExact(s) && OwnIds(s)
    ensures Addressee(s, b) == Some(c) <==> Answers(s, b, c)
  {
    if Addressee(s, b).Some? { AddresseeFacts(s, b); }
    if Answers(s, b, c) { assert IsActionId(s.calls[c].id); }
  }

  /**
   Two calls that share an id break the table for good: when the second leaves, the
   first is in flight with no entry, so its answer can never reach it.
   */
  lemma SharedIdLosesAnswer(stamp: string)
    ensures exists steps ::
      && ValidRun(START, steps)
      && var s := Exec(START, steps);
        && HasStage(s, 0, Waiting) && s.calls[0].id == ActionId(stamp) && ActionId(stamp) !in s.pending
        && forall b :: Addressee(s, b).None?
  {
    var id := ActionId(stamp);
    var s4, rest := TwoRegistered(stamp);
    var s5 := Next(s4, Write(0, true));
    var s6 := Next(s5, Write(1, false));
    var s7 := Next(s6, Leave(1));
    assert s7.pending == map[] && forall b :: Addressee(s7, b).None?;
    var steps := Before(s6, Leave(1), []);
    steps := Before(s5, Write(1, false), steps);
    steps := Before(s4, Write(0, true), steps);
    hide Next;
    Joined(START, rest, steps);
  }

  lemma TwoRegistered(stamp: string) returns (s: State, steps: seq<Step>)
    ensures ValidRun(START, steps) && s == Exec(START, steps)
    ensures s.pending == map[ActionId(stamp) := 1]
    ensures s.calls == [Call(ActionId(stamp), Registered, None), Call(ActionId(stamp), Registered, None)]
  {
    var s1 := Next(START, Dial);
    var s2 := Next(s1, Register(stamp));
    s := Next(s2, Register(stamp));
    steps := Before(s2, Register(stamp), []);
    steps := Before(s1, Register(stamp), steps);
    steps := Before(START, Dial, steps);
  }

  lemma {:induction false} Joined(s: State, first: seq<Step>, second: seq<Step>)
    requires ValidRun(s, first) && ValidRun(Exec(s, first), second)
    ensures ValidRun(s, first + second) && Exec(s, first + second) == Exec(Exec(s, first), second)
    decreases first
  {
    if first == [] {
      assert [] + second == second;
    } else {
      assert (first + second)[1..] == first[1..] + second;
      Joined(Next(s, first[0]), first[1..], second);
    }
  }

  lemma Before(s: State, step: Step, rest: seq<Step>) returns (steps: seq<Step>)
    requires Enabled(s, step) && ValidRun(Next(s, step), rest)
    ensures ValidRun(s, steps) && Exec(s, steps) == Exec(Next(s, step), rest)
  {
    steps := [step] + rest;
    assert steps[1..] == rest;
  }
}
