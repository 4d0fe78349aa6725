/** The event broker: topics, their subscribers, and each subscriber's bounded channel. */
module Brokers {
  import opened Wrappers

  const CAPACITY := 16

  type Message = string

  datatype Channel = Channel(topic: int, open: bool, queue: seq<Message>)

  /** A message offered to a channel, with how many were waiting there. */
  datatype Offer = Offer(message: Message, waiting: nat)

  /** What a subscriber has seen, and which publications its subscription spans. */
  datatype History = History(received: seq<Message>, offers: seq<Offer>, since: nat, until: Option<nat>)

  datatype Publication = Publication(topic: int, message: Message)

  datatype State = State(
    topics: map<int, set<nat>>,
    channels: seq<Channel>,
    history: seq<History>,
    log: seq<Publication>)

  const START := State(map[], [], [], [])

  datatype Step =
    | Subscribe(topic: int)
    | Cancel(id: nat)
    | Publish(topic: int, message: Message)
    | Receive(id: nat)

  function Subscribers(s: State, topic: int): set<nat> {
    if topic in s.topics then s.topics[topic] else {}
  }

  predicate Enabled(s: State, step: Step) {
    && |s.channels| == |s.history|
    && match step
       case Subscribe(_) => true
       case Cancel(id) => id < |s.channels| && s.channels[id].open
       case Publish(_, _) => true
       case Receive(id) => id < |s.channels| && s.channels[id].queue != []
  }

  /** A send that never waits. */
  function Sent(c: Channel, m: Message): Channel {
    if |c.queue| < CAPACITY then c.(queue := c.queue + [m]) else c
  }

  function AllSent(s: State, topic: int, m: Message): (r: seq<Channel>)
    ensures |r| == |s.channels|
  {
    seq(|s.channels|, i requires 0 <= i < |s.channels| =>
      if i in Subscribers(s, topic) then Sent(s.channels[i], m) else s.channels[i])
  }

  function AllOffered(s: State, topic: int, m: Message): (r: seq<History>)
    requires |s.channels| == |s.history|
    ensures |r| == |s.history|
  {
    seq(|s.history|, i requires 0 <= i < |s.history| =>
      if i in Subscribers(s, topic)
      then s.history[i].(offers := s.history[i].offers + [Offer(m, |s.channels[i].queue|)])
      else s.history[i])
  }

  function Next(s: State, step: Step): State
    requires Enabled(s, step)
  {
    match step
    case Subscribe(t) =>
      s.(topics := s.topics[t := Subscribers(s, t) + {|s.channels|}],
         channels := s.channels + [Channel(t, true, [])],
         history := s.history + [History([], [], |s.log|, None)])
    case Cancel(id) =>
      var t := s.channels[id].topic;
      var left := Subscribers(s, t) - {id};
      s.(topics := if left == {} then s.topics - {t} else s.topics[t := left],
         channels := s.channels[id := s.channels[id].(open := false)],
         history := s.history[id := s.history[id].(until := Some(|s.log|))])
    case Publish(t, m) =>
      s.(channels := AllSent(s, t, m),
         history := AllOffered(s, t, m),
         log := s.log + [Publication(t, m)])
    case Receive(id) =>
      var c := s.channels[id];
      s.(channels := s.channels[id := c.(queue := c.queue[1..])],
         history := s.history[id := s.history[id].(received := s.history[id].received + [c.queue[0]])])
  }

  lemma SubscribersKnown(s: State, topic: int)
    requires Inv(s)
    ensures forall id: nat :: id in Subscribers(s, topic) ==> id < |s.channels|
  {
    forall id: nat | id in Subscribers(s, topic) ensures id < |s.channels| {
      assert OpenOn(s, id, topic);
    }
  }

  class Broker {
    var topics: map<int, set<nat>>
    var channels: seq<Channel>
    ghost var history: seq<History>
    ghost var log: seq<Publication>

    ghost function Current(): State
      reads this
    {
      State(topics, channels, history, log)
    }

    ghost predicate Valid()
      reads this
    {
      Inv(Current())
    }

    constructor ()
      ensures Valid() && Current() == START
    {
      topics, channels, history, log := map[], [], [], [];
    }

    method Subscribe(topic: int) returns (id: nat)
      requires Valid() && Enabled(Current(), Step.Subscribe(topic))
      modifies this
      ensures Valid() && Current() == Next(old(Current()), Step.Subscribe(topic)) && id == old(|channels|)
    {
      hide Inv;
      NextInv(Current(), Step.Subscribe(topic));
      ghost var after := Next(Current(), Step.Subscribe(topic));
      id := |channels|;
      channels := channels + [Channel(topic, true, [])];
      history := history + [History([], [], |log|, None)];
      if topic !in topics {
        topics := topics[topic := {}];
      }
      topics := topics[topic := topics[topic] + {id}];
      assert topics == after.topics;
    }

    /** The function Subscribe hands out; a second call would close a closed channel. */
    method Cancel(id: nat)
      requires Valid() && Enabled(Current(), Step.Cancel(id))
      modifies this
      ensures Valid() && Current() == Next(old(Current()), Step.Cancel(id))
    {
      hide Inv;
      NextInv(Current(), Step.Cancel(id));
      ghost var after := Next(Current(), Step.Cancel(id));
      var topic := channels[id].topic;
      if topic in topics {
        topics := topics[topic := topics[topic] - {id}];
      }
      if topic !in topics || |topics[topic]| == 0 {
        topics := topics - {topic};
      }
      assert topics == after.topics;
      channels := channels[id := channels[id].(open := false)];
      history := history[id := history[id].(until := Some(|log|))];
    }

    method HasSubscribers(topic: int) returns (has: bool)
      ensures has <==> Subscribers(Current(), topic) != {}
    {
      var n := if topic in topics then |topics[topic]| else 0;
      has := n > 0;
    }

    method Publish(topic: int, data: Message)
      requires Valid() && Enabled(Current(), Step.Publish(topic, data))
      modifies this
      ensures Valid() && Current() == Next(old(Current()), Step.Publish(topic, data))
    {
      hide Inv;
      NextInv(Current(), Step.Publish(topic, data));
      ghost var before := Current();
      SubscribersKnown(before, topic);
      var subs := if topic in topics then topics[topic] else {};
      var todo := subs;
      while todo != {}
        invariant todo <= subs && topics == before.topics && history == before.history && log == before.log
        invariant |channels| == |before.channels|
        invariant forall i :: 0 <= i < |channels| ==>
          channels[i] == if i in subs - todo then Sent(before.channels[i], data) else before.channels[i]
        decreases |todo|
      {
        var ch: nat :| ch in todo;
        assert ch in Subscribers(before, topic);
        if |channels[ch].queue| < CAPACITY {
          channels := channels[ch := channels[ch].(queue := channels[ch].queue + [data])];
        }
        todo := todo - {ch};
      }
      assert channels == AllSent(before, topic, data);
      history := AllOffered(before, topic, data);
      log := log + [Publication(topic, data)];
    }

    method Receive(id: nat) returns (m: Message)
      requires Valid() && Enabled(Current(), Step.Receive(id))
      modifies this
      ensures Valid() && Current() == Next(old(Current()), Step.Receive(id)) && m == old(channels[id].queue[0])
    {
      hide Inv;
      NextInv(Current(), Step.Receive(id));
      m := channels[id].queue[0];
      channels := channels[id := channels[id].(queue := channels[id].queue[1..])];
      history := history[id := history[id].(received := history[id].received + [m])];
    }
  }

  // ------------------------------------------------------------ invariants

  predicate OpenOn(s: State, id: nat, topic: int) {
    id < |s.channels| && s.channels[id].open && s.channels[id].topic == topic
  }

  /** The table holds the open channels and nothing else; no topic is empty. */
  ghost predicate TopicsExact(s: State) {
    && (forall t :: t in s.topics ==> s.topics[t] != {})
    && (forall t, id: nat :: t in s.topics && id in s.topics[t] ==> OpenOn(s, id, t))
    && (forall id: nat :: id < |s.channels| && s.channels[id].open ==>
          s.channels[id].topic in s.topics && id in s.topics[s.channels[id].topic])
  }

  /** The messages of the offers that found room. */
  function Kept(offers: seq<Offer>): seq<Message> {
    if offers == [] then []
    else
      var o := offers[|offers|-1];
      Kept(offers[..|offers|-1]) + if o.waiting < 16 then [o.message] else []
  }

  function Messages(offers: seq<Offer>): (r: seq<Message>)
    ensures |r| == |offers| && forall i :: 0 <= i < |offers| ==> r[i] == offers[i].message
  {
    seq(|offers|, i requires 0 <= i < |offers| => offers[i].message)
  }

  /** What a log published to one topic. */
  function PublishedTo(log: seq<Publication>, topic: int): seq<Message> {
    if log == [] then []
    else
      var p := log[|log|-1];
      PublishedTo(log[..|log|-1], topic) + if p.topic == topic then [p.message] else []
  }

  /** The publications a subscription spans. */
  function Spanned(c: Channel, h: History, log: seq<Publication>): seq<Publication>
    requires h.since <= |log|
  {
    if c.open then log[h.since..]
    else if h.until.Some? && h.since <= h.until.value <= |log| then log[h.since..h.until.value]
    else []
  }

  /**
   One subscriber: everything published to its topic during its subscription was offered,
   in order; what it received and has queued is what found room, in order; and an offer
   found no room only with a full queue.
   */
  ghost predicate Served(c: Channel, h: History, log: seq<Publication>) {
    && h.since <= |log| && (h.until.Some? <==> !c.open) && (h.until.Some? ==> h.since <= h.until.value <= |log|)
    && Messages(h.offers) == PublishedTo(Spanned(c, h, log), c.topic)
    && h.received + c.queue == Kept(h.offers)
    && |c.queue| <= 16
    && forall i :: 0 <= i < |h.offers| ==> h.offers[i].waiting <= 16
  }

  ghost predicate AllServed(s: State) {
    && |s.channels| == |s.history|
    && forall id :: 0 <= id < |s.channels| ==> Served(s.channels[id], s.history[id], s.log)
  }

  ghost predicate Inv(s: State) {
    TopicsExact(s) && AllServed(s)
  }

  lemma NextInv(s: State, step: Step)
    requires Enabled(s, step) && Inv(s)
    ensures Inv(Next(s, step))
  {
    NextTopics(s, step);
    NextServed(s, step);
    hide TopicsExact, AllServed, Next;
  }

  lemma NextTopics(s: State, step: Step)
    requires Enabled(s, step) && TopicsExact(s)
    ensures TopicsExact(Next(s, step))
  {
    match step {
      case Subscribe(t) => SubscribeTopics(s, t);
      case Cancel(id) => CancelTopics(s, id);
      case _ =>
    }
  }

  lemma SubscribeTopics(s: State, topic: int)
    requires Enabled(s, Subscribe(topic)) && TopicsExact(s)
    ensures TopicsExact(Next(s, Subscribe(topic)))
  {
    var n := Next(s, Subscribe(topic));
    forall t, id: nat | t in n.topics && id in n.topics[t] ensures OpenOn(n, id, t) {
      if id != |s.channels| {
        assert t in s.topics && id in s.topics[t];
        assert OpenOn(s, id, t);
      }
    }
    assert |s.channels| in n.topics[topic];
  }

  lemma CancelTopics(s: State, id: nat)
    requires Enabled(s, Cancel(id)) && TopicsExact(s)
    ensures TopicsExact(Next(s, Cancel(id)))
  {
    var n := Next(s, Cancel(id));
    forall t, other: nat | t in n.topics && other in n.topics[t] ensures OpenOn(n, other, t) {
      assert t in s.topics && other in s.topics[t];
      assert OpenOn(s, other, t) && other != id;
    }
    forall other: nat | other < |n.channels| && n.channels[other].open
      ensures n.channels[other].topic in n.topics && other in n.topics[n.channels[other].topic]
    {
      assert s.channels[other].open && other in Subscribers(s, s.channels[other].topic) - {id};
    }
  }

  lemma KeptSnoc(offers: seq<Offer>, o: Offer)
    ensures Kept(offers + [o]) == Kept(offers) + if o.waiting < 16 then [o.message] else []
  {
    assert (offers + [o])[..|offers|] == offers;
  }

  lemma PublishedSnoc(log: seq<Publication>, p: Publication, topic: int)
    ensures PublishedTo(log + [p], topic) == PublishedTo(log, topic) + if p.topic == topic then [p.message] else []
  {
    assert (log + [p])[..|log|] == log;
  }

  lemma MessagesSnoc(offers: seq<Offer>, o: Offer)
    ensures Messages(offers + [o]) == Messages(offers) + [o.message]
  {
  }

  lemma OfferServed(c: Channel, h: History, log: seq<Publication>, m: Message)
    requires Served(c, h, log) && c.open
    ensures Served(Sent(c, m), h.(offers := h.offers + [Offer(m, |c.queue|)]), log + [Publication(c.topic, m)])
  {
    hide Kept, PublishedTo, Messages;
    var o, p := Offer(m, |c.queue|), Publication(c.topic, m);
    OfferKept(c, h, m);
    PublishedSnoc(log[h.since..], p, c.topic);
    assert (log + [p])[h.since..] == log[h.since..] + [p];
    MessagesSnoc(h.offers, o);
  }

  lemma OfferKept(c: Channel, h: History, m: Message)
    requires h.received + c.queue == Kept(h.offers)
    ensures h.received + Sent(c, m).queue == Kept(h.offers + [Offer(m, |c.queue|)])
  {
    KeptSnoc(h.offers, Offer(m, |c.queue|));
    hide Kept;
    if |c.queue| < 16 {
      assert h.received + (c.queue + [m]) == h.received + c.queue + [m];
    } else {
      assert h.received + c.queue + [] == h.received + c.queue;
    }
  }

  lemma PassedServed(c: Channel, h: History, log: seq<Publication>, p: Publication)
    requires Served(c, h, log) && (c.open ==> p.topic != c.topic)
    ensures Served(c, h, log + [p])
  {
    if c.open {
      PublishedSnoc(log[h.since..], p, c.topic);
      assert (log + [p])[h.since..] == log[h.since..] + [p];
      assert PublishedTo(log[h.since..], c.topic) + [] == PublishedTo(log[h.since..], c.topic);
    } else {
      assert (log + [p])[h.since..h.until.value] == log[h.since..h.until.value];
    }
    hide Kept, PublishedTo, Messages;
  }

  lemma ReceiveServed(c: Channel, h: History, log: seq<Publication>)
    requires Served(c, h, log) && c.queue != []
    ensures Served(c.(queue := c.queue[1..]), h.(received := h.received + [c.queue[0]]), log)
  {
    assert h.received + [c.queue[0]] + c.queue[1..] == h.received + c.queue;
    hide Kept, PublishedTo, Messages;
  }

  lemma CancelServed(c: Channel, h: History, log: seq<Publication>)
    requires Served(c, h, log) && c.open
    ensures Served(c.(open := false), h.(until := Some(|log|)), log)
  {
    assert log[h.since..|log|] == log[h.since..];
    hide Kept, PublishedTo, Messages;
  }

  lemma NewServed(topic: int, log: seq<Publication>)
    ensures Served(Channel(topic, true, []), History([], [], |log|, None), log)
  {
    assert log[|log|..] == [];
  }

  lemma PublishServed(s: State, topic: int, m: Message)
    requires TopicsExact(s) && AllServed(s)
    ensures AllServed(Next(s, Publish(topic, m)))
  {
    hide Served;
    var t := Next(s, Publish(topic, m));
    forall id | 0 <= id < |t.channels| ensures Served(t.channels[id], t.history[id], t.log) {
      var c, h := s.channels[id], s.history[id];
      if id in Subscribers(s, topic) {
        OfferServed(c, h, s.log, m);
      } else {
        PassedServed(c, h, s.log, Publication(topic, m));
      }
    }
  }

  lemma NextServed(s: State, step: Step)
    requires Enabled(s, step) && TopicsExact(s) && AllServed(s)
    ensures AllServed(Next(s, step))
  {
    hide Served;
    match step {
      case Subscribe(t) => NewServed(t, s.log);
      case Cancel(id) => CancelServed(s.channels[id], s.history[id], s.log);
      case Publish(t, m) => PublishServed(s, t, m);
      case Receive(id) => ReceiveServed(s.channels[id], s.history[id], s.log);
    }
  }

  ghost predicate ValidRun(s: State, steps: seq<Step>)
    decreases steps
  {
    steps != [] ==> Enabled(s, steps[0]) && ValidRun(Next(s, steps[0]), steps[1..])
  }

  ghost function Exec(s: State, steps: seq<Step>): State
    requires ValidRun(s, steps)
    decreases steps
  {
    if steps == [] then s else Exec(Next(s, steps[0]), steps[1..])
  }

  lemma {:induction false} RunSafe(s: State, steps: seq<Step>)
    requires ValidRun(s, steps) && Inv(s)
    ensures Inv(Exec(s, steps))
    decreases steps
  {
    hide Inv, Next, Enabled;
    if steps != [] {
      NextInv(s, steps[0]);
      RunSafe(Next(s, steps[0]), steps[1..]);
    }
  }

  /** Every state any interleaving of whole operations reaches is exact and serves everyone. */
  lemma EveryRunServes(steps: seq<Step>)
    requires ValidRun(START, steps)
    ensures TopicsExact(Exec(START, steps)) && AllServed(Exec(START, steps))
  {
    assert Inv(START);
    RunSafe(START, steps);
  }

  // ------------------------------------------------------ runs, step by step

  function PublishedBy(step: Step): seq<Publication> {
    if step.Publish? then [Publication(step.topic, step.message)] else []
  }

  function SubscribedBy(step: Step): seq<int> {
    if step.Subscribe? then [step.topic] else []
  }

  /** What the steps publish. */
  function Published(steps: seq<Step>): seq<Publication> {
    if steps == [] then [] else PublishedBy(steps[0]) + Published(steps[1..])
  }

  /** The topics the steps subscribe to. */
  function Subscribed(steps: seq<Step>): seq<int> {
    if steps == [] then [] else SubscribedBy(steps[0]) + Subscribed(steps[1..])
  }

  /** How often one step is taken. */
  function Times(steps: seq<Step>, step: Step): nat {
    if steps == [] then 0 else (if steps[0] == step then 1 else 0) + Times(steps[1..], step)
  }

  function TopicsOf(channels: seq<Channel>): (r: seq<int>)
    ensures |r| == |channels| && forall i :: 0 <= i < |r| ==> r[i] == channels[i].topic
  {
    seq(|channels|, i requires 0 <= i < |channels| => channels[i].topic)
  }

  lemma StepTold(s: State, step: Step, id: nat)
    requires Enabled(s, step)
    ensures var t := Next(s, step);
      && |t.channels| == |t.history|
      && t.log == s.log + PublishedBy(step) && TopicsOf(t.channels) == TopicsOf(s.channels) + SubscribedBy(step)
      && (id < |s.channels| ==>
            && t.channels[id].open == (s.channels[id].open && step != Cancel(id))
            && |t.history[id].received| == |s.history[id].received| + (if step == Receive(id) then 1 else 0)
            && t.history[id].since == s.history[id].since)
      && (|s.channels| <= id < |t.channels| ==>
            t.channels[id].open && t.history[id].received == [] && t.history[id].since == |s.log|)
      && (id >= |s.channels| ==> step != Cancel(id) && step != Receive(id))
  {
  }

  lemma {:induction false} RunTold(s: State, steps: seq<Step>, id: nat)
    requires ValidRun(s, steps) && |s.channels| == |s.history|
    ensures var t := Exec(s, steps);
      && |t.channels| == |t.history|
      && t.log == s.log + Published(steps) && TopicsOf(t.channels) == TopicsOf(s.channels) + Subscribed(steps)
      && (id < |s.channels| ==>
            && t.channels[id].open == (s.channels[id].open && Cancel(id) !in steps)
            && |t.history[id].received| == |s.history[id].received| + Times(steps, Receive(id)))
      && (|s.channels| <= id < |t.channels| ==>
            && t.channels[id].open == (Cancel(id) !in steps)
            && |t.history[id].received| == Times(steps, Receive(id)))
    decreases steps
  {
    hide Next, Enabled, TopicsOf, PublishedBy, SubscribedBy;
    if steps == [] {
      assert s.log + [] == s.log && TopicsOf(s.channels) + [] == TopicsOf(s.channels);
    } else {
      var t1 := Next(s, steps[0]);
      StepTold(s, steps[0], id);
      RunTold(t1, steps[1..], id);
      assert forall step :: step in steps <==> step == steps[0] || step in steps[1..];
      assert s.log + PublishedBy(steps[0]) + Published(steps[1..]) == s.log + Published(steps);
      assert TopicsOf(s.channels) + SubscribedBy(steps[0]) + Subscribed(steps[1..])
          == TopicsOf(s.channels) + Subscribed(steps);
    }
  }

  /**
   A run's state in terms of its operations: the log is what was published, the channels are the
   subscriptions in their order, open until cancelled, and each has received one message a Receive.
   */
  lemma EveryRunTold(steps: seq<Step>, id: nat)
    requires ValidRun(START, steps)
    ensures var t := Exec(START, steps);
      && t.log == Published(steps) && TopicsOf(t.channels) == Subscribed(steps) && |t.history| == |t.channels|
      && (id < |t.channels| ==>
            && (t.channels[id].open <==> Cancel(id) !in steps)
            && |t.history[id].received| == Times(steps, Receive(id)))
  {
    RunTold(START, steps, id);
    assert [] + Published(steps) == Published(steps);
    assert TopicsOf(START.channels) + Subscribed(steps) == Subscribed(steps);
  }

  /** HasSubscribers answers whether an open channel has that topic. */
  lemma HasSubscribersExact(s: State, topic: int)
    requires TopicsExact(s)
    ensures Subscribers(s, topic) != {} <==>
            exists id: nat :: OpenOn(s, id, topic)
    ensures Subscribers(s, topic) != {} <==> topic in s.topics
  {
    if topic in s.topics {
      var id: nat :| id in s.topics[topic];
      assert OpenOn(s, id, topic);
    }
  }

  lemma {:induction false} KeptAtMost(offers: seq<Offer>)
    ensures |Kept(offers)| <= |offers|
    ensures |Kept(offers)| == |offers| <==> forall i :: 0 <= i < |offers| ==> offers[i].waiting < 16
    ensures |Kept(offers)| == |offers| ==> Kept(offers) == Messages(offers)
    decreases offers
  {
    if offers != [] {
      var front := offers[..|offers|-1];
      KeptAtMost(front);
      assert Messages(offers) == Messages(front) + [offers[|offers|-1].message];
    }
  }

  /** A subscriber has got everything exactly when no publication ever found its queue full. */
  lemma NothingLostExactly(s: State, id: nat)
    requires AllServed(s) && id < |s.channels|
    ensures s.history[id].since <= |s.log|
    ensures var c, h := s.channels[id], s.history[id];
      h.received + c.queue == PublishedTo(Spanned(c, h, s.log), c.topic)
      <==> forall i :: 0 <= i < |h.offers| ==> h.offers[i].waiting < 16
  {
    assert Served(s.channels[id], s.history[id], s.log);
    KeptAtMost(s.history[id].offers);
    hide Kept, PublishedTo, Messages;
  }
}
