/** The cached link maps, their connect times, and what was last published of them. */
module LinksCaches {
  import opened Wrappers
  import opened Links

  /** Equal in everything but the connect times. */
  predicate SameView(a: LinkMap, b: LinkMap) {
    a.Keys == b.Keys && forall k :: k in a ==> a[k].kind == b[k].kind && a[k].keyed == b[k].keyed
  }

  lemma {:induction false} SubsetOfSameSize(a: set<string>, b: set<string>)
    requires a <= b && |a| == |b|
    ensures a == b
  {
    if x :| x in b && x !in a {
      SmallerSubset(a, b - {x});
    }
  }

  lemma {:induction false} SmallerSubset(a: set<string>, b: set<string>)
    requires a <= b
    ensures |a| <= |b|
    decreases a
  {
    if x :| x in a {
      SmallerSubset(a - {x}, b - {x});
    }
  }

  /** Equal sizes and inclusion are all the comparison looks at. */
  method EqLinkMaps(a: LinkMap, b: LinkMap) returns (same: bool)
    ensures same <==> SameView(a, b)
  {
    if |a.Keys| != |b.Keys| { return false; }
    var todo := a.Keys;
    while todo != {}
      invariant todo <= a.Keys
      invariant forall k :: k in a.Keys - todo ==> k in b && a[k].kind == b[k].kind && a[k].keyed == b[k].keyed
      decreases |todo|
    {
      var k :| k in todo;
      if k !in b || a[k].kind != b[k].kind || a[k].keyed != b[k].keyed { return false; }
      todo := todo - {k};
    }
    SubsetOfSameSize(a.Keys, b.Keys);
    same := true;
  }

  function Stamp(prev: LinkMap, num: string, link: LinkState, now: nat): LinkState {
    link.(connectedAt := if num in prev && prev[num].connectedAt != 0 then prev[num].connectedAt else now)
  }

  function Stamped(prev: LinkMap, linked: LinkMap, now: nat): LinkMap {
    map num | num in linked :: Stamp(prev, num, linked[num], now)
  }

  /** A missing map, Go's nil, is an empty one to every reader. */
  function View(m: Option<LinkMap>): LinkMap {
    if m.Some? then m.value else map[]
  }

  function Cached(cache: map<int, LinkMap>, node: int): LinkMap {
    if node in cache then cache[node] else map[]
  }

  class LinksCache {
    var links: map<int, LinkMap>

    constructor ()
      ensures links == map[]
    {
      links := map[];
    }

    /** linksCache.set: stores the stamped map; `shown` is the map the caller then holds. */
    method Set(node: int, update: Option<LinkMap>, now: nat) returns (changed: bool, shown: Option<LinkMap>)
      modifies this
      ensures links == old(links)[node := Stamped(Cached(old(links), node), View(update), now)]
      ensures changed <==> node !in old(links) || !SameView(old(links)[node], links[node])
      ensures shown == if update.None? then None else Some(links[node])
    {
      var linked := View(update);
      var exists' := node in links;
      var prev := if exists' then links[node] else map[];
      ghost var given := linked;
      var todo := linked.Keys;
      while todo != {}
        invariant todo <= given.Keys == linked.Keys && links == old(links)
        invariant forall num :: num in todo ==> linked[num] == given[num]
        invariant forall num :: num in given.Keys - todo ==> linked[num] == Stamp(prev, num, given[num], now)
        decreases |todo|
      {
        var num :| num in todo;
        var ls := linked[num];
        if num in prev && prev[num].connectedAt != 0 {
          ls := ls.(connectedAt := prev[num].connectedAt);
        } else {
          ls := ls.(connectedAt := now);
        }
        linked := linked[num := ls];
        todo := todo - {num};
      }
      assert linked == Stamped(prev, given, now);
      links := links[node := linked];
      shown := if update.None? then None else Some(linked);
      if !exists' { return true, shown; }
      var same := EqLinkMaps(prev, linked);
      changed := !same;
    }
  }

  // ----------------------------------------------------------- whole runs

  /** One update of a node's links. */
  datatype Poll = Poll(node: int, at: nat, links: Option<LinkMap>)

  datatype State = State(cache: map<int, LinkMap>, published: map<int, Option<LinkMap>>)

  function After(s: State, p: Poll): State {
    var linked := Stamped(Cached(s.cache, p.node), View(p.links), p.at);
    var shown := if p.links.None? then None else Some(linked);
    State(s.cache[p.node := linked],
          if p.node in s.cache && SameView(s.cache[p.node], linked) then s.published
          else s.published[p.node := shown])
  }

  function Replay(polls: seq<Poll>): State {
    if polls == [] then State(map[], map[]) else After(Replay(polls[..|polls|-1]), polls[|polls|-1])
  }

  /** The polling half of pollNodeLinksInner: store, and publish when something showed. */
  class Poller {
    const cache: LinksCache
    var published: map<int, Option<LinkMap>>

    constructor ()
      ensures fresh(cache) && cache.links == map[] && published == map[]
    {
      cache := new LinksCache();
      published := map[];
    }

    method PollNode(p: Poll)
      modifies this, cache
      ensures State(cache.links, published) == After(old(State(cache.links, published)), p)
    {
      var changed, shown := cache.Set(p.node, p.links, p.at);
      if changed {
        published := published[p.node := shown];
      }
    }
  }

  /** The last update of a node, or -1. */
  function LastPoll(polls: seq<Poll>, node: int): (i: int)
    ensures -1 <= i < |polls|
    ensures i >= 0 ==> polls[i].node == node
    ensures forall j :: i < j < |polls| ==> polls[j].node != node
  {
    if polls == [] then -1
    else if polls[|polls|-1].node == node then |polls| - 1
    else LastPoll(polls[..|polls|-1], node)
  }

  ghost predicate Holds(p: Poll, num: string) {
    num in View(p.links)
  }

  /** Update `i` begins the unbroken run of the node's updates, up to now, that all hold the link. */
  ghost predicate RunStart(polls: seq<Poll>, node: int, num: string, i: nat) {
    && i < |polls| && polls[i].node == node && Holds(polls[i], num)
    && (forall j :: i < j < |polls| && polls[j].node == node ==> Holds(polls[j], num))
    && var before := LastPoll(polls[..i], node);
      before >= 0 ==> !Holds(polls[before], num)
  }

  /** The link's run of updates began at that time. */
  ghost predicate Dated(polls: seq<Poll>, node: int, num: string, at: nat) {
    exists i: nat :: RunStart(polls, node, num, i) && polls[i].at == at
  }

  /** The cache shows the last update, and each link's time is that of its run's start. */
  ghost predicate History(polls: seq<Poll>, node: int, m: LinkMap) {
    var last := LastPoll(polls, node);
    && last >= 0 && m.Keys == View(polls[last].links).Keys
    && (forall num :: num in m ==>
          && m[num].kind == View(polls[last].links)[num].kind
          && m[num].keyed == View(polls[last].links)[num].keyed
          && Dated(polls, node, num, m[num].connectedAt))
  }

  ghost predicate Ticking(polls: seq<Poll>) {
    forall i :: 0 <= i < |polls| ==> polls[i].at != 0
  }

  lemma StartExtends(polls: seq<Poll>, p: Poll, node: int, num: string, at: nat)
    requires Dated(polls, node, num, at) && (p.node == node ==> Holds(p, num))
    ensures Dated(polls + [p], node, num, at)
  {
    var i: nat :| RunStart(polls, node, num, i) && polls[i].at == at;
    assert (polls + [p])[..i] == polls[..i];
    assert RunStart(polls + [p], node, num, i);
  }

  lemma StartsNow(polls: seq<Poll>, p: Poll, num: string)
    requires Holds(p, num)
    requires LastPoll(polls, p.node) < 0 || !Holds(polls[LastPoll(polls, p.node)], num)
    ensures Dated(polls + [p], p.node, num, p.at)
  {
    assert (polls + [p])[..|polls|] == polls;
    assert RunStart(polls + [p], p.node, num, |polls|);
  }

  lemma DatedTicks(polls: seq<Poll>, node: int, num: string, at: nat)
    requires Ticking(polls) && Dated(polls, node, num, at)
    ensures at != 0
  {
  }

  lemma LastSnoc(polls: seq<Poll>, p: Poll, node: int)
    ensures LastPoll(polls + [p], node) == if p.node == node then |polls| else LastPoll(polls, node)
  {
    assert (polls + [p])[..|polls|] == polls;
  }

  lemma OtherNode(polls: seq<Poll>, p: Poll, node: int, m: LinkMap)
    requires History(polls, node, m) && p.node != node
    ensures History(polls + [p], node, m)
  {
    LastSnoc(polls, p, node);
    forall num | num in m ensures Dated(polls + [p], node, num, m[num].connectedAt) {
      StartExtends(polls, p, node, num, m[num].connectedAt);
    }
    hide Dated, LastPoll;
  }

  lemma SameNode(polls: seq<Poll>, p: Poll, prev: LinkMap)
    requires Ticking(polls) && p.at != 0
    requires if LastPoll(polls, p.node) < 0 then prev == map[] else History(polls, p.node, prev)
    ensures History(polls + [p], p.node, Stamped(prev, View(p.links), p.at))
  {
    hide Dated, LastPoll, RunStart;
    var m := Stamped(prev, View(p.links), p.at);
    LastSnoc(polls, p, p.node);
    forall num | num in m ensures Dated(polls + [p], p.node, num, m[num].connectedAt) {
      if num in prev {
        DatedTicks(polls, p.node, num, prev[num].connectedAt);
        StartExtends(polls, p, p.node, num, prev[num].connectedAt);
      } else {
        StartsNow(polls, p, num);
      }
    }
  }

  /**
   Link history: after any updates of any nodes, in any order, the time of every cached
   link is that of the update that began its unbroken presence.
   */
  lemma {:induction false} LinkHistory(polls: seq<Poll>, node: int)
    requires Ticking(polls)
    ensures node in Replay(polls).cache <==> LastPoll(polls, node) >= 0
    ensures node in Replay(polls).cache ==> History(polls, node, Replay(polls).cache[node])
    decreases polls
  {
    if polls != [] {
      var front, p := polls[..|polls|-1], polls[|polls|-1];
      LinkHistory(front, node);
      hide History, Stamped;
      assert front + [p] == polls;
      if p.node == node {
        SameNode(front, p, Cached(Replay(front).cache, node));
      } else if node in Replay(front).cache {
        OtherNode(front, p, node, Replay(front).cache[node]);
      }
    }
  }

  /** What was last published of a node always shows its cached links. */
  lemma {:induction false} PublishedIsCached(polls: seq<Poll>)
    ensures var s := Replay(polls);
      s.published.Keys == s.cache.Keys && forall n :: n in s.cache ==> SameView(View(s.published[n]), s.cache[n])
    decreases polls
  {
    if polls != [] {
      PublishedIsCached(polls[..|polls|-1]);
    }
  }

  /** What a reader sees of a link: its type and whether it is keyed. */
  function Shown(m: LinkMap, num: string): Option<(char, bool)> {
    if num in m then Some((m[num].kind, m[num].keyed)) else None
  }

  lemma StampedShown(prev: LinkMap, linked: LinkMap, now: nat)
    ensures forall num :: Shown(Stamped(prev, linked, now), num) == Shown(linked, num)
  {
  }

  lemma SameShown(a: LinkMap, b: LinkMap)
    ensures SameView(a, b) <==> forall num :: Shown(a, num) == Shown(b, num)
  {
    if forall num :: Shown(a, num) == Shown(b, num) {
      forall num ensures num in a <==> num in b { assert Shown(a, num) == Shown(b, num); }
      forall num | num in a ensures a[num].kind == b[num].kind && a[num].keyed == b[num].keyed {
        assert Shown(a, num) == Shown(b, num);
      }
    }
  }

  /**
   A poll publishes exactly when it changes what a reader sees, and then the links as cached,
   connect times and all, or nil if it was given nil; nothing else is published or cached.
   */
  lemma PublishesChangesOnly(s: State, p: Poll)
    ensures var t := After(s, p);
      && (if p.node in s.cache && forall num :: Shown(s.cache[p.node], num) == Shown(View(p.links), num)
          then t.published == s.published
          else t.published == s.published[p.node := if p.links.None? then None else Some(t.cache[p.node])])
      && t.cache.Keys == s.cache.Keys + {p.node}
      && (forall num :: Shown(t.cache[p.node], num) == Shown(View(p.links), num))
      && forall n :: n in s.cache && n != p.node ==> t.cache[n] == s.cache[n]
  {
    hide SameView, Shown;
    var linked := Stamped(Cached(s.cache, p.node), View(p.links), p.at);
    StampedShown(Cached(s.cache, p.node), View(p.links), p.at);
    if p.node in s.cache { SameShown(s.cache[p.node], linked); }
  }
}
