/** Adaptive fetching: bulk or individual requests, with hysteresis and a rate limit. */
module Adaptive {
  import opened Spans
  import opened Wrappers

  const HIGH_MARK := 10
  const LOW_MARK := 4
  // five minutes, in nanoseconds
  const MIN_INTERVAL := 300_000_000_000

  /** One call of fetchAdaptive: how many nodes are stale, and how a bulk request would go. */
  datatype Poll = Poll(stale: nat, start: nat, finish: nat, bulkWorks: bool)

  /** The last bulk fetch is None until there was one. */
  datatype State = State(inBulkMode: bool, lastBulkAt: Option<nat>)

  const START := State(false, None)

  datatype Fetch = Bulk(start: nat, finish: nat) | Individual

  function ModeAfter(mode: bool, stale: nat): bool {
    if stale > HIGH_MARK then true else if stale <= LOW_MARK then false else mode
  }

  predicate CanBulk(s: State, start: nat) {
    s.lastBulkAt.None? || start - s.lastBulkAt.value >= MIN_INTERVAL
  }

  /** What the poll fetches in the end. */
  function FetchOf(s: State, p: Poll): Fetch {
    if ModeAfter(s.inBulkMode, p.stale) && CanBulk(s, p.start) && p.bulkWorks then Bulk(p.start, p.finish)
    else Individual
  }

  function After(s: State, p: Poll): State {
    State(ModeAfter(s.inBulkMode, p.stale),
          if FetchOf(s, p).Bulk? then Some(p.finish) else s.lastBulkAt)
  }

  class Fetcher {
    var inBulkMode: bool
    var lastBulkAt: Option<nat>

    function Current(): State
      reads this
    {
      State(inBulkMode, lastBulkAt)
    }

    constructor ()
      ensures Current() == START
    {
      inBulkMode, lastBulkAt := false, None;
    }

    method FetchAdaptive(p: Poll) returns (fetch: Fetch)
      modifies this
      ensures Current() == After(old(Current()), p)
      ensures fetch == FetchOf(old(Current()), p)
    {
      if p.stale > HIGH_MARK {
        inBulkMode := true;
      } else if p.stale <= LOW_MARK {
        inBulkMode := false;
      }
      var useBulk := inBulkMode;
      var canBulk := lastBulkAt.None? || p.start - lastBulkAt.value >= MIN_INTERVAL;
      if useBulk && canBulk {
        if p.bulkWorks {
          lastBulkAt := Some(p.finish);
          return Bulk(p.start, p.finish);
        }
      }
      fetch := Individual;
    }
  }

  function Run(polls: seq<Poll>): State {
    if polls == [] then START else After(Run(polls[..|polls|-1]), polls[|polls|-1])
  }

  /** The successful bulk fetches of a run. */
  function Bulks(polls: seq<Poll>): seq<Fetch> {
    if polls == [] then []
    else
      var f := FetchOf(Run(polls[..|polls|-1]), polls[|polls|-1]);
      Bulks(polls[..|polls|-1]) + if f.Bulk? then [f] else []
  }

  /** The last poll whose count decides the mode by itself, or -1. */
  function LastDecisive(polls: seq<Poll>): (i: int)
    ensures -1 <= i < |polls|
    ensures i >= 0 ==> !(LOW_MARK < polls[i].stale <= HIGH_MARK)
    ensures forall j :: i < j < |polls| ==> LOW_MARK < polls[j].stale <= HIGH_MARK
  {
    if polls == [] then -1
    else if LOW_MARK < polls[|polls|-1].stale <= HIGH_MARK then LastDecisive(polls[..|polls|-1])
    else |polls| - 1
  }

  /** Hysteresis: the mode is what the last count outside the band said. */
  lemma {:induction false} ModeIsLastDecisive(polls: seq<Poll>)
    ensures var i := LastDecisive(polls);
      Run(polls).inBulkMode <==> i >= 0 && polls[i].stale > HIGH_MARK
    decreases polls
  {
    if polls != [] { ModeIsLastDecisive(polls[..|polls|-1]); }
  }

  /** The last count outside the band of 5 to 10 was above it. */
  ghost predicate ManyStale(polls: seq<Poll>) {
    exists j: nat :: j < |polls| && polls[j].stale > 10 && forall k :: j < k < |polls| ==> 4 < polls[k].stale
  }

  lemma DecisiveIsMany(polls: seq<Poll>)
    ensures Run(polls).inBulkMode <==> ManyStale(polls)
  {
    ModeIsLastDecisive(polls);
    var i := LastDecisive(polls);
    if i >= 0 && polls[i].stale > 10 { assert ManyStale(polls); }
    if j: nat :| j < |polls| && polls[j].stale > 10 && forall k :: j < k < |polls| ==> 4 < polls[k].stale {
      assert i >= j;
    }
  }

  /** One poll at a time. */
  predicate OneByOne(polls: seq<Poll>) {
    && (forall i :: 0 <= i < |polls| ==> polls[i].start <= polls[i].finish)
    && (forall i, j :: 0 <= i < j < |polls| ==> polls[i].finish <= polls[j].start)
  }

  predicate Spaced(b: seq<Fetch>) {
    && (forall i :: 0 <= i < |b| ==> b[i].Bulk? && b[i].start <= b[i].finish)
    && (forall i :: 0 < i < |b| ==> b[i].start >= b[i-1].finish + MIN_INTERVAL)
  }

  lemma SpacedSnoc(b: seq<Fetch>, f: Fetch)
    requires Spaced(b) && f.Bulk? && f.start <= f.finish
    requires b != [] ==> f.start >= b[|b|-1].finish + MIN_INTERVAL
    ensures Spaced(b + [f])
  {
  }

  /** Each successful bulk fetch starts five minutes after the one before was done. */
  lemma {:induction false} BulksSpaced(polls: seq<Poll>)
    requires OneByOne(polls)
    ensures Spaced(Bulks(polls))
    ensures Run(polls).lastBulkAt == if Bulks(polls) == [] then None else Some(Bulks(polls)[|Bulks(polls)|-1].finish)
    decreases polls
  {
    if polls != [] {
      var front, p := polls[..|polls|-1], polls[|polls|-1];
      BulksSpaced(front);
      var b, f := Bulks(front), FetchOf(Run(front), p);
      if f.Bulk? {
        SpacedSnoc(b, f);
      } else {
        assert b + [] == b;
      }
    }
  }

  /**
   None is missed and none made too soon: a poll makes a bulk fetch exactly if the last count
   outside the band was above it, the request works, and there was none yet or the last was done
   five minutes ago; then it fetches in bulk from its start to its finish.
   */
  lemma BulkExactly(polls: seq<Poll>, p: Poll)
    requires OneByOne(polls)
    ensures var f := FetchOf(Run(polls), p); var b := Bulks(polls);
      && (f == Bulk(p.start, p.finish) <==>
            && ManyStale(polls + [p]) && p.bulkWorks
            && (b == [] || (b[|b|-1].Bulk? && p.start >= b[|b|-1].finish + 300_000_000_000)))
      && (f == Bulk(p.start, p.finish) || f == Individual)
      && Bulks(polls + [p]) == b + if f == Individual then [] else [f]
  {
    assert (polls + [p])[..|polls|] == polls;
    BulksSpaced(polls);
    DecisiveIsMany(polls + [p]);
  }

  lemma {:induction false} SpacedApart(b: seq<Fetch>, i: nat, j: nat)
    requires Spaced(b) && i <= j < |b|
    ensures b[j].start >= b[i].start + (j - i) * MIN_INTERVAL
    decreases j
  {
    if i < j { SpacedApart(b, i, j - 1); }
  }

  function StartedWithin(b: seq<Fetch>, from: nat, span: nat): set<nat> {
    set i | 0 <= i < |b| && b[i].Bulk? && from <= b[i].start <= from + span
  }

  /** Any span holds at most one bulk fetch more than it holds five minutes. */
  lemma BulkRateBounded(polls: seq<Poll>, from: nat, span: nat)
    requires OneByOne(polls)
    ensures |StartedWithin(Bulks(polls), from, span)| <= span / MIN_INTERVAL + 1
  {
    BulksSpaced(polls);
    var b := Bulks(polls);
    var s := StartedWithin(b, from, span);
    if s != {} {
      var i := Least(s);
      forall x | x in s ensures i <= x < i + span / MIN_INTERVAL + 1 {
        SpacedApart(b, i, x);
      }
      SpanSize(s, i, span / MIN_INTERVAL + 1);
    }
  }

  /** Polls five minutes apart, each with many stale nodes. */
  function Steady(n: nat): (p: seq<Poll>)
    ensures |p| == n && forall i :: 0 <= i < n ==> p[i] == Poll(11, i * MIN_INTERVAL, i * MIN_INTERVAL, true)
  {
    seq(n, (i: nat) => Poll(11, i * MIN_INTERVAL, i * MIN_INTERVAL, true))
  }

  /** Every one of these polls is a bulk fetch. */
  lemma {:induction false} SteadyBulks(n: nat)
    ensures OneByOne(Steady(n)) && |Bulks(Steady(n))| == n
    ensures forall i :: 0 <= i < n ==> Bulks(Steady(n))[i] == Bulk(i * MIN_INTERVAL, i * MIN_INTERVAL)
    ensures n > 0 ==> Run(Steady(n)).lastBulkAt == Some((n - 1) * MIN_INTERVAL)
    decreases n
  {
    if n > 0 {
      SteadyBulks(n - 1);
      assert Steady(n)[..n-1] == Steady(n - 1);
    }
  }

  lemma {:induction false} FirstMany(s: set<nat>, n: nat)
    requires forall x: nat :: x in s <==> x < n
    ensures |s| == n
    decreases n
  {
    if n == 0 {
      assert s == {};
    } else {
      FirstMany(s - {n - 1}, n - 1);
    }
  }

  /** The bound is met: for every n there is a run with n + 1 bulk fetches in n times five minutes. */
  lemma BoundIsMet(n: nat)
    ensures OneByOne(Steady(n + 1))
    ensures |StartedWithin(Bulks(Steady(n + 1)), 0, n * MIN_INTERVAL)| == n * MIN_INTERVAL / MIN_INTERVAL + 1
  {
    SteadyBulks(n + 1);
    FirstMany(StartedWithin(Bulks(Steady(n + 1)), 0, n * MIN_INTERVAL), n + 1);
  }
}
