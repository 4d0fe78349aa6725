/** The login limiter: failures counted per address in windows that start with a failure. */
module Limiter {
  import opened Spans

  const MAX_FAILURES := 5
  // one minute, in nanoseconds
  const WINDOW := 60_000_000_000

  datatype Record = Record(failures: nat, resetAt: nat)

  type Records = map<string, Record>

  predicate Live(r: Records, ip: string, now: nat) {
    ip in r && now <= r[ip].resetAt
  }

  predicate Allowed(r: Records, ip: string, now: nat) {
    Live(r, ip, now) ==> r[ip].failures < MAX_FAILURES
  }

  function Failed(r: Records, ip: string, now: nat): Records {
    r[ip := if Live(r, ip, now) then r[ip].(failures := r[ip].failures + 1) else Record(1, now + WINDOW)]
  }

  function Swept(r: Records, now: nat): Records {
    map ip | ip in r && Live(r, ip, now) :: r[ip]
  }

  class LoginLimiter {
    var records: Records

    constructor ()
      ensures records == map[]
    {
      records := map[];
    }

    method Allow(ip: string, now: nat) returns (ok: bool)
      ensures ok == Allowed(records, ip, now)
    {
      if ip !in records || now > records[ip].resetAt { return true; }
      ok := records[ip].failures < MAX_FAILURES;
    }

    method RecordFailure(ip: string, now: nat)
      modifies this
      ensures records == Failed(old(records), ip, now)
    {
      if ip !in records || now > records[ip].resetAt {
        records := records[ip := Record(1, now + WINDOW)];
        return;
      }
      var rec := records[ip];
      records := records[ip := rec.(failures := rec.failures + 1)];
    }

    method RecordSuccess(ip: string)
      modifies this
      ensures records == old(records) - {ip}
    {
      records := records - {ip};
    }

    /** One tick of the sweeper. */
    method Sweep(now: nat)
      modifies this
      ensures records == Swept(old(records), now)
    {
      var todo := records.Keys;
      while todo != {}
        invariant todo <= old(records).Keys
        invariant todo <= records.Keys <= old(records).Keys
        invariant forall ip :: ip in records ==> records[ip] == old(records)[ip]
        invariant forall ip :: ip in old(records).Keys - todo ==> (ip in records <==> Live(old(records), ip, now))
        decreases |todo|
      {
        var ip :| ip in todo;
        if now > records[ip].resetAt {
          records := records - {ip};
        }
        todo := todo - {ip};
      }
    }
  }

  // ----------------------------------------------------------- whole runs

  datatype Event =
    | Ask(ip: string, at: nat)
    | Fail(ip: string, at: nat)
    | Succeed(ip: string, at: nat)
    | Sweep(at: nat)

  function Step(r: Records, e: Event): Records {
    match e
    case Ask(_, _) => r
    case Fail(ip, at) => Failed(r, ip, at)
    case Succeed(ip, _) => r - {ip}
    case Sweep(at) => Swept(r, at)
  }

  function After(events: seq<Event>): Records {
    if events == [] then map[] else Step(After(events[..|events|-1]), events[|events|-1])
  }

  predicate InOrder(events: seq<Event>) {
    forall i, j :: 0 <= i < j < |events| ==> events[i].at <= events[j].at
  }

  predicate Concerns(e: Event, ip: string) {
    !e.Sweep? && e.ip == ip
  }

  /** The address fails or succeeds: an attempt of its ends. */
  predicate EndsAttempt(e: Event, ip: string) {
    e == Fail(ip, e.at) || e == Succeed(ip, e.at)
  }

  /** The event at `i` ends the attempt that was let in at `j`, the address doing nothing between. */
  ghost predicate Admits(events: seq<Event>, ip: string, j: nat, i: nat) {
    && j < i < |events| && events[j] == Ask(ip, events[j].at)
    && Allowed(After(events[..j]), ip, events[j].at)
    && forall k :: j < k < i ==> !Concerns(events[k], ip)
  }

  /** One address, one attempt at a time; others do as they like. */
  ghost predicate Serial(events: seq<Event>, ip: string) {
    && InOrder(events)
    && (forall i :: 0 <= i < |events| && EndsAttempt(events[i], ip) ==> exists j: nat :: Admits(events, ip, j, i))
  }

  /** The times after one more event: a failure adds one, a success forgets them. */
  function TimesAfter(times: seq<nat>, e: Event, ip: string): seq<nat> {
    if e == Succeed(ip, e.at) then []
    else if e == Fail(ip, e.at) then times + [e.at]
    else times
  }

  /** When the address failed, since it last succeeded. */
  function FailTimes(events: seq<Event>, ip: string): seq<nat> {
    if events == [] then [] else TimesAfter(FailTimes(events[..|events|-1], ip), events[|events|-1], ip)
  }

  /** The failure that opened the window failure `i` falls in. */
  function Opening(f: seq<nat>, i: nat): (s: nat)
    requires i < |f|
    ensures s <= i && f[i] <= f[s] + WINDOW
  {
    if i == 0 then 0
    else
      var s := Opening(f, i - 1);
      if f[i] > f[s] + WINDOW then i else s
  }

  predicate Nondecreasing(f: seq<nat>) {
    forall i, j :: 0 <= i < j < |f| ==> f[i] <= f[j]
  }

  ghost predicate AtMostFive(f: seq<nat>) {
    forall i :: 0 <= i < |f| ==> i - Opening(f, i) < MAX_FAILURES
  }

  lemma {:induction false} OpeningOfPrefix(f: seq<nat>, t: nat, i: nat)
    requires i < |f|
    ensures Opening(f + [t], i) == Opening(f, i)
    decreases i
  {
    if i > 0 { OpeningOfPrefix(f, t, i - 1); }
  }

  lemma FiveMore(f: seq<nat>, t: nat)
    requires AtMostFive(f)
    requires f != [] && t <= f[Opening(f, |f| - 1)] + WINDOW ==> |f| - Opening(f, |f| - 1) < MAX_FAILURES
    ensures AtMostFive(f + [t])
    ensures var s := Opening(f + [t], |f|);
      s == if f == [] || t > f[Opening(f, |f| - 1)] + WINDOW then |f| else Opening(f, |f| - 1)
  {
    if f != [] { OpeningOfPrefix(f, t, |f| - 1); }
    forall i | 0 <= i < |f| ensures Opening(f + [t], i) == Opening(f, i) {
      OpeningOfPrefix(f, t, i);
    }
  }

  /** What the record of an address says of its failures; it may be gone once expired. */
  ghost predicate Tells(r: Records, ip: string, f: seq<nat>, now: nat) {
    if f == [] then ip !in r
    else
      var s := Opening(f, |f| - 1);
      if ip in r then r[ip] == Record(|f| - s, f[s] + WINDOW) else now > f[s] + WINDOW
  }

  lemma TimesSnoc(events: seq<Event>, e: Event, ip: string)
    ensures After(events + [e]) == Step(After(events), e)
    ensures FailTimes(events + [e], ip) == TimesAfter(FailTimes(events, ip), e, ip)
  {
    assert (events + [e])[..|events|] == events;
  }

  lemma {:induction false} TimesBounded(events: seq<Event>, ip: string)
    requires InOrder(events)
    ensures Nondecreasing(FailTimes(events, ip))
    ensures forall t :: t in FailTimes(events, ip) ==> t <= events[|events|-1].at
    decreases events
  {
    if events != [] {
      var f := FailTimes(events[..|events|-1], ip);
      TimesBounded(events[..|events|-1], ip);
      assert forall i :: 0 <= i < |f| ==> f[i] in f;
    }
  }

  lemma StepTells(r: Records, ip: string, f: seq<nat>, e: Event, now: nat)
    requires Tells(r, ip, f, now) && now <= e.at && AtMostFive(f)
    requires e == Fail(ip, e.at) ==> Allowed(r, ip, e.at)
    ensures var g := TimesAfter(f, e, ip); Tells(Step(r, e), ip, g, e.at) && AtMostFive(g)
  {
    if e == Fail(ip, e.at) {
      FiveMore(f, e.at);
      hide AtMostFive, Opening;
    } else if e == Succeed(ip, e.at) {
      hide Opening;
    } else {
      hide AtMostFive, Opening;
    }
  }

  /** An answer stays good while the address does nothing else. */
  lemma {:induction false} AllowedLasts(events: seq<Event>, ip: string, j: nat, i: nat)
    requires InOrder(events) && Admits(events, ip, j, i)
    ensures Allowed(After(events[..i]), ip, events[i].at)
    decreases i
  {
    LastsUpto(events, ip, j, i, i);
  }

  lemma {:induction false} LastsUpto(events: seq<Event>, ip: string, j: nat, i: nat, k: nat)
    requires InOrder(events) && Admits(events, ip, j, i) && j < k <= i
    ensures ip in After(events[..k]) ==>
            ip in After(events[..j]) && After(events[..k])[ip] == After(events[..j])[ip]
    decreases k
  {
    assert events[..k] == events[..k-1] + [events[k-1]];
    TimesSnoc(events[..k-1], events[k-1], ip);
    hide After;
    if k - 1 > j {
      LastsUpto(events, ip, j, i, k - 1);
      assert !Concerns(events[k-1], ip);
    } else {
      assert events[j].Ask?;
    }
  }

  lemma SerialPrefix(events: seq<Event>, ip: string, n: nat)
    requires Serial(events, ip) && n <= |events|
    ensures Serial(events[..n], ip)
  {
    forall i | 0 <= i < n && EndsAttempt(events[..n][i], ip)
      ensures exists j: nat :: Admits(events[..n], ip, j, i)
    {
      var j: nat :| Admits(events, ip, j, i);
      assert events[..n][..j] == events[..j];
      assert Admits(events[..n], ip, j, i);
    }
  }

  function LastAt(events: seq<Event>): nat {
    if events == [] then 0 else events[|events|-1].at
  }

  /** What the last event of a serial run may rely on. */
  lemma SerialLast(events: seq<Event>, ip: string)
    requires Serial(events, ip) && events != []
    ensures var front, e := events[..|events|-1], events[|events|-1];
      && Serial(front, ip) && LastAt(front) <= e.at
      && (e == Fail(ip, e.at) ==> Allowed(After(front), ip, e.at))
  {
    hide Allowed, After;
    var n := |events| - 1;
    SerialPrefix(events, ip, n);
    if events[n] == Fail(ip, events[n].at) {
      var j: nat :| Admits(events, ip, j, n);
      AllowedLasts(events, ip, j, n);
    }
  }

  lemma NoneTell(ip: string)
    ensures AtMostFive(FailTimes([], ip)) && Tells(After([]), ip, FailTimes([], ip), 0)
  {
  }

  lemma {:induction false} RunTells(events: seq<Event>, ip: string)
    requires Serial(events, ip)
    ensures AtMostFive(FailTimes(events, ip))
    ensures Tells(After(events), ip, FailTimes(events, ip), LastAt(events))
    decreases events
  {
    hide Serial, AtMostFive, Tells, After, FailTimes, Allowed, Step;
    if events == [] {
      NoneTell(ip);
    } else {
      var front, e := events[..|events|-1], events[|events|-1];
      SerialLast(events, ip);
      RunTells(front, ip);
      TimesSnoc(front, e, ip);
      assert events == front + [e];
      StepTells(After(front), ip, FailTimes(front, ip), e, LastAt(front));
    }
  }

  /** Ten failures in a row never fit a minute. */
  lemma SpreadOut(f: seq<nat>, i: nat)
    requires Nondecreasing(f) && AtMostFive(f) && i + 9 < |f|
    ensures f[i + 9] > f[i] + WINDOW
  {
    var a := Opening(f, i + 9);
    OpeningOpens(f, i + 9);
    assert i + 9 - a < MAX_FAILURES;
    var b := Opening(f, a - 1);
    assert a - 1 - b < MAX_FAILURES;
    assert f[a] > f[b] + WINDOW && f[b] >= f[i];
  }

  lemma {:induction false} OpeningOpens(f: seq<nat>, i: nat)
    requires i < |f|
    ensures var s := Opening(f, i); Opening(f, s) == s
    decreases i
  {
    if i > 0 { OpeningOpens(f, i - 1); }
  }

  function Within(f: seq<nat>, lo: nat, hi: nat): set<nat> {
    set i | 0 <= i < |f| && lo <= f[i] <= hi
  }

  lemma NineInAMinute(f: seq<nat>, from: nat)
    requires Nondecreasing(f) && AtMostFive(f)
    ensures |Within(f, from, from + WINDOW)| <= 9
  {
    var s := Within(f, from, from + WINDOW);
    if s != {} {
      var i := Least(s);
      forall x | x in s ensures i <= x < i + 9 {
        if i + 9 < |f| { SpreadOut(f, i); }
      }
      SpanSize(s, i, 9);
    }
  }

  /**
   The bound that holds over every run: at most five failures of an address a window since it
   last succeeded, and at most nine in any closed minute, whatever other addresses and the
   sweeper do.
   */
  lemma FailuresBounded(events: seq<Event>, ip: string, from: nat)
    requires Serial(events, ip)
    ensures AtMostFive(FailTimes(events, ip))
    ensures |Within(FailTimes(events, ip), from, from + 60_000_000_000)| <= 9
  {
    RunTells(events, ip);
    TimesBounded(events, ip);
    NineInAMinute(FailTimes(events, ip), from);
  }

  /**
   Who is let in: an address that has not failed since it last succeeded, or whose minute, from the
   failure that opened it, is over, or that failed fewer than five times in it.
   */
  lemma AllowedExactly(events: seq<Event>, ip: string, now: nat)
    requires Serial(events, ip) && now >= LastAt(events)
    ensures var f := FailTimes(events, ip);
      Allowed(After(events), ip, now) <==>
        || f == []
        || (var s := Opening(f, |f| - 1); now > f[s] + 60_000_000_000 || |f| - s < 5)
  {
    hide Serial, After, FailTimes;
    RunTells(events, ip);
  }

  // -------------------------------------------------------------- sweeping

  lemma {:induction false} RecordsRecent(events: seq<Event>, ip: string)
    requires ip in After(events)
    ensures exists i :: 0 <= i < |events| && events[i] == Fail(ip, events[i].at)
                        && After(events)[ip].resetAt == events[i].at + WINDOW
    decreases events
  {
    var front, e := events[..|events|-1], events[|events|-1];
    if ip in After(front) {
      RecordsRecent(front, ip);
      var i :| 0 <= i < |front| && front[i] == Fail(ip, front[i].at) && After(front)[ip].resetAt == front[i].at + WINDOW;
      assert events[i] == front[i];
    }
    assert events[|events|-1] == e;
  }

  /** After a sweep only addresses are remembered that failed within the last minute. */
  lemma SweptAreRecent(events: seq<Event>, at: nat, ip: string)
    requires ip in After(events + [Sweep(at)])
    ensures exists i :: 0 <= i < |events| && events[i] == Fail(ip, events[i].at) && at <= events[i].at + 60_000_000_000
  {
    assert (events + [Sweep(at)])[..|events|] == events;
    RecordsRecent(events, ip);
  }

  function Answers(r: Records, events: seq<Event>): seq<bool>
    decreases events
  {
    if events == [] then []
    else (if events[0].Ask? then [Allowed(r, events[0].ip, events[0].at)] else []) +
         Answers(Step(r, events[0]), events[1..])
  }

  function WithoutSweeps(events: seq<Event>): seq<Event> {
    if events == [] then []
    else (if events[0].Sweep? then [] else [events[0]]) + WithoutSweeps(events[1..])
  }

  /** Records that agree on every address that has not expired. */
  ghost predicate Alike(a: Records, b: Records, now: nat) {
    forall ip :: (Live(a, ip, now) <==> Live(b, ip, now)) && (Live(a, ip, now) ==> a[ip] == b[ip])
  }

  lemma StepAlike(a: Records, b: Records, e: Event, now: nat)
    requires Alike(a, b, now) && now <= e.at
    ensures Alike(Step(a, e), if e.Sweep? then b else Step(b, e), e.at)
    ensures e.Ask? ==> Allowed(a, e.ip, e.at) == Allowed(b, e.ip, e.at)
  {
    assert forall ip :: Live(a, ip, e.at) ==> Live(a, ip, now);
    assert forall ip :: Live(b, ip, e.at) ==> Live(b, ip, now);
  }

  /** Whenever the sweeper runs, no answer to any question changes. */
  lemma {:induction false} SweepsChangeNoAnswer(a: Records, b: Records, events: seq<Event>, now: nat)
    requires InOrder(events) && (events != [] ==> now <= events[0].at) && Alike(a, b, now)
    ensures Answers(a, events) == Answers(b, WithoutSweeps(events))
    decreases events
  {
    if events != [] {
      var e := events[0];
      StepAlike(a, b, e, now);
      SweepsChangeNoAnswer(Step(a, e), if e.Sweep? then b else Step(b, e), events[1..], e.at);
      if e.Sweep? {
        assert WithoutSweeps(events) == WithoutSweeps(events[1..]);
      } else {
        assert WithoutSweeps(events)[0] == e && WithoutSweeps(events)[1..] == WithoutSweeps(events[1..]);
      }
    }
  }

  // ------------------------------------------------------ nothing stricter

  function Attempts(ip: string, times: seq<nat>): seq<Event> {
    if times == [] then []
    else
      var t := times[|times|-1];
      Attempts(ip, times[..|times|-1]) + [Ask(ip, t)] + [Fail(ip, t)]
  }

  lemma SerialSnoc(events: seq<Event>, e: Event, ip: string)
    requires Serial(events, ip) && (events != [] ==> events[|events|-1].at <= e.at)
    requires EndsAttempt(e, ip) ==> exists j: nat :: Admits(events + [e], ip, j, |events|)
    ensures Serial(events + [e], ip)
  {
    var all := events + [e];
    forall i | 0 <= i < |all| && EndsAttempt(all[i], ip) ensures exists j: nat :: Admits(all, ip, j, i) {
      if i < |events| {
        var j: nat :| Admits(events, ip, j, i);
        assert all[..j] == events[..j];
        assert Admits(all, ip, j, i);
      }
    }
  }

  lemma NextAdmitted(r: Records, ip: string, f: seq<nat>, t: nat, now: nat)
    requires Tells(r, ip, f, now) && AtMostFive(f + [t])
    ensures Allowed(r, ip, t)
  {
    if f != [] {
      OpeningOfPrefix(f, t, |f| - 1);
      assert |f| - Opening(f + [t], |f|) < MAX_FAILURES;
    }
  }

  lemma PrefixFive(f: seq<nat>, t: nat)
    requires AtMostFive(f + [t])
    ensures AtMostFive(f)
  {
    forall i | 0 <= i < |f| ensures i - Opening(f, i) < MAX_FAILURES {
      OpeningOfPrefix(f, t, i);
      assert i - Opening(f + [t], i) < MAX_FAILURES;
    }
  }

  /** The failures but the last. */
  lemma FrontTimes(times: seq<nat>)
    requires Nondecreasing(times) && AtMostFive(times) && times != []
    ensures var f, t := times[..|times|-1], times[|times|-1];
      f + [t] == times && Nondecreasing(f) && AtMostFive(f) && (f != [] ==> f[|f|-1] <= t)
  {
    hide Opening;
    var f, t := times[..|times|-1], times[|times|-1];
    assert f + [t] == times;
    PrefixFive(f, t);
    PrefixNondecreasing(f, t);
  }

  lemma AttemptsSnoc(ip: string, times: seq<nat>)
    requires times != []
    ensures var t := times[|times|-1];
      Attempts(ip, times) == Attempts(ip, times[..|times|-1]) + [Ask(ip, t)] + [Fail(ip, t)]
  {
  }

  lemma NoAttempts(ip: string)
    ensures Serial(Attempts(ip, []), ip) && FailTimes(Attempts(ip, []), ip) == []
  {
  }

  /** Every sorted list of times with at most five a window is the failures of some serial run. */
  lemma {:induction false} Realisable(ip: string, times: seq<nat>)
    requires Nondecreasing(times) && AtMostFive(times)
    ensures Serial(Attempts(ip, times), ip) && FailTimes(Attempts(ip, times), ip) == times
    decreases times
  {
    hide AtMostFive, Nondecreasing, Serial, FailTimes, After, Allowed, Tells, Attempts;
    if times == [] {
      NoAttempts(ip);
    } else {
      var f, t := times[..|times|-1], times[|times|-1];
      var front := Attempts(ip, f);
      FrontTimes(times);
      Realisable(ip, f);
      AttemptsSnoc(ip, times);
      AttemptsStop(ip, f);
      RunTells(front, ip);
      NextAdmitted(After(front), ip, f, t, LastAt(front));
      OneMore(front, ip, t);
    }
  }

  lemma PrefixNondecreasing(f: seq<nat>, t: nat)
    requires Nondecreasing(f + [t])
    ensures Nondecreasing(f)
  {
    forall i, j | 0 <= i < j < |f| ensures f[i] <= f[j] {
      assert (f + [t])[i] == f[i] && (f + [t])[j] == f[j];
    }
  }

  /** The attempts end with the last failure. */
  lemma AttemptsStop(ip: string, times: seq<nat>)
    ensures var a := Attempts(ip, times);
      if times == [] then a == [] else a != [] && a[|a|-1].at == times[|times|-1]
  {
  }

  lemma OneMore(front: seq<Event>, ip: string, t: nat)
    requires Serial(front, ip) && (front != [] ==> front[|front|-1].at <= t) && Allowed(After(front), ip, t)
    ensures var all := front + [Ask(ip, t)] + [Fail(ip, t)];
      Serial(all, ip) && FailTimes(all, ip) == FailTimes(front, ip) + [t]
  {
    var asked := front + [Ask(ip, t)];
    var all := asked + [Fail(ip, t)];
    assert all[..|front|] == front;
    SerialSnoc(front, Ask(ip, t), ip);
    assert Admits(all, ip, |front|, |asked|);
    SerialSnoc(asked, Fail(ip, t), ip);
    TimesSnoc(front, Ask(ip, t), ip);
    TimesSnoc(asked, Fail(ip, t), ip);
  }

  function Bursts(): (f: seq<nat>)
    ensures |f| == 10 && f[0] == 0
    ensures forall i :: 0 < i < 5 ==> f[i] == WINDOW
    ensures forall i :: 5 <= i < 10 ==> f[i] == WINDOW + 1
  {
    seq(10, i => if i == 0 then 0 else if i < 5 then WINDOW else WINDOW + 1)
  }

  lemma {:induction false} BurstOpenings(i: nat)
    requires i < 10
    ensures Opening(Bursts(), i) == if i < 5 then 0 else 5
    decreases i
  {
    hide Bursts;
    if i > 0 { BurstOpenings(i - 1); }
  }

  /** Nine is reached: one failure, four more as its window ends, five just after. */
  lemma NineIsReached(ip: string)
    ensures exists events ::
      Serial(events, ip) && |Within(FailTimes(events, ip), WINDOW, WINDOW + WINDOW)| == 9
  {
    hide Bursts, Opening, Attempts, Serial, FailTimes;
    var f := Bursts();
    assert Nondecreasing(f) by {
      forall i, j | 0 <= i < j < |f| ensures f[i] <= f[j] {
        if i > 0 { assert i < 5 || i >= 5; assert j < 5 || j >= 5; }
      }
    }
    forall i | 0 <= i < 10 ensures i - Opening(f, i) < MAX_FAILURES {
      BurstOpenings(i);
    }
    Realisable(ip, f);
    BurstsInAMinute();
    assert |Within(FailTimes(Attempts(ip, f), ip), WINDOW, WINDOW + WINDOW)| == 9;
  }

  lemma BurstsInAMinute()
    ensures |Within(Bursts(), WINDOW, WINDOW + WINDOW)| == 9
  {
    hide Bursts;
    var late := Within(Bursts(), WINDOW, WINDOW + WINDOW);
    assert forall i :: i in late <==> 1 <= i < 10;
    assert late == {1, 2, 3, 4, 5, 6, 7, 8, 9};
  }
}
