/** Finite sets of indices: their least element, and how many fit a span. */
module Spans {

  lemma {:induction false} SpanSize(s: set<nat>, lo: nat, n: nat)
    requires forall x :: x in s ==> lo <= x < lo + n
    ensures |s| <= n
    decreases n
  {
    if n > 0 {
      SpanSize(s - {lo + n - 1}, lo, n - 1);
    } else {
      assert s == {};
    }
  }

  lemma {:induction false} Least(s: set<nat>) returns (m: nat)
    requires s != {}
    ensures m in s && forall x :: x in s ==> m <= x
    decreases s
  {
    var y :| y in s;
    if s == {y} {
      m := y;
    } else {
      var n := Least(s - {y});
      m := if n < y then n else y;
      assert forall x :: x in s ==> x == y || x in s - {y};
    }
  }
}
