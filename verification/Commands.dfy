/** Running a configured command: filling the template's placeholders one argument at a time. */
module Commands {
  import opened Wrappers
  import opened Sequences
  import opened Text

  /** strings.ReplaceAll for a non-empty pattern. */
  function ReplaceAll(s: string, pattern: string, v: string): string
    requires pattern != ""
    decreases |s|
  {
    if s == "" then ""
    else if pattern <= s then v + ReplaceAll(s[|pattern|..], pattern, v)
    else [s[0]] + ReplaceAll(s[1..], pattern, v)
  }

  function Placeholder(name: string): string {
    "{" + name + "}"
  }

  predicate HasBrace(s: string) {
    exists i :: 0 <= i < |s| && s[i] == '{'
  }

  /** The replacements of the request's arguments, in the order the map yields them. */
  function ReplaceInOrder(s: string, args: map<string, string>, order: seq<string>): string
    requires forall k :: k in order ==> k in args
    decreases order
  {
    if order == [] then s
    else
      assert order[0] in order && forall k :: k in order[1..] ==> k in order;
      ReplaceInOrder(ReplaceAll(s, Placeholder(order[0]), args[order[0]]), args, order[1..])
  }

  /** The command as sent, or None when a placeholder is left. */
  function Accept(resolved: string): Option<string> {
    if HasBrace(resolved) then None else Some(resolved)
  }

  method ResolveCommand(template: string, nodeNumber: string, args: map<string, string>) returns (r: Option<string>)
    ensures exists order :: (
      && IsIteration(order, args.Keys)
      && r == Accept(ReplaceInOrder(ReplaceAll(template, Placeholder("node"), nodeNumber), args, order)))
  {
    var resolved := ReplaceAll(template, Placeholder("node"), nodeNumber);
    ghost var start := resolved;
    ghost var order := [];
    var left := args.Keys;
    while left != {}
      invariant left <= args.Keys && IsIteration(order, args.Keys - left)
      invariant resolved == ReplaceInOrder(start, args, order)
      decreases left
    {
      var k :| k in left;
      ReplaceSnoc(start, args, order, k);
      resolved := ReplaceAll(resolved, Placeholder(k), args[k]);
      order := order + [k];
      left := left - {k};
    }
    assert IsIteration(order, args.Keys);
    r := Accept(resolved);
  }

  lemma {:induction false} ReplaceSnoc(s: string, args: map<string, string>, order: seq<string>, k: string)
    requires k in args && forall n :: n in order ==> n in args
    ensures ReplaceInOrder(s, args, order + [k]) == ReplaceAll(ReplaceInOrder(s, args, order), Placeholder(k), args[k])
    decreases order
  {
    if order == [] {
      assert [] + [k] == [k] && [k][1..] == [];
    } else {
      assert (order + [k])[1..] == order[1..] + [k];
      ReplaceSnoc(ReplaceAll(s, Placeholder(order[0]), args[order[0]]), args, order[1..], k);
    }
  }

  // ----------------------------------------------- templates and their meaning

  datatype Piece = Words(text: string) | Hole(name: string)

  function Show(p: Piece): string {
    match p case Words(t) => t case Hole(n) => Placeholder(n)
  }

  function Render(ps: seq<Piece>): string {
    if ps == [] then "" else Show(ps[0]) + Render(ps[1..])
  }

  /** Text without an opening brace, and placeholder names without braces. */
  ghost predicate WellFormed(ps: seq<Piece>) {
    forall i :: 0 <= i < |ps| ==>
      match ps[i] case Words(t) => Lacks(t, '{') case Hole(n) => Lacks(n, '{') && Lacks(n, '}')
  }

  ghost predicate NamesLack(args: map<string, string>, c: char) {
    forall k :: k in args ==> Lacks(k, c)
  }

  /** An occurrence of the placeholder can begin in the text: all of it is there, or its start at the very end. */
  predicate Reaches(text: string, k: string) {
    exists i :: 0 <= i < |text| && (Placeholder(k) <= text[i..] || text[i..] <= Placeholder(k))
  }

  /**
   No value can bring about the placeholder of another argument, unless that argument
   stands for itself.  The value of "node" is never inserted.
   */
  predicate Independent(args: map<string, string>) {
    forall a, b :: a in args && b in args && a != b && a != "node" ==>
      args[b] == Placeholder(b) || !Reaches(args[a], b)
  }

  /** A piece in which only a hole of that name begins its placeholder. */
  ghost predicate SafePiece(p: Piece, k: string) {
    match p
    case Words(t) => !Reaches(t, k)
    case Hole(n) => Lacks(n, '{') && Lacks(n, '}')
  }

  ghost predicate Safe(ps: seq<Piece>, k: string) {
    forall i :: 0 <= i < |ps| ==> SafePiece(ps[i], k)
  }

  function FillPiece(p: Piece, args: map<string, string>): Piece {
    match p
    case Words(t) => p
    case Hole(n) => if n in args then Words(args[n]) else p
  }

  /** Simultaneous substitution. */
  function Fill(ps: seq<Piece>, args: map<string, string>): (r: seq<Piece>)
    ensures |r| == |ps| && forall i :: 0 <= i < |ps| ==> r[i] == FillPiece(ps[i], args)
  {
    seq(|ps|, i requires 0 <= i < |ps| => FillPiece(ps[i], args))
  }

  lemma BracelessReachesNothing(text: string, k: string)
    requires Lacks(text, '{')
    ensures !Reaches(text, k)
  {
    forall i | 0 <= i < |text| ensures !(Placeholder(k) <= text[i..]) && !(text[i..] <= Placeholder(k)) {
      assert text[i..][0] == text[i] && Placeholder(k)[0] == '{';
    }
  }

  lemma NotAtStart(text: string, rest: string, k: string)
    requires text != "" && !Reaches(text, k)
    ensures !(Placeholder(k) <= text + rest) && !Reaches(text[1..], k)
  {
    var p := Placeholder(k);
    assert text[0..] == text;
    if |p| <= |text| {
      assert (text + rest)[..|p|] == text[..|p|];
    } else {
      assert (text + rest)[..|text|] == text;
    }
    forall i | 0 <= i < |text[1..]| ensures !(p <= text[1..][i..]) && !(text[1..][i..] <= p) {
      assert text[1..][i..] == text[i+1..];
    }
  }

  /** Replacement passes over text in which no occurrence can begin. */
  lemma {:induction false} ReplaceSkips(text: string, rest: string, k: string, v: string)
    requires !Reaches(text, k)
    ensures ReplaceAll(text + rest, Placeholder(k), v) == text + ReplaceAll(rest, Placeholder(k), v)
    decreases text
  {
    if text == "" {
      assert text + rest == rest;
    } else {
      var s := text + rest;
      NotAtStart(text, rest, k);
      hide Reaches, Placeholder;
      assert s[0] == text[0] && s[1..] == text[1..] + rest;
      ReplaceSkips(text[1..], rest, k, v);
      assert [text[0]] + (text[1..] + ReplaceAll(rest, Placeholder(k), v)) == text + ReplaceAll(rest, Placeholder(k), v);
    }
  }

  /** A placeholder is matched by its own name only. */
  lemma PlaceholderMatches(name: string, rest: string, k: string)
    requires Lacks(name, '}') && Lacks(k, '}')
    ensures Placeholder(k) <= Placeholder(name) + rest <==> k == name
  {
    var p, s := Placeholder(k), Placeholder(name) + rest;
    assert p[|k| + 1] == '}' && s[|name| + 1] == '}';
    if p <= s {
      assert forall i :: 0 <= i < |k| ==> p[i + 1] == k[i];
      assert forall i :: 0 <= i < |name| ==> s[i + 1] == name[i];
      assert forall i :: 0 <= i < |p| ==> p[i] == s[i];
      assert |k| == |name|;
      assert forall i :: 0 <= i < |k| ==> k[i] == p[i + 1] == s[i + 1] == name[i];
    }
  }

  lemma ReplaceHole(n: string, rest: string, k: string, v: string)
    requires Lacks(n, '{') && Lacks(n, '}') && Lacks(k, '}')
    ensures ReplaceAll(Placeholder(n) + rest, Placeholder(k), v)
         == (if n == k then v else Placeholder(n)) + ReplaceAll(rest, Placeholder(k), v)
  {
    var s := Placeholder(n) + rest;
    PlaceholderMatches(n, rest, k);
    if k == n {
      assert s[|Placeholder(k)|..] == rest;
    } else {
      BracelessReachesNothing(n + "}", k);
      assert s[0] == '{' && s[1..] == (n + "}") + rest;
      ReplaceSkips(n + "}", rest, k, v);
      assert ['{'] + ((n + "}") + ReplaceAll(rest, Placeholder(k), v)) == Placeholder(n) + ReplaceAll(rest, Placeholder(k), v);
    }
  }

  lemma ReplacePiece(p: Piece, rest: string, k: string, v: string)
    requires SafePiece(p, k) && Lacks(k, '}')
    ensures ReplaceAll(Show(p) + rest, Placeholder(k), v)
         == Show(FillPiece(p, map[k := v])) + ReplaceAll(rest, Placeholder(k), v)
  {
    hide ReplaceAll, Placeholder, Reaches, Lacks;
    match p
    case Words(t) => ReplaceSkips(t, rest, k, v);
    case Hole(n) => ReplaceHole(n, rest, k, v);
  }

  /** Replacing one placeholder in the text fills that hole of the template. */
  lemma {:induction false} ReplaceFills(ps: seq<Piece>, k: string, v: string)
    requires Safe(ps, k) && Lacks(k, '}')
    ensures ReplaceAll(Render(ps), Placeholder(k), v) == Render(Fill(ps, map[k := v]))
    decreases ps
  {
    hide SafePiece, Show, Placeholder, Lacks, FillPiece;
    PlaceholderShown(k);
    if ps == [] {
      assert ReplaceAll("", Placeholder(k), v) == "" && Fill([], map[k := v]) == [];
    } else {
      ReplacePiece(ps[0], Render(ps[1..]), k, v);
      ReplaceFills(ps[1..], k, v);
      assert Fill(ps, map[k := v])[1..] == Fill(ps[1..], map[k := v]);
    }
  }

  /** A replacement by the placeholder itself changes nothing, and fills the hole with what it shows. */
  lemma {:induction false} ReplaceSame(s: string, p: string)
    requires p != ""
    ensures ReplaceAll(s, p, p) == s
    decreases |s|
  {
    if s != "" {
      if p <= s {
        ReplaceSame(s[|p|..], p);
        assert p + s[|p|..] == s;
      } else {
        ReplaceSame(s[1..], p);
      }
    }
  }

  lemma {:induction false} FillSame(ps: seq<Piece>, k: string)
    ensures Render(Fill(ps, map[k := Placeholder(k)])) == Render(ps)
    decreases ps
  {
    hide Placeholder;
    if ps != [] {
      FillSame(ps[1..], k);
      assert Fill(ps, map[k := Placeholder(k)])[1..] == Fill(ps[1..], map[k := Placeholder(k)]);
    }
  }

  /** Filling one more name after others is filling them all. */
  lemma FillFill(ps: seq<Piece>, a: map<string, string>, k: string, v: string)
    requires k !in a
    ensures Fill(Fill(ps, a), map[k := v]) == Fill(ps, a[k := v])
  {
  }

  /** A hole is filled, if at all, with a value that begins no placeholder of `k`. */
  lemma FillSafe(ps: seq<Piece>, a: map<string, string>, k: string)
    requires WellFormed(ps) && forall i :: 0 <= i < |ps| && ps[i].Hole? && ps[i].name in a ==> !Reaches(a[ps[i].name], k)
    ensures Safe(Fill(ps, a), k)
  {
    hide Reaches, Lacks;
    var r := Fill(ps, a);
    forall i | 0 <= i < |r| ensures SafePiece(r[i], k) {
      if ps[i].Words? { BracelessReachesNothing(ps[i].text, k); }
    }
  }

  lemma WellFormedSafe(ps: seq<Piece>, k: string)
    requires WellFormed(ps)
    ensures Safe(ps, k)
  {
    hide Lacks, Reaches;
    forall i | 0 <= i < |ps| ensures SafePiece(ps[i], k) {
      if ps[i].Words? { BracelessReachesNothing(ps[i].text, k); }
    }
  }

  /** The first `i` replacements of an order fill exactly their names. */
  function Done(args: map<string, string>, order: seq<string>): (r: map<string, string>)
    requires forall k :: k in order ==> k in args
    ensures forall k :: k in r <==> k in order
    ensures forall k :: k in r ==> r[k] == args[k]
  {
    map k | k in order :: args[k]
  }

  ghost predicate NoHole(ps: seq<Piece>, name: string) {
    forall i :: 0 <= i < |ps| ==> ps[i] != Hole(name)
  }

  /** One replacement, after those already done, fills one more name. */
  lemma NextFills(ps: seq<Piece>, args: map<string, string>, done: map<string, string>, k: string)
    requires WellFormed(ps) && NoHole(ps, "node") && Independent(args) && NamesLack(args, '}')
    requires k in args && k !in done && forall n :: n in done ==> n in args && done[n] == args[n]
    ensures ReplaceAll(Render(Fill(ps, done)), Placeholder(k), args[k]) == Render(Fill(ps, done[k := args[k]]))
  {
    hide ReplaceAll, Render, Fill, Reaches, Placeholder, Lacks, WellFormed, Safe;
    FillFill(ps, done, k, args[k]);
    if args[k] == Placeholder(k) {
      assert Placeholder(k) != "" by { PlaceholderShown(k); }
      ReplaceSame(Render(Fill(ps, done)), Placeholder(k));
      FillSame(Fill(ps, done), k);
    } else {
      FillSafe(ps, done, k);
      ReplaceFills(Fill(ps, done), k, args[k]);
    }
  }

  lemma PlaceholderShown(k: string)
    ensures Placeholder(k) != ""
  {
  }

  lemma {:induction false} OrderFills(ps: seq<Piece>, args: map<string, string>, order: seq<string>, i: nat)
    requires WellFormed(ps) && NoHole(ps, "node") && Independent(args) && NamesLack(args, '}')
    requires IsIteration(order, args.Keys) && i <= |order|
    ensures forall k :: k in order[i..] ==> k in args
    ensures ReplaceInOrder(Render(Fill(ps, Done(args, order[..i]))), args, order[i..]) == Render(Fill(ps, args))
    decreases |order| - i
  {
    hide Render, Fill, WellFormed, ReplaceAll, Placeholder, Independent, NamesLack, NoHole;
    var done := Done(args, order[..i]);
    if i == |order| {
      assert order[..i] == order && done == args;
    } else {
      var k := order[i];
      assert order[i..][0] == k && order[i..][1..] == order[i+1..];
      DoneNext(args, order, i);
      NextFills(ps, args, done, k);
      OrderFills(ps, args, order, i + 1);
    }
  }

  lemma DoneNext(args: map<string, string>, order: seq<string>, i: nat)
    requires IsIteration(order, args.Keys) && i < |order|
    ensures order[i] in args && order[i] !in Done(args, order[..i])
    ensures Done(args, order[..i])[order[i] := args[order[i]]] == Done(args, order[..i+1])
  {
    assert order[i] in order;
    assert forall j :: 0 <= j < i ==> order[j] != order[i];
    assert order[..i+1] == order[..i] + [order[i]];
  }

  // -------------------------------------------------------------- theorems

  /** The arguments in effect: the node's number, whatever the request says of "node". */
  function Effective(nodeNumber: string, args: map<string, string>): map<string, string> {
    args["node" := nodeNumber]
  }

  /** The text after the node's number and, in this order, the arguments are put in. */
  ghost function Resolved(ps: seq<Piece>, nodeNumber: string, args: map<string, string>, order: seq<string>): string
    requires IsIteration(order, args.Keys)
  {
    ReplaceInOrder(ReplaceAll(Render(ps), Placeholder("node"), nodeNumber), args, order)
  }

  /** It is the simultaneous substitution, in which an argument "node" plays no part. */
  ghost predicate Resolves(ps: seq<Piece>, nodeNumber: string, args: map<string, string>, order: seq<string>)
    requires IsIteration(order, args.Keys)
  {
    Resolved(ps, nodeNumber, args, order) == Render(Fill(ps, Effective(nodeNumber, args)))
  }

  /** Confluence: with independent arguments every order of replacing them resolves every template. */
  lemma AnyOrderSubstitutes(ps: seq<Piece>, nodeNumber: string, args: map<string, string>, order: seq<string>)
    requires WellFormed(ps) && NamesLack(args, '}') && Lacks(nodeNumber, '{')
    requires IsIteration(order, args.Keys) && Independent(args)
    ensures Resolves(ps, nodeNumber, args, order)
  {
    hide Fill, Render, ReplaceAll, Lacks, IsIteration, Effective, Placeholder, WellFormed, Safe, Independent, NamesLack,
         ReplaceInOrder;
    var ps1 := Fill(ps, map["node" := nodeNumber]);
    NodeFilled(ps, nodeNumber);
    FillNone(ps1, Done(args, []));
    FillEffective(ps, nodeNumber, args);
    assert order[0..] == order && order[..0] == [];
    OrderFills(ps1, args, order, 0);
  }

  lemma NodeFilled(ps: seq<Piece>, nodeNumber: string)
    requires WellFormed(ps) && Lacks(nodeNumber, '{')
    ensures var ps1 := Fill(ps, map["node" := nodeNumber]);
      && WellFormed(ps1) && NoHole(ps1, "node")
      && ReplaceAll(Render(ps), Placeholder("node"), nodeNumber) == Render(ps1)
  {
    hide ReplaceAll, Render, Placeholder, Safe;
    assert Lacks("node", '}');
    WellFormedSafe(ps, "node");
    ReplaceFills(ps, "node", nodeNumber);
    var ps1 := Fill(ps, map["node" := nodeNumber]);
    forall i | 0 <= i < |ps1|
      ensures match ps1[i] case Words(t) => Lacks(t, '{') case Hole(n) => Lacks(n, '{') && Lacks(n, '}') {
      assert match ps[i] case Words(t) => Lacks(t, '{') case Hole(n) => Lacks(n, '{') && Lacks(n, '}');
    }
  }

  lemma FillNone(ps: seq<Piece>, args: map<string, string>)
    requires args.Keys == {}
    ensures Fill(ps, args) == ps
  {
  }

  /** The node's number, filled in first, is what counts for "node". */
  lemma FillEffective(ps: seq<Piece>, nodeNumber: string, args: map<string, string>)
    ensures Fill(Fill(ps, map["node" := nodeNumber]), args) == Fill(ps, Effective(nodeNumber, args))
  {
    var a, b := Fill(Fill(ps, map["node" := nodeNumber]), args), Fill(ps, Effective(nodeNumber, args));
    forall i | 0 <= i < |ps| ensures a[i] == b[i] {
      assert a[i] == FillPiece(FillPiece(ps[i], map["node" := nodeNumber]), args);
    }
  }

  // ------------------------------------------------- nothing less will do

  /** Replacing something that occurs by something else changes the text. */
  lemma {:induction false} ReplaceGrows(s: string, p: string, v: string)
    requires p != ""
    ensures |v| >= |p| ==> |ReplaceAll(s, p, v)| >= |s|
    ensures |v| <= |p| ==> |ReplaceAll(s, p, v)| <= |s|
    decreases |s|
  {
    if s != "" { ReplaceGrows(if p <= s then s[|p|..] else s[1..], p, v); }
  }

  lemma {:induction false} ReplaceChanges(s: string, p: string, v: string, at: nat)
    requires p != "" && v != p && OccursAt(s, p, at)
    ensures ReplaceAll(s, p, v) != s
    decreases |s|
  {
    if p <= s {
      var rest := ReplaceAll(s[|p|..], p, v);
      ReplaceGrows(s[|p|..], p, v);
      assert (v + rest)[..|v|] == v && s[..|p|] == p;
    } else {
      assert at > 0 by { assert s[0..] == s; }
      assert s[at..] == s[1..][at-1..];
      ReplaceChanges(s[1..], p, v, at - 1);
      assert ([s[0]] + ReplaceAll(s[1..], p, v))[1..] == ReplaceAll(s[1..], p, v);
    }
  }

  /** Replacing other names leaves a template alone whose only hole is `a`. */
  lemma {:induction false} OthersPass(ps: seq<Piece>, a: string, args: map<string, string>, order: seq<string>)
    requires WellFormed(ps) && NamesLack(args, '}') && forall i :: 0 <= i < |ps| && ps[i].Hole? ==> ps[i].name == a
    requires forall k :: k in order ==> k in args && k != a
    ensures ReplaceInOrder(Render(ps), args, order) == Render(ps)
    decreases order
  {
    hide WellFormed, Safe, Render, ReplaceAll, Placeholder, Lacks;
    if order != [] {
      var k := order[0];
      assert k in order;
      WellFormedSafe(ps, k);
      ReplaceFills(ps, k, args[k]);
      assert Fill(ps, map[k := args[k]]) == ps;
      assert forall n :: n in order[1..] ==> n in order;
      OthersPass(ps, a, args, order[1..]);
    }
  }

  lemma {:induction false} SomeIteration(keys: set<string>) returns (order: seq<string>)
    ensures IsIteration(order, keys)
    decreases keys
  {
    order := [];
    if k :| k in keys {
      var rest := SomeIteration(keys - {k});
      order := rest + [k];
    }
  }

  /** The missing rest of a placeholder that a value begins, and where it begins. */
  lemma Completion(v: string, b: string) returns (tail: string, at: nat)
    requires Reaches(v, b) && Lacks(b, '{')
    ensures OccursAt(v + tail, Placeholder(b), at) && Lacks(tail, '{')
  {
    var p := Placeholder(b);
    at :| 0 <= at < |v| && (p <= v[at..] || v[at..] <= p);
    if p <= v[at..] {
      tail := "";
      assert v + tail == v;
    } else {
      tail := p[|v|-at..];
      assert (v + tail)[at..] == v[at..] + tail == p;
    }
  }

  /** The template `{a}` and a completing text: with `b` replaced last it does not resolve, with `a` last it does. */
  lemma DependentFails(nodeNumber: string, args: map<string, string>, a: string, b: string)
    returns (ps: seq<Piece>, order: seq<string>, other: seq<string>)
    requires NamesLack(args, '{') && NamesLack(args, '}') && Lacks(nodeNumber, '{')
    requires a in args && b in args && a != b && a != "node" && args[b] != Placeholder(b) && Reaches(args[a], b)
    ensures WellFormed(ps) && IsIteration(order, args.Keys) && IsIteration(other, args.Keys)
    ensures !Resolves(ps, nodeNumber, args, order) && Resolves(ps, nodeNumber, args, other)
  {
    hide ReplaceAll, ReplaceInOrder, Placeholder, Reaches, Safe, Lacks;
    var tail, at := Completion(args[a], b);
    ps := [Hole(a), Words(tail)];
    var others := SomeIteration(args.Keys - {a, b});
    order, other := others + [a] + [b], others + [b] + [a];
    LastTwo(others, args.Keys, a, b);
    assert {a, b} == {b, a};
    LastTwo(others, args.Keys, b, a);
    assert WellFormed(ps);
    NodeFilled(ps, nodeNumber);
    assert Fill(ps, map["node" := nodeNumber]) == ps;
    OthersPass(ps, a, args, others);
    OthersPass(ps, a, args, others + [b]);
    ReplaceSnoc(Render(ps), args, others, a);
    ReplaceSnoc(Render(ps), args, others + [a], b);
    ReplaceSnoc(Render(ps), args, others + [b], a);
    WellFormedSafe(ps, a);
    ReplaceFills(ps, a, args[a]);
    TwoPieces(ps, args[a], tail, map[a := args[a]]);
    TwoPieces(ps, args[a], tail, Effective(nodeNumber, args));
    PlaceholderShown(b);
    ReplaceChanges(args[a] + tail, Placeholder(b), args[b], at);
  }

  lemma LastTwo(others: seq<string>, keys: set<string>, a: string, b: string)
    requires IsIteration(others, keys - {a, b}) && a in keys && b in keys && a != b
    ensures IsIteration(others + [a] + [b], keys)
    ensures forall k :: k in others ==> k != a && k in keys
  {
    var order := others + [a] + [b];
    forall i, j | 0 <= i < j < |order| ensures order[i] != order[j] {
      if i < |others| { assert others[i] in others; }
    }
    forall k | k in keys ensures k in order {
      if k != a && k != b { assert k in others; }
    }
  }

  lemma TwoPieces(ps: seq<Piece>, v: string, tail: string, m: map<string, string>)
    requires |ps| == 2 && ps[0].Hole? && ps[0].name in m && m[ps[0].name] == v && ps[1] == Words(tail)
    ensures Render(Fill(ps, m)) == v + tail
  {
    var r := Fill(ps, m);
    assert r == [Words(v), Words(tail)] && r[1..] == [Words(tail)] && r[1..][1..] == [];
    assert Render(r[1..]) == tail + "" == tail;
  }

  /** Every order resolves every template. */
  ghost predicate Confluent(nodeNumber: string, args: map<string, string>) {
    forall ps, order :: WellFormed(ps) && IsIteration(order, args.Keys) ==> Resolves(ps, nodeNumber, args, order)
  }

  /** Any two orders give the same text. */
  ghost predicate OrderFree(nodeNumber: string, args: map<string, string>) {
    forall ps, order, other :: (
      WellFormed(ps) && IsIteration(order, args.Keys) && IsIteration(other, args.Keys) ==>
      Resolved(ps, nodeNumber, args, order) == Resolved(ps, nodeNumber, args, other))
  }

  /**
   Exactly when the order of the map does not matter, and exactly when every order comes to
   the simultaneous substitution: one condition on the values alone.
   */
  lemma ConfluentExactly(nodeNumber: string, args: map<string, string>)
    requires NamesLack(args, '{') && NamesLack(args, '}') && Lacks(nodeNumber, '{')
    ensures Confluent(nodeNumber, args) <==> Independent(args)
    ensures OrderFree(nodeNumber, args) <==> Independent(args)
  {
    hide WellFormed, IsIteration, Resolved, Reaches, NamesLack, Lacks, Placeholder;
    if Independent(args) {
      forall ps, order | WellFormed(ps) && IsIteration(order, args.Keys) ensures Resolves(ps, nodeNumber, args, order) {
        AnyOrderSubstitutes(ps, nodeNumber, args, order);
      }
    } else {
      var a, b :| a in args && b in args && a != b && a != "node" && args[b] != Placeholder(b) && Reaches(args[a], b);
      var ps, order, other := DependentFails(nodeNumber, args, a, b);
      assert Resolved(ps, nodeNumber, args, order) != Resolved(ps, nodeNumber, args, other);
    }
  }

  // ------------------------------------------------------------ acceptance

  lemma BraceInEither(a: string, b: string)
    ensures HasBrace(a + b) <==> HasBrace(a) || HasBrace(b)
  {
    if HasBrace(a) { var i :| 0 <= i < |a| && a[i] == '{'; assert (a + b)[i] == '{'; }
    if HasBrace(b) { var i :| 0 <= i < |b| && b[i] == '{'; assert (a + b)[|a| + i] == '{'; }
  }

  lemma {:induction false} BraceInPiece(ps: seq<Piece>)
    ensures HasBrace(Render(ps)) <==> exists i :: 0 <= i < |ps| && HasBrace(Show(ps[i]))
    decreases ps
  {
    hide HasBrace, Show;
    if ps == [] {
      assert !HasBrace("") by { NoBrace(); }
    } else {
      BraceInPiece(ps[1..]);
      BraceInEither(Show(ps[0]), Render(ps[1..]));
      if i :| 0 <= i < |ps| && HasBrace(Show(ps[i])) { if i > 0 { assert HasBrace(Show(ps[1..][i - 1])); } }
      if i :| 0 <= i < |ps[1..]| && HasBrace(Show(ps[1..][i])) { assert HasBrace(Show(ps[i + 1])); }
    }
  }

  lemma NoBrace()
    ensures !HasBrace("")
  {
  }

  /** The hole has a value, and one without an opening brace. */
  predicate Filled(p: Piece, all: map<string, string>) {
    p.Hole? ==> p.name in all && !HasBrace(all[p.name])
  }

  lemma FilledShown(ps: seq<Piece>, all: map<string, string>, i: nat)
    requires WellFormed(ps) && i < |ps|
    ensures HasBrace(Show(Fill(ps, all)[i])) <==> !Filled(ps[i], all)
  {
    match ps[i]
    case Words(t) => assert Lacks(t, '{');
    case Hole(n) => assert Placeholder(n)[0] == '{';
  }

  /**
   A request with independent arguments is accepted exactly when every placeholder has a
   value without an opening brace, and then as filled; unused values do not matter.
   */
  lemma AcceptedWhenFilled(ps: seq<Piece>, nodeNumber: string, args: map<string, string>, order: seq<string>)
    requires WellFormed(ps) && NamesLack(args, '}') && Lacks(nodeNumber, '{')
    requires IsIteration(order, args.Keys) && Independent(args)
    ensures Accept(ReplaceInOrder(ReplaceAll(Render(ps), Placeholder("node"), nodeNumber), args, order)) ==
      if forall i :: 0 <= i < |ps| ==> Filled(ps[i], Effective(nodeNumber, args))
      then Some(Render(Fill(ps, Effective(nodeNumber, args)))) else None
  {
    hide ReplaceInOrder, ReplaceAll, Render, Fill, HasBrace, WellFormed, Filled, Independent, IsIteration, Placeholder;
    var all := Effective(nodeNumber, args);
    AnyOrderSubstitutes(ps, nodeNumber, args, order);
    BraceInPiece(Fill(ps, all));
    forall i: nat | i < |ps| ensures HasBrace(Show(Fill(ps, all)[i])) <==> !Filled(ps[i], all) {
      FilledShown(ps, all, i);
    }
  }

  /** Two arguments that are not independent: the order decides whether the request is accepted. */
  lemma OrderMattersForBracedValues()
    ensures var args := map["a" := "{b}", "b" := "x"];
      && Accept(ReplaceInOrder("{a}", args, ["a", "b"])) == Some("x")
      && Accept(ReplaceInOrder("{a}", args, ["b", "a"])) == None
  {
    var args := map["a" := "{b}", "b" := "x"];
    assert Placeholder("a") == "{a}" && Placeholder("b") == "{b}";
    assert ["a", "b"][1..] == ["b"] && ["b", "a"][1..] == ["a"] && ["a"][1..] == [] && ["b"][1..] == [];
    ReplaceWhole("{a}", "{b}");
    ReplaceWhole("{b}", "x");
    assert "{a}"[1..] == "a}" && "a}"[1..] == "}" && "}"[1..] == "";
    assert ReplaceAll("}", "{b}", "x") == "}";
    assert ReplaceAll("a}", "{b}", "x") == "a}";
    assert ReplaceAll("{a}", "{b}", "x") == "{a}";
    assert "{b}"[0] == '{';
  }

  lemma ReplaceWhole(pattern: string, v: string)
    requires pattern != ""
    ensures ReplaceAll(pattern, pattern, v) == v
  {
    assert pattern[|pattern|..] == "" && v + "" == v;
  }
}
