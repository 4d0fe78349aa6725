/** The text operations of the Go library the program relies on, on ASCII strings. */
module Text {

  // ------------------------------------------------------------- searching

  /** `sub` occurs in `s` at `i`. */
  predicate OccursAt(s: string, sub: string, i: nat) {
    i <= |s| && sub <= s[i..]
  }

  /** strings.Index: the first occurrence, or -1. */
  function Index(s: string, sub: string): (r: int)
    ensures -1 <= r <= |s|
    ensures r >= 0 ==> OccursAt(s, sub, r)
    ensures forall i :: 0 <= i <= |s| && (r < 0 || i < r) ==> !OccursAt(s, sub, i)
  {
    if sub <= s then assert s[0..] == s; 0
    else if s == "" then -1
    else
      var r := Index(s[1..], sub);
      assert forall i :: 0 < i <= |s| ==> s[i..] == s[1..][i-1..];
      assert forall i :: 0 < i <= |s| ==> (OccursAt(s, sub, i) <==> OccursAt(s[1..], sub, i - 1));
      assert s[0..] == s;
      if r < 0 then -1 else r + 1
  }

  /** The first occurrence is what Index finds. */
  lemma IndexIs(s: string, sub: string, r: nat)
    requires OccursAt(s, sub, r) && forall i :: 0 <= i < r ==> !OccursAt(s, sub, i)
    ensures Index(s, sub) == r
  {
    var x := Index(s, sub);
  }

  predicate Lacks(s: string, c: char) {
    forall i :: 0 <= i < |s| ==> s[i] != c
  }

  /** Text without a character has no marker that begins with it. */
  lemma LacksMarker(s: string, marker: string)
    requires marker != "" && Lacks(s, marker[0])
    ensures Index(s, marker) < 0
  {
    forall i | 0 <= i <= |s| ensures !OccursAt(s, marker, i) {
      if i < |s| { assert s[i..][0] == s[i]; }
    }
  }

  // -------------------------------------------------------------- trimming

  predicate IsSpace(c: char) {
    c == ' ' || ('\t' <= c <= '\r')
  }

  predicate IsQuote(c: char) { c == '"' }

  predicate IsBreak(c: char) { c == '\r' || c == '\n' }

  function TrimLeft(cut: char -> bool, s: string): string {
    if s != "" && cut(s[0]) then TrimLeft(cut, s[1..]) else s
  }

  function TrimRight(cut: char -> bool, s: string): string {
    if s != "" && cut(s[|s|-1]) then TrimRight(cut, s[..|s|-1]) else s
  }

  function Trim(cut: char -> bool, s: string): string {
    TrimRight(cut, TrimLeft(cut, s))
  }

  function TrimSpace(s: string): string {
    Trim(IsSpace, s)
  }

  /** Trimming text that starts with a kept character keeps that character in front. */
  lemma {:induction false} TrimRightHead(cut: char -> bool, s: string)
    requires s != "" && !cut(s[0])
    ensures TrimRight(cut, s) != "" && TrimRight(cut, s)[0] == s[0]
    decreases s
  {
    if cut(s[|s|-1]) {
      assert |s| > 1;
      TrimRightHead(cut, s[..|s|-1]);
    }
  }

  lemma {:induction false} TrimLeftBlank(cut: char -> bool, a: string, s: string)
    requires (forall i :: 0 <= i < |a| ==> cut(a[i])) && (s != "" ==> !cut(s[0]))
    ensures TrimLeft(cut, a + s) == s
    decreases a
  {
    if a == "" {
      assert a + s == s;
    } else {
      assert (a + s)[1..] == a[1..] + s;
      TrimLeftBlank(cut, a[1..], s);
    }
  }

  lemma {:induction false} TrimRightBlank(cut: char -> bool, s: string, b: string)
    requires (forall i :: 0 <= i < |b| ==> cut(b[i])) && (s != "" ==> !cut(s[|s|-1]))
    ensures TrimRight(cut, s + b) == s
    decreases b
  {
    if b == "" {
      assert s + b == s;
    } else {
      assert (s + b)[..|s + b|-1] == s + b[..|b|-1];
      TrimRightBlank(cut, s, b[..|b|-1]);
    }
  }

  /** Trimming takes away what is to be cut at both ends, and no more. */
  lemma TrimBoth(cut: char -> bool, a: string, s: string, b: string)
    requires forall i :: 0 <= i < |a| ==> cut(a[i])
    requires forall i :: 0 <= i < |b| ==> cut(b[i])
    requires s != "" ==> !cut(s[0]) && !cut(s[|s|-1])
    ensures Trim(cut, a + s + b) == s
  {
    assert a + s + b == a + (s + b);
    if s == "" {
      var all := a + b;
      assert a + s + b == all + "";
      TrimLeftBlank(cut, all, "");
    } else {
      TrimLeftBlank(cut, a, s + b);
      TrimRightBlank(cut, s, b);
    }
  }

  lemma {:induction false} LeftSplits(cut: char -> bool, s: string) returns (a: string)
    ensures s == a + TrimLeft(cut, s) && forall i :: 0 <= i < |a| ==> cut(a[i])
    ensures TrimLeft(cut, s) != "" ==> !cut(TrimLeft(cut, s)[0])
    decreases s
  {
    a := "";
    if s != "" && cut(s[0]) {
      var rest := LeftSplits(cut, s[1..]);
      a := [s[0]] + rest;
    }
  }

  lemma {:induction false} RightSplits(cut: char -> bool, s: string) returns (b: string)
    ensures s == TrimRight(cut, s) + b && forall i :: 0 <= i < |b| ==> cut(b[i])
    ensures TrimRight(cut, s) != "" ==> !cut(TrimRight(cut, s)[|TrimRight(cut, s)|-1])
    ensures TrimRight(cut, s) <= s
    decreases s
  {
    b := "";
    if s != "" && cut(s[|s|-1]) {
      var rest := RightSplits(cut, s[..|s|-1]);
      b := rest + [s[|s|-1]];
    }
  }

  lemma TrimKeepsEnds(cut: char -> bool, s: string)
    requires s != "" && !cut(s[0]) && !cut(s[|s|-1])
    ensures Trim(cut, s) == s
  {
  }

  // ------------------------------------------------------------- splitting

  /** The lines of a text: what bufio's line scanner yields, but for a final '\r' of each. */
  function Lines(s: string): seq<string> {
    if s == "" then []
    else
      var i := Index(s, "\n");
      if i < 0 then [s]
      else
        assert OccursAt(s, "\n", i);
        [s[..i]] + Lines(s[i+1..])
  }

  lemma FirstBreak(a: string, rest: string)
    requires Lacks(a, '\n')
    ensures Index(a + "\n" + rest, "\n") == |a|
  {
    var s := a + "\n" + rest;
    assert s[|a|..] == "\n" + rest;
    forall i | 0 <= i < |a| ensures !OccursAt(s, "\n", i) {
      assert s[i..][0] == a[i];
    }
    IndexIs(s, "\n", |a|);
  }

  lemma LinesCons(a: string, rest: string)
    requires Lacks(a, '\n')
    ensures Lines(a + "\n" + rest) == [a] + Lines(rest)
  {
    FirstBreak(a, rest);
    var s := a + "\n" + rest;
    assert s[..|a|] == a && s[|a|+1..] == rest;
  }

  /** How many characters the first word of a text has. */
  function WordLength(s: string): (n: nat)
    ensures n <= |s|
    ensures forall i :: 0 <= i < n ==> !IsSpace(s[i])
    ensures n < |s| ==> IsSpace(s[n])
  {
    if s == "" || IsSpace(s[0]) then 0 else 1 + WordLength(s[1..])
  }

  /** strings.Fields. */
  function Fields(s: string): seq<string>
    decreases |s|
  {
    if s == "" then []
    else if IsSpace(s[0]) then Fields(s[1..])
    else
      var n := WordLength(s);
      [s[..n]] + Fields(s[n..])
  }

  predicate IsWord(s: string) {
    s != "" && forall i :: 0 <= i < |s| ==> !IsSpace(s[i])
  }

  lemma WordLengthIs(s: string, n: nat)
    requires n <= |s| && (forall i :: 0 <= i < n ==> !IsSpace(s[i])) && (n < |s| ==> IsSpace(s[n]))
    ensures WordLength(s) == n
  {
    var m := WordLength(s);
  }

  /** A word after a space is the last field. */
  lemma {:induction false} FieldsSnoc(s: string, word: string)
    requires IsWord(word)
    ensures Fields(s + " " + word) == Fields(s) + [word]
    decreases |s|
  {
    var all := s + " " + word;
    if s == "" {
      assert all == " " + word && all[1..] == word;
      WordLengthIs(word, |word|);
      assert word[..|word|] == word && word[|word|..] == "";
      assert Fields(word) == [word] + Fields("");
    } else if IsSpace(s[0]) {
      assert all[1..] == s[1..] + " " + word;
      FieldsSnoc(s[1..], word);
    } else {
      var n := WordLength(s);
      assert all[0] == s[0];
      assert n < |s| ==> all[n] == s[n];
      assert n == |s| ==> all[n] == ' ';
      assert forall i :: 0 <= i < n ==> all[i] == s[i];
      WordLengthIs(all, n);
      assert all[..n] == s[..n] && all[n..] == s[n..] + " " + word;
      FieldsSnoc(s[n..], word);
      assert Fields(all) == [s[..n]] + (Fields(s[n..]) + [word]);
    }
  }

  /** strings.Split on one character. */
  function Split(s: string, c: char): (r: seq<string>)
    ensures r != []
    decreases |s|
  {
    var i := Index(s, [c]);
    if i < 0 then [s]
    else
      assert OccursAt(s, [c], i);
      [s[..i]] + Split(s[i+1..], c)
  }

  lemma SplitCons(a: string, c: char, rest: string)
    requires Lacks(a, c)
    ensures Split(a + [c] + rest, c) == [a] + Split(rest, c)
  {
    var s := a + [c] + rest;
    assert s[|a|..] == [c] + rest;
    forall i | 0 <= i < |a| ensures !OccursAt(s, [c], i) {
      assert s[i..][0] == a[i];
    }
    IndexIs(s, [c], |a|);
    assert s[..|a|] == a && s[|a|+1..] == rest;
  }

  lemma SplitNone(a: string, c: char)
    requires Lacks(a, c)
    ensures Split(a, c) == [a]
  {
    assert forall i :: 0 <= i < |a| ==> a[i..][0] == a[i];
  }

  /** strings.Join with a line break. */
  function JoinLines(lines: seq<string>): string {
    if lines == [] then ""
    else if |lines| == 1 then lines[0]
    else lines[0] + "\n" + JoinLines(lines[1..])
  }

  lemma {:induction false} JoinSnoc(lines: seq<string>, last: string)
    requires lines != []
    ensures JoinLines(lines + [last]) == JoinLines(lines) + "\n" + last
  {
    assert (lines + [last])[1..] == lines[1..] + [last];
    if |lines| > 1 {
      JoinSnoc(lines[1..], last);
    } else {
      assert lines[1..] + [last] == [last];
    }
  }
}
