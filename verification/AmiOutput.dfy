/** Command output comes in two encodings: one Output header a line, or raw lines inside the block. */
module AmiOutput {
  import opened Text
  import opened AmiWire

  /** A line either encoding can carry. */
  ghost predicate Printable(l: string) {
    l != "" && forall i :: 0 <= i < |l| ==> !IsBreak(l[i])
  }

  /** A line the reader takes for output when it comes raw: no header, not the end marker. */
  predicate RawSafe(l: string) {
    Index(l, ": ") <= 0 && l != "--END COMMAND--"
  }

  function AsHeaders(ls: seq<string>): (r: seq<string>)
    ensures |r| == |ls| && forall i :: 0 <= i < |ls| ==> r[i] == HeaderLine("Output", ls[i])
  {
    seq(|ls|, i requires 0 <= i < |ls| => HeaderLine("Output", ls[i]))
  }

  function AsRaw(ls: seq<string>): (r: seq<string>)
    ensures |r| == |ls| && forall i :: 0 <= i < |ls| ==> r[i] == ls[i] + "\r"
  {
    seq(|ls|, i requires 0 <= i < |ls| => ls[i] + "\r")
  }

  /** A line an Output header can carry. */
  ghost predicate Unbroken(l: string) {
    forall i :: 0 <= i < |l| ==> !IsBreak(l[i])
  }

  lemma OutputSendable(l: string)
    requires Unbroken(l)
    ensures Sendable("Output", l)
  {
    hide Index;
    LacksMarker("Output", ": ");
  }

  lemma OutputHeaderRead(r: Reader, l: string)
    requires Unbroken(l)
    ensures FeedLine(r, HeaderLine("Output", l)) == r.(headers := AddOutput(r.headers, l))
  {
    var k := "Output";
    OutputSendable(l);
    HeaderTrims(k, l);
    HeaderIndex(k, l);
    var line := k + ": " + l;
    assert line[..6] == k && line[8..] == l;
  }

  lemma RawLineRead(r: Reader, l: string)
    requires Printable(l)
    ensures FeedLine(r, l + "\r") == r.(headers := AddLine(r.headers, l))
  {
    var raw := l + "\r";
    assert raw[..|raw|-1] == l && !IsBreak(l[|l|-1]);
    assert TrimRight(IsBreak, raw) == TrimRight(IsBreak, l) == l;
  }

  /** Output characters gathered so far. */
  function Weight(h: Headers): nat {
    if "Output" in h && h["Output"] != "" then |h["Output"]| + 1 else 0
  }

  /** A raw line that is no output gathers less than the same line in a header. */
  lemma LineWeights(h: Headers, l: string)
    requires Printable(l) && h != map[]
    ensures Weight(AddOutput(h, l)) == Weight(h) + |l| + 1 && AddOutput(h, l) != map[]
    ensures AddLine(h, l) != map[]
    ensures if RawSafe(l) then AddLine(h, l) == AddOutput(h, l)
            else Weight(AddLine(h, l)) < Weight(h) + |l| + 1
  {
    assert "Output" in AddOutput(h, l);
    var i := Index(l, ": ");
    if i > 0 {
      assert OccursAt(l, ": ", i);
      assert l[..i] in AddLine(h, l);
    }
  }

  function Length(ls: seq<string>): nat {
    if ls == [] then 0 else |ls[0]| + 1 + Length(ls[1..])
  }

  lemma {:induction false} HeadersGather(r: Reader, ls: seq<string>)
    requires r.headers != map[] && forall i :: 0 <= i < |ls| ==> Printable(ls[i])
    ensures Weight(Feed(r, AsHeaders(ls)).headers) == Weight(r.headers) + Length(ls)
    decreases ls
  {
    if ls != [] {
      OutputHeaderRead(r, ls[0]);
      LineWeights(r.headers, ls[0]);
      assert AsHeaders(ls)[1..] == AsHeaders(ls[1..]);
      hide FeedLine, HeaderLine, AddOutput, Printable;
      HeadersGather(r.(headers := AddOutput(r.headers, ls[0])), ls[1..]);
    }
  }

  lemma {:induction false} RawGathers(r: Reader, ls: seq<string>)
    requires r.headers != map[] && forall i :: 0 <= i < |ls| ==> Printable(ls[i])
    ensures Weight(Feed(r, AsRaw(ls)).headers) <= Weight(r.headers) + Length(ls)
    ensures (exists i :: 0 <= i < |ls| && !RawSafe(ls[i])) ==>
            Weight(Feed(r, AsRaw(ls)).headers) < Weight(r.headers) + Length(ls)
    decreases ls
  {
    if ls != [] {
      RawLineRead(r, ls[0]);
      LineWeights(r.headers, ls[0]);
      assert AsRaw(ls)[1..] == AsRaw(ls[1..]);
      hide FeedLine, AddLine, AddOutput, Printable, RawSafe;
      RawGathers(r.(headers := AddLine(r.headers, ls[0])), ls[1..]);
      if i :| 0 <= i < |ls| && !RawSafe(ls[i]) { if i > 0 { assert !RawSafe(ls[1..][i - 1]); } }
    }
  }

  lemma {:induction false} SafeLinesAgree(r: Reader, ls: seq<string>)
    requires r.headers != map[] && forall i :: 0 <= i < |ls| ==> Printable(ls[i]) && RawSafe(ls[i])
    ensures Feed(r, AsHeaders(ls)) == Feed(r, AsRaw(ls))
    decreases ls
  {
    if ls != [] {
      OutputHeaderRead(r, ls[0]);
      RawLineRead(r, ls[0]);
      LineWeights(r.headers, ls[0]);
      assert AsHeaders(ls)[1..] == AsHeaders(ls[1..]) && AsRaw(ls)[1..] == AsRaw(ls[1..]);
      hide FeedLine, HeaderLine, AddLine, AddOutput, Printable, RawSafe;
      SafeLinesAgree(r.(headers := AddOutput(r.headers, ls[0])), ls[1..]);
    }
  }

  /** The encodings give the same block exactly when no line looks like a header or is the end marker. */
  lemma EncodingsAgree(r: Reader, ls: seq<string>)
    requires r.headers != map[] && forall i :: 0 <= i < |ls| ==> Printable(ls[i])
    ensures Feed(r, AsHeaders(ls)) == Feed(r, AsRaw(ls)) <==> forall i :: 0 <= i < |ls| ==> RawSafe(ls[i])
  {
    HeadersGather(r, ls);
    RawGathers(r, ls);
    hide Feed, Printable, RawSafe;
    if forall i :: 0 <= i < |ls| ==> RawSafe(ls[i]) { SafeLinesAgree(r, ls); }
  }

  /** Either way the block's Output is the lines joined by line feeds, empty ones before the first dropped. */
  lemma {:induction false} OutputJoins(r: Reader, ls: seq<string>, prev: seq<string>)
    requires forall i :: 0 <= i < |ls| ==> Unbroken(ls[i])
    requires if prev == [] then "Output" in r.headers ==> r.headers["Output"] == ""
             else "Output" in r.headers && r.headers["Output"] == JoinLines(prev)
    requires prev + ls != [] && (prev + ls)[0] != ""
    ensures Feed(r, AsHeaders(ls)) == r.(headers := r.headers["Output" := JoinLines(prev + ls)])
    decreases ls
  {
    if ls == [] {
      assert prev + ls == prev;
      assert r.headers["Output" := r.headers["Output"]] == r.headers;
    } else {
      OutputHeaderRead(r, ls[0]);
      var r1 := r.(headers := AddOutput(r.headers, ls[0]));
      if prev == [] {
        assert prev + [ls[0]] == [ls[0]];
      } else {
        JoinSnoc(prev, ls[0]);
        assert prev[0] == (prev + ls)[0];
      }
      assert prev + [ls[0]] + ls[1..] == prev + ls;
      assert AsHeaders(ls)[1..] == AsHeaders(ls[1..]);
      OutputJoins(r1, ls[1..], prev + [ls[0]]);
      assert r.headers["Output" := r1.headers["Output"]] == r1.headers;
    }
  }

  /** An empty Output line before any other leaves an empty Output. */
  lemma EmptyOutputRead(r: Reader)
    requires "Output" in r.headers ==> r.headers["Output"] == ""
    ensures FeedLine(r, "Output: \r") == r.(headers := r.headers["Output" := ""])
  {
    OutputHeaderRead(r, "");
    assert HeaderLine("Output", "") == "Output: \r";
  }

  // ---------------------------------------------------------- lines ignored

  /** Between blocks an empty line means nothing, nor does one that is no header. */
  lemma NoiseIgnored(blocks: seq<Headers>, l: string)
    requires l == "" || (Printable(l) && Index(l, ": ") <= 0)
    ensures FeedLine(Reader(map[], blocks), l + "\r") == Reader(map[], blocks)
  {
    if l == "" {
      assert "" + "\r" == "\r" && "\r"[..0] == "";
      assert TrimRight(IsBreak, "\r") == "";
    } else {
      RawLineRead(Reader(map[], blocks), l);
    }
  }

  /** The end marker means nothing anywhere. */
  lemma EndMarkIgnored(r: Reader)
    ensures FeedLine(r, "--END COMMAND--\r") == r
  {
    hide TrimRight, FeedLine, Index;
    EndMarkPlain();
    RawLineRead(r, END_MARK);
    assert END_MARK + "\r" == "--END COMMAND--\r";
  }

  lemma EndMarkPlain()
    ensures END_MARK == "--END COMMAND--" && Printable(END_MARK) && Index(END_MARK, ": ") < 0
  {
    hide Index;
    LacksMarker(END_MARK, ": ");
  }
}
