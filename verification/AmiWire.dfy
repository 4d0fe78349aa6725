/** The AMI wire format: blocks of "Key: Value" lines, each ended by an empty line. */
module AmiWire {
  import opened Sequences
  import opened Text

  type Headers = map<string, string>

  // --------------------------------------------------------------- writing

  function HeaderLine(k: string, v: string): string {
    k + ": " + v + "\r"
  }

  /** The lines of a block (without their line feeds) for the headers in the given order. */
  function OrderedLines(h: Headers, order: seq<string>): seq<string>
    requires forall k :: k in order ==> k in h
    decreases order
  {
    if order == [] then []
    else
      assert order[0] in order && forall k :: k in order[1..] ==> k in order;
      [HeaderLine(order[0], h[order[0]])] + OrderedLines(h, order[1..])
  }

  function ActionLines(h: Headers): seq<string> {
    if "Action" in h then [HeaderLine("Action", h["Action"])] else []
  }

  /** Lines with a line feed after each. */
  function Unlines(lines: seq<string>): string {
    if lines == [] then "" else lines[0] + "\n" + Unlines(lines[1..])
  }

  /** The keys of the other headers. */
  function OtherKeys(h: Headers): (r: set<string>)
    ensures forall k :: k in r <==> k in h && k != "Action"
  {
    h.Keys - {"Action"}
  }

  function BlockLines(h: Headers, order: seq<string>): seq<string>
    requires forall k :: k in order ==> k in h
  {
    ActionLines(h) + OrderedLines(h, order) + ["\r"]
  }

  /** writeAction: Action first, then the map in any order. */
  method WriteAction(h: Headers) returns (out: string)
    ensures exists order :: IsIteration(order, OtherKeys(h)) && out == Unlines(BlockLines(h, order))
  {
    out := "";
    if "Action" in h { out := out + "Action: " + h["Action"] + "\r\n"; }
    assert "Action" + ": " == "Action: " && "\r" + "\n" == "\r\n";
    assert out == Unlines(ActionLines(h)) by {
      if "Action" in h { SingleLine(HeaderLine("Action", h["Action"])); }
    }
    ghost var order := [];
    var left := OtherKeys(h);
    while left != {}
      invariant left <= OtherKeys(h) && IsPartial(order, h, left)
      invariant out == Unlines(ActionLines(h) + OrderedLines(h, order))
      decreases left
    {
      var k :| k in left;
      WriteStep(h, order, k, out);
      out := out + (k + ": " + h[k] + "\r\n");
      order := order + [k];
      left := left - {k};
    }
    UnlinesSnoc(ActionLines(h) + OrderedLines(h, order), "\r");
    out := out + "\r\n";
    assert IsIteration(order, OtherKeys(h));
  }

  /** The headers written while some are left. */
  ghost predicate IsPartial(order: seq<string>, h: Headers, left: set<string>) {
    (forall k :: k in order ==> k in h) && IsIteration(order, OtherKeys(h) - left)
  }

  lemma WriteStep(h: Headers, order: seq<string>, k: string, out: string)
    requires k in h && (forall n :: n in order ==> n in h) && out == Unlines(ActionLines(h) + OrderedLines(h, order))
    ensures forall n :: n in order + [k] ==> n in h
    ensures out + (k + ": " + h[k] + "\r\n") == Unlines(ActionLines(h) + OrderedLines(h, order + [k]))
  {
    OrderedSnoc(h, order, k);
    UnlinesSnoc(ActionLines(h) + OrderedLines(h, order), HeaderLine(k, h[k]));
    assert ActionLines(h) + OrderedLines(h, order) + [HeaderLine(k, h[k])] == ActionLines(h) + OrderedLines(h, order + [k]);
    assert k + ": " + h[k] + "\r\n" == HeaderLine(k, h[k]) + "\n";
  }

  /** The headers of an order, each on a line of its own. */
  function Pairs(h: Headers, order: seq<string>): string
    requires forall k :: k in order ==> k in h
    decreases order
  {
    if order == [] then ""
    else
      assert order[0] in order && forall k :: k in order[1..] ==> k in order;
      order[0] + ": " + h[order[0]] + "\r\n" + Pairs(h, order[1..])
  }

  lemma {:induction false} OrderedBytes(h: Headers, order: seq<string>)
    requires forall k :: k in order ==> k in h
    ensures Unlines(OrderedLines(h, order)) == Pairs(h, order)
    decreases order
  {
    if order != [] {
      assert order[0] in order && forall k :: k in order[1..] ==> k in order;
      OrderedBytes(h, order[1..]);
      LineBytes(order[0] + ": " + h[order[0]]);
      assert OrderedLines(h, order)[1..] == OrderedLines(h, order[1..]);
    }
  }

  lemma LineBytes(line: string)
    ensures line + "\r" + "\n" == line + "\r\n"
  {
  }

  /** The bytes of a block: Action first, the other headers in order, each line ended by CR LF, and an empty line. */
  lemma BlockBytes(h: Headers, order: seq<string>)
    requires forall k :: k in order ==> k in h
    ensures Unlines(BlockLines(h, order)) ==
            (if "Action" in h then "Action: " + h["Action"] + "\r\n" else "") + Pairs(h, order) + "\r\n"
  {
    OrderedBytes(h, order);
    UnlinesAppend(ActionLines(h) + OrderedLines(h, order), ["\r"]);
    UnlinesAppend(ActionLines(h), OrderedLines(h, order));
    SingleLine("\r");
    assert "\r" + "\n" == "\r\n";
    if "Action" in h {
      SingleLine(HeaderLine("Action", h["Action"]));
      assert "Action" + ": " == "Action: ";
      LineBytes("Action: " + h["Action"]);
    }
  }

  lemma SingleLine(line: string)
    ensures Unlines([line]) == line + "\n"
  {
    assert [line][1..] == [] && line + "\n" + "" == line + "\n";
  }

  lemma {:induction false} OrderedSnoc(h: Headers, order: seq<string>, k: string)
    requires k in h && forall n :: n in order ==> n in h
    ensures OrderedLines(h, order + [k]) == OrderedLines(h, order) + [HeaderLine(k, h[k])]
    decreases order
  {
    if order == [] {
      assert [] + [k] == [k] && [k][1..] == [];
    } else {
      assert (order + [k])[1..] == order[1..] + [k];
      OrderedSnoc(h, order[1..], k);
    }
  }

  lemma {:induction false} UnlinesSnoc(lines: seq<string>, last: string)
    ensures Unlines(lines + [last]) == Unlines(lines) + (last + "\n")
    decreases lines
  {
    if lines == [] {
      SingleLine(last);
      assert [] + [last] == [last] && "" + (last + "\n") == last + "\n";
    } else {
      assert (lines + [last])[1..] == lines[1..] + [last];
      UnlinesSnoc(lines[1..], last);
      assert lines[0] + "\n" + (Unlines(lines[1..]) + (last + "\n")) == lines[0] + "\n" + Unlines(lines[1..]) + (last + "\n");
    }
  }

  lemma {:induction false} UnlinesAppend(a: seq<string>, b: seq<string>)
    ensures Unlines(a + b) == Unlines(a) + Unlines(b)
    decreases a
  {
    if a == [] {
      assert [] + b == b && "" + Unlines(b) == Unlines(b);
    } else {
      assert (a + b)[1..] == a[1..] + b;
      UnlinesAppend(a[1..], b);
      assert a[0] + "\n" + (Unlines(a[1..]) + Unlines(b)) == a[0] + "\n" + Unlines(a[1..]) + Unlines(b);
    }
  }

  // --------------------------------------------------------------- reading

  /** The block being read, and the blocks read. */
  datatype Reader = Reader(headers: Headers, blocks: seq<Headers>)

  const END_MARK := "--END COMMAND--"

  /** Another line of command output. */
  function AddOutput(h: Headers, v: string): Headers {
    if "Output" in h && h["Output"] != "" then h["Output" := h["Output"] + "\n" + v] else h["Output" := v]
  }

  /** A non-empty line inside a block. */
  function AddLine(h: Headers, line: string): Headers {
    var i := Index(line, ": ");
    if i > 0 then
      assert OccursAt(line, ": ", i);
      if line[..i] == "Output" then AddOutput(h, line[i+2..]) else h[line[..i] := line[i+2..]]
    else if h != map[] && line != END_MARK then AddOutput(h, line)
    else h
  }

  function FeedLine(r: Reader, raw: string): Reader {
    var line := TrimRight(IsBreak, raw);
    if line != "" then r.(headers := AddLine(r.headers, line))
    else if r.headers == map[] then r
    else Reader(map[], r.blocks + [r.headers])
  }

  function Feed(r: Reader, lines: seq<string>): Reader
    decreases lines
  {
    if lines == [] then r else Feed(FeedLine(r, lines[0]), lines[1..])
  }

  /** The complete lines of the input, and what is left after the last line feed. */
  function Complete(input: string): (seq<string>, string)
    decreases |input|
  {
    var i := Index(input, "\n");
    if i < 0 then ([], input)
    else
      assert OccursAt(input, "\n", i);
      var (lines, rest) := Complete(input[i+1..]);
      ([input[..i]] + lines, rest)
  }

  /** The parsing part of readLoop, run until the input ends. */
  method ReadBlocks(input: string) returns (blocks: seq<Headers>, headers: Headers, rest: string)
    ensures var (lines, r) := Complete(input); Reader(headers, blocks) == Feed(Reader(map[], []), lines) && rest == r
  {
    headers, blocks, rest := map[], [], input;
    while true
      invariant var (all, end) := Complete(input); var (lines, r) := Complete(rest);
        Feed(Reader(map[], []), all) == Feed(Reader(headers, blocks), lines) && end == r
      decreases |rest|
    {
      var i := Index(rest, "\n");
      if i < 0 { return; }
      assert OccursAt(rest, "\n", i);
      ghost var lines, tail := Complete(rest).0, Complete(rest[i+1..]).0;
      assert lines == [rest[..i]] + tail && lines[1..] == tail;
      var line := TrimRight(IsBreak, rest[..i]);
      rest := rest[i+1..];
      if line == "" {
        if headers == map[] { continue; }
        blocks := blocks + [headers];
        headers := map[];
        continue;
      }
      headers := AddLine(headers, line);
    }
  }

  // ------------------------------------------------------------ round trip

  /** Keys and values a block can carry. */
  ghost predicate Sendable(k: string, v: string) {
    && k != "" && Index(k, ": ") < 0
    && (forall i :: 0 <= i < |k| ==> !IsBreak(k[i]))
    && (forall i :: 0 <= i < |v| ==> !IsBreak(v[i]))
  }

  lemma HeaderIndex(k: string, v: string)
    requires Index(k, ": ") < 0
    ensures Index(k + ": " + v, ": ") == |k|
  {
    var s := k + ": " + v;
    assert s[|k|..] == ": " + v;
    forall i | 0 <= i < |k| ensures !OccursAt(s, ": ", i) {
      assert s[i..][0] == s[i] == k[i] && s[i..][1] == s[i + 1];
      if i + 1 < |k| {
        assert !OccursAt(k, ": ", i) && k[i..][0] == k[i] && k[i..][1] == k[i + 1] == s[i + 1];
      } else {
        assert s[i + 1] == ':';
      }
    }
    IndexIs(s, ": ", |k|);
  }

  lemma HeaderTrims(k: string, v: string)
    requires Sendable(k, v)
    ensures TrimRight(IsBreak, HeaderLine(k, v)) == k + ": " + v
  {
    var s, line := k + ": " + v, HeaderLine(k, v);
    assert line[..|line|-1] == s;
    assert !IsBreak(s[|s|-1]) by {
      if v != "" { assert s[|s|-1] == v[|v|-1]; }
    }
  }

  /** One written header is read as that header; only Output gathers its lines. */
  lemma HeaderRead(r: Reader, k: string, v: string)
    requires Sendable(k, v) && (k == "Output" ==> k !in r.headers)
    ensures FeedLine(r, HeaderLine(k, v)) == r.(headers := r.headers[k := v])
  {
    HeaderTrims(k, v);
    HeaderIndex(k, v);
    var line := k + ": " + v;
    assert line[..|k|] == k && line[|k|+2..] == v;
  }

  /** The headers an order names. */
  function Upto(h: Headers, order: seq<string>): (r: Headers)
    requires forall k :: k in order ==> k in h
    ensures forall k :: k in r <==> k in order
    ensures forall k :: k in r ==> r[k] == h[k]
  {
    map k | k in order :: h[k]
  }

  lemma UptoCons(h: Headers, order: seq<string>, h0: Headers)
    requires order != [] && (forall k :: k in order ==> k in h) && order[0] !in h0
    ensures forall k :: k in order[1..] ==> k in h
    ensures h0[order[0] := h[order[0]]] + Upto(h, order[1..]) == h0 + Upto(h, order)
  {
    assert forall k :: k in order <==> k == order[0] || k in order[1..];
  }

  lemma {:induction false} OrderedRead(h: Headers, order: seq<string>, r: Reader)
    requires NoRepeats(order) && (forall k :: k in order ==> k in h && k !in r.headers)
    requires forall k :: k in h ==> Sendable(k, h[k])
    ensures Feed(r, OrderedLines(h, order)) == r.(headers := r.headers + Upto(h, order))
    decreases order
  {
    if order == [] {
      assert r.headers + Upto(h, order) == r.headers;
    } else {
      var k := order[0];
      assert k in order;
      NoRepeatsTail(order);
      assert forall n :: n in order[1..] ==> n in order;
      UptoCons(h, order, r.headers);
      HeaderRead(r, k, h[k]);
      hide FeedLine, HeaderLine, Sendable, NoRepeats, Upto;
      var r1 := r.(headers := r.headers[k := h[k]]);
      assert OrderedLines(h, order)[0] == HeaderLine(k, h[k]);
      assert OrderedLines(h, order)[1..] == OrderedLines(h, order[1..]);
      OrderedRead(h, order[1..], r1);
    }
  }

  lemma {:induction false} FeedAppend(r: Reader, a: seq<string>, b: seq<string>)
    ensures Feed(r, a + b) == Feed(Feed(r, a), b)
    decreases a
  {
    if a == [] {
      assert [] + b == b;
    } else {
      assert (a + b)[1..] == a[1..] + b;
      FeedAppend(FeedLine(r, a[0]), a[1..], b);
    }
  }

  function FirstHeaders(h: Headers): Headers {
    if "Action" in h then map["Action" := h["Action"]] else map[]
  }

  lemma ActionRead(h: Headers, blocks: seq<Headers>)
    requires forall k :: k in h ==> Sendable(k, h[k])
    ensures Feed(Reader(map[], blocks), ActionLines(h)) ==
            Reader(FirstHeaders(h), blocks)
  {
    if "Action" in h {
      HeaderRead(Reader(map[], blocks), "Action", h["Action"]);
      assert ActionLines(h)[1..] == [];
      var empty: Headers := map[];
      assert empty["Action" := h["Action"]] == map["Action" := h["Action"]];
    }
  }

  lemma BlankRead(h: Headers, blocks: seq<Headers>)
    requires h != map[]
    ensures Feed(Reader(h, blocks), ["\r"]) == Reader(map[], blocks + [h])
  {
    assert "\r"[..0] == "" && ["\r"][1..] == [];
    assert TrimRight(IsBreak, "\r") == "";
  }

  /** A written block is read back as its headers. */
  lemma BlockRead(h: Headers, order: seq<string>, blocks: seq<Headers>)
    requires h != map[] && IsIteration(order, OtherKeys(h)) && forall k :: k in h ==> Sendable(k, h[k])
    ensures Feed(Reader(map[], blocks), BlockLines(h, order)) == Reader(map[], blocks + [h])
  {
    var start, first := Reader(map[], blocks), FirstHeaders(h);
    ActionRead(h, blocks);
    OrderedRead(h, order, Reader(first, blocks));
    FirstThenRest(h, order);
    BlankRead(h, blocks);
    hide FeedLine, Feed, HeaderLine, Sendable, ActionLines, OrderedLines, IsIteration, OtherKeys, FirstHeaders, Upto;
    FeedAppend(start, ActionLines(h), OrderedLines(h, order));
    FeedAppend(start, ActionLines(h) + OrderedLines(h, order), ["\r"]);
  }

  lemma FirstThenRest(h: Headers, order: seq<string>)
    requires IsIteration(order, OtherKeys(h))
    ensures (forall k :: k in order ==> k in h) && FirstHeaders(h) + Upto(h, order) == h
  {
  }

  lemma CompleteCons(line: string, rest: string)
    requires Lacks(line, '\n')
    ensures Complete(line + "\n" + rest) == ([line] + Complete(rest).0, Complete(rest).1)
  {
    FirstBreak(line, rest);
    var s := line + "\n" + rest;
    assert s[..|line|] == line && s[|line|+1..] == rest;
  }

  lemma UnlinesCons(lines: seq<string>, tail: string)
    requires lines != []
    ensures Unlines(lines) + tail == lines[0] + "\n" + (Unlines(lines[1..]) + tail)
  {
  }

  /** Lines without line feeds are the complete lines of their text, and what follows the last is left over. */
  lemma {:induction false} UnlinesComplete(lines: seq<string>, tail: string)
    requires (forall i :: 0 <= i < |lines| ==> Lacks(lines[i], '\n')) && Lacks(tail, '\n')
    ensures Complete(Unlines(lines) + tail) == (lines, tail)
    decreases lines
  {
    if lines == [] {
      assert "" + tail == tail;
      LacksMarker(tail, "\n");
    } else {
      hide Lacks, Complete, Unlines;
      UnlinesComplete(lines[1..], tail);
      UnlinesCons(lines, tail);
      CompleteCons(lines[0], Unlines(lines[1..]) + tail);
      assert [lines[0]] + lines[1..] == lines;
    }
  }

  lemma {:induction false} OrderedLack(h: Headers, order: seq<string>)
    requires (forall k :: k in order ==> k in h) && forall k :: k in h ==> Sendable(k, h[k])
    ensures forall i :: 0 <= i < |OrderedLines(h, order)| ==> Lacks(OrderedLines(h, order)[i], '\n')
    decreases order
  {
    if order != [] {
      assert order[0] in order;
      assert Sendable(order[0], h[order[0]]);
      OrderedLack(h, order[1..]);
    }
  }

  /** A block as writeAction wrote it: the map, and the order its other headers came in. */
  datatype Written = Written(headers: Headers, order: seq<string>)

  ghost predicate Ordered(w: Written) {
    forall k :: k in w.order ==> k in w.headers
  }

  ghost predicate Legal(w: Written) {
    && Ordered(w) && w.headers != map[] && IsIteration(w.order, OtherKeys(w.headers))
    && forall k :: k in w.headers ==> Sendable(k, w.headers[k])
  }

  ghost function LinesOf(w: Written): seq<string>
    requires Ordered(w)
  {
    BlockLines(w.headers, w.order)
  }

  ghost function AllLines(ws: seq<Written>): seq<string>
    requires forall i :: 0 <= i < |ws| ==> Ordered(ws[i])
  {
    if ws == [] then [] else LinesOf(ws[0]) + AllLines(ws[1..])
  }

  /** The bytes of the blocks, one written after the other. */
  ghost function Sent(ws: seq<Written>): string
    requires forall i :: 0 <= i < |ws| ==> Ordered(ws[i])
  {
    if ws == [] then "" else Unlines(LinesOf(ws[0])) + Sent(ws[1..])
  }

  lemma {:induction false} SentIsLines(ws: seq<Written>)
    requires forall i :: 0 <= i < |ws| ==> Ordered(ws[i])
    ensures Sent(ws) == Unlines(AllLines(ws))
    decreases ws
  {
    if ws != [] {
      SentIsLines(ws[1..]);
      UnlinesAppend(LinesOf(ws[0]), AllLines(ws[1..]));
    }
  }

  lemma BlockLack(w: Written)
    requires Legal(w)
    ensures forall i :: 0 <= i < |LinesOf(w)| ==> Lacks(LinesOf(w)[i], '\n')
  {
    OrderedLack(w.headers, w.order);
    if "Action" in w.headers { assert Sendable("Action", w.headers["Action"]); }
  }

  lemma {:induction false} LinesLack(ws: seq<Written>)
    requires forall i :: 0 <= i < |ws| ==> Legal(ws[i]) && Ordered(ws[i])
    ensures forall i :: 0 <= i < |AllLines(ws)| ==> Lacks(AllLines(ws)[i], '\n')
    decreases ws
  {
    if ws != [] {
      assert Legal(ws[0]);
      BlockLack(ws[0]);
      hide Legal, LinesOf, Lacks;
      LinesLack(ws[1..]);
    }
  }

  function HeadersOf(ws: seq<Written>): (r: seq<Headers>)
    ensures |r| == |ws| && forall i :: 0 <= i < |ws| ==> r[i] == ws[i].headers
  {
    seq(|ws|, i requires 0 <= i < |ws| => ws[i].headers)
  }

  lemma HeadersCons(ws: seq<Written>, blocks: seq<Headers>)
    requires ws != []
    ensures blocks + [ws[0].headers] + HeadersOf(ws[1..]) == blocks + HeadersOf(ws)
  {
  }

  lemma {:induction false} AllRead(ws: seq<Written>, blocks: seq<Headers>)
    requires forall i :: 0 <= i < |ws| ==> Legal(ws[i]) && Ordered(ws[i])
    ensures Feed(Reader(map[], blocks), AllLines(ws)) == Reader(map[], blocks + HeadersOf(ws))
    decreases ws
  {
    if ws == [] {
      assert blocks + HeadersOf(ws) == blocks;
    } else {
      var h := ws[0].headers;
      assert Legal(ws[0]);
      BlockRead(h, ws[0].order, blocks);
      assert LinesOf(ws[0]) == BlockLines(h, ws[0].order);
      hide Legal, Feed, FeedLine, HeadersOf, LinesOf;
      FeedAppend(Reader(map[], blocks), LinesOf(ws[0]), AllLines(ws[1..]));
      AllRead(ws[1..], blocks + [h]);
      HeadersCons(ws, blocks);
    }
  }

  /**
   Framing round trip: reading the bytes of any sequence of written blocks gives exactly
   those blocks, in order, whatever order each map was written in, and leaves no input
   and no half-read block.
   */
  lemma FramingRoundTrip(ws: seq<Written>)
    requires forall i :: 0 <= i < |ws| ==> Legal(ws[i]) && Ordered(ws[i])
    ensures var (lines, rest) := Complete(Sent(ws));
      rest == "" && Feed(Reader(map[], []), lines) == Reader(map[], HeadersOf(ws))
  {
    SentIsLines(ws);
    LinesLack(ws);
    hide Legal, Feed, Complete, Sent, AllLines, Ordered;
    UnlinesComplete(AllLines(ws), "");
    assert Unlines(AllLines(ws)) + "" == Unlines(AllLines(ws));
    AllRead(ws, []);
    assert [] + HeadersOf(ws) == HeadersOf(ws);
  }
}
