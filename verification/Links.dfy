/** Decoding the RPT_ALINKS variable out of command output. */
module Links {
  import opened Wrappers
  import opened Text
  import opened AmiWire
  import opened AmiOutput

  /** One connected node; `connectedAt` 0 is the zero time. */
  datatype LinkState = LinkState(kind: char, keyed: bool, connectedAt: nat)

  type LinkMap = map<string, LinkState>

  const MARKER := "RPT_ALINKS="

  /** The first line break at or after the start, or the end. */
  function LineLength(s: string): (n: nat)
    ensures n <= |s|
    ensures forall i :: 0 <= i < n ==> !IsBreak(s[i])
    ensures n < |s| ==> IsBreak(s[n])
  {
    if s == "" || IsBreak(s[0]) then 0 else 1 + LineLength(s[1..])
  }

  /** One comma-separated part: identifier, type character, keyed state. */
  function AddPart(m: LinkMap, part: string): LinkMap {
    var p := TrimSpace(part);
    if |p| < 3 then m
    else m[p[..|p|-2] := LinkState(p[|p|-2], p[|p|-1] == 'K', 0)]
  }

  function AddParts(m: LinkMap, parts: seq<string>): LinkMap
    decreases parts
  {
    if parts == [] then m else AddParts(AddPart(m, parts[0]), parts[1..])
  }

  function ParseLinks(output: string): Option<LinkMap> {
    var i := Index(output, MARKER);
    if i < 0 then None
    else
      assert OccursAt(output, MARKER, i);
      var val := output[i+|MARKER|..];
      var parts := Split(TrimSpace(val[..LineLength(val)]), ',');
      if |parts| < 2 then None else Some(AddParts(map[], parts[1..]))
  }

  method ParseRPTALinks(output: string) returns (r: Option<LinkMap>)
    ensures r == ParseLinks(output)
  {
    var i := Index(output, MARKER);
    if i < 0 { return None; }
    assert OccursAt(output, MARKER, i);
    var val := output[i+|MARKER|..];
    val := TrimSpace(val[..LineLength(val)]);
    var parts := Split(val, ',');
    if |parts| < 2 { return None; }
    var result: LinkMap := map[];
    for j := 1 to |parts|
      invariant AddParts(map[], parts[1..]) == AddParts(result, parts[j..])
    {
      assert parts[j..][1..] == parts[j+1..];
      var p := TrimSpace(parts[j]);
      if |p| < 3 { continue; }
      result := result[p[..|p|-2] := LinkState(p[|p|-2], p[|p|-1] == 'K', 0)];
    }
    r := Some(result);
  }

  // -------------------------------------------------------------- encoding

  /** A part of the list, with white space around it: a link, or too little to be one. */
  datatype Link =
    | Link(lead: string, ident: string, kind: char, state: char, trail: string)
    | Scrap(lead: string, text: string, trail: string)

  function EncodeLink(l: Link): string {
    match l
    case Link(lead, ident, kind, state, trail) => lead + (ident + [kind] + [state]) + trail
    case Scrap(lead, text, trail) => lead + text + trail
  }

  function EncodeRest(links: seq<Link>): string {
    if links == [] then "" else "," + EncodeLink(links[0]) + EncodeRest(links[1..])
  }

  function EncodeLinks(count: string, links: seq<Link>): string {
    count + EncodeRest(links)
  }

  predicate IsPadding(s: string) {
    forall i :: 0 <= i < |s| ==> s[i] == ' ' || 9 <= s[i] as int <= 13
  }

  /** A part that a list can carry: no comma, no break, white space where it belongs. */
  ghost predicate Encodable(l: Link) {
    && IsPadding(l.lead) && IsPadding(l.trail)
    && (forall i :: 0 <= i < |EncodeLink(l)| ==> EncodeLink(l)[i] != ',' && !IsBreak(EncodeLink(l)[i]))
    && match l
       case Link(_, ident, _, state, _) => ident != "" && !IsSpace(ident[0]) && !IsSpace(state)
       case Scrap(_, text, _) => |text| < 3 && (text != "" ==> !IsSpace(text[0]) && !IsSpace(text[|text|-1]))
  }

  /** What a list can end in. */
  ghost predicate Closes(l: Link) {
    EncodeLink(l) != "" ==> !IsSpace(EncodeLink(l)[|EncodeLink(l)|-1])
  }

  ghost predicate EncodableList(links: seq<Link>) {
    && links != [] && (forall i :: 0 <= i < |links| ==> Encodable(links[i])) && Closes(links[|links|-1])
  }

  ghost predicate IsCount(count: string) {
    IsWord(count) && Lacks(count, ',')
  }

  function Encoded(links: seq<Link>): (r: seq<string>)
    ensures |r| == |links| && forall i :: 0 <= i < |links| ==> r[i] == EncodeLink(links[i])
  {
    seq(|links|, i requires 0 <= i < |links| => EncodeLink(links[i]))
  }

  lemma EncodedLacksComma(l: Link)
    requires Encodable(l)
    ensures Lacks(EncodeLink(l), ',')
  {
  }

  lemma CommaFirst(first: string, e: string, rest: string)
    ensures first + ("," + e + rest) == first + [','] + (e + rest)
  {
  }

  lemma EncodedCons(first: string, links: seq<Link>)
    requires links != []
    ensures [first] + ([EncodeLink(links[0])] + Encoded(links[1..])) == [first] + Encoded(links)
  {
    hide EncodeLink;
  }

  lemma {:induction false} SplitEncoded(first: string, links: seq<Link>)
    requires Lacks(first, ',') && forall i :: 0 <= i < |links| ==> Encodable(links[i])
    ensures Split(first + EncodeRest(links), ',') == [first] + Encoded(links)
    decreases links
  {
    if links == [] {
      assert first + "" == first && [first] + Encoded([]) == [first];
      SplitNone(first, ',');
    } else {
      var e, rest := EncodeLink(links[0]), EncodeRest(links[1..]);
      EncodedLacksComma(links[0]);
      assert EncodeRest(links) == "," + e + rest;
      CommaFirst(first, e, rest);
      EncodedCons(first, links);
      hide Encodable, Lacks, EncodeLink, EncodeRest, Encoded, Split;
      SplitCons(first, ',', e + rest);
      SplitEncoded(e, links[1..]);
    }
  }

  function LinkStateOf(l: Link): LinkState
    requires l.Link?
  {
    LinkState(l.kind, l.state == 'K', 0)
  }

  /** A link sets its identifier's state, and a scrap nothing. */
  function WithLink(m: LinkMap, l: Link): LinkMap {
    if l.Link? then m[l.ident := LinkStateOf(l)] else m
  }

  lemma PartDecodes(m: LinkMap, l: Link)
    requires Encodable(l)
    ensures AddPart(m, EncodeLink(l)) == WithLink(m, l)
  {
    hide TrimLeft, TrimRight;
    var p := if l.Link? then l.ident + [l.kind] + [l.state] else l.text;
    TrimBoth(IsSpace, l.lead, p, l.trail);
    if l.Link? { assert p[..|p|-2] == l.ident; }
  }

  /** The map a list stands for: the last link of an identifier counts. */
  function Decoded(m: LinkMap, links: seq<Link>): LinkMap
    decreases links
  {
    if links == [] then m else Decoded(WithLink(m, links[0]), links[1..])
  }

  lemma {:induction false} PartsDecode(m: LinkMap, links: seq<Link>)
    requires forall i :: 0 <= i < |links| ==> Encodable(links[i])
    ensures AddParts(m, Encoded(links)) == Decoded(m, links)
    decreases links
  {
    if links != [] {
      PartDecodes(m, links[0]);
      assert Encoded(links)[1..] == Encoded(links[1..]);
      PartsDecode(WithLink(m, links[0]), links[1..]);
    }
  }

  ghost predicate DistinctIdents(links: seq<Link>) {
    forall i, j :: 0 <= i < j < |links| && links[i].Link? && links[j].Link? ==> links[i].ident != links[j].ident
  }

  /** The list has a link of this identifier. */
  ghost predicate Names(links: seq<Link>, ident: string) {
    exists i :: 0 <= i < |links| && links[i].Link? && links[i].ident == ident
  }

  lemma NamesTail(links: seq<Link>, ident: string)
    requires links != []
    ensures Names(links, ident) <==> (links[0].Link? && links[0].ident == ident) || Names(links[1..], ident)
  {
    if i :| 0 <= i < |links| && links[i].Link? && links[i].ident == ident {
      if i > 0 { assert links[1..][i - 1].ident == ident; }
    }
    if i :| 0 <= i < |links[1..]| && links[1..][i].Link? && links[1..][i].ident == ident {
      assert links[i + 1].ident == ident;
    }
  }

  /** Distinct links are decoded to exactly themselves. */
  lemma {:induction false} DecodedExactly(m: LinkMap, links: seq<Link>)
    requires DistinctIdents(links) && forall i :: 0 <= i < |links| && links[i].Link? ==> links[i].ident !in m
    ensures forall k :: k in Decoded(m, links) <==> k in m || Names(links, k)
    ensures forall i :: 0 <= i < |links| && links[i].Link? ==>
              links[i].ident in Decoded(m, links) && Decoded(m, links)[links[i].ident] == LinkStateOf(links[i])
    ensures forall k :: k in m ==> Decoded(m, links)[k] == m[k]
    decreases links
  {
    if links != [] {
      var m1 := WithLink(m, links[0]);
      assert forall i :: 0 <= i < |links[1..]| ==> links[1..][i] == links[i + 1];
      DecodedExactly(m1, links[1..]);
      var r := Decoded(m1, links[1..]);
      forall k ensures k in r <==> k in m || Names(links, k) { NamesTail(links, k); }
      forall i | 0 <= i < |links| && links[i].Link?
        ensures links[i].ident in r && r[links[i].ident] == LinkStateOf(links[i])
      {
        if i > 0 { assert links[1..][i - 1] == links[i]; }
      }
    }
  }

  lemma LineLengthIs(s: string, n: nat)
    requires n <= |s| && (forall i :: 0 <= i < n ==> !IsBreak(s[i])) && (n < |s| ==> IsBreak(s[n]))
    ensures LineLength(s) == n
  {
    var m := LineLength(s);
  }

  lemma {:induction false} EncodedHasNoBreak(links: seq<Link>)
    requires forall i :: 0 <= i < |links| ==> Encodable(links[i])
    ensures forall i :: 0 <= i < |EncodeRest(links)| ==> !IsBreak(EncodeRest(links)[i])
    ensures links != [] && Closes(links[|links|-1]) ==>
              EncodeRest(links) != "" && !IsSpace(EncodeRest(links)[|EncodeRest(links)|-1])
    decreases links
  {
    hide Encodable, EncodeLink;
    if links != [] {
      PartUnbroken(links[0]);
      EncodedHasNoBreak(links[1..]);
      var e, rest := EncodeLink(links[0]), EncodeRest(links[1..]);
      assert EncodeRest(links) == "," + (e + rest);
      if |links| == 1 { assert e + rest == e; }
    }
  }

  lemma PartUnbroken(l: Link)
    requires Encodable(l)
    ensures forall i :: 0 <= i < |EncodeLink(l)| ==> !IsBreak(EncodeLink(l)[i])
  {
  }

  /** A first occurrence stays the first one when text is added behind it. */
  lemma IndexBefore(before: string, marker: string, rest: string)
    requires Index(before + marker, marker) == |before|
    ensures Index(before + marker + rest, marker) == |before|
  {
    var s, t := before + marker, before + marker + rest;
    assert t[|before|..] == marker + rest;
    forall i | 0 <= i < |before| ensures !OccursAt(t, marker, i) {
      assert !OccursAt(s, marker, i);
      assert t[i..][..|s|-i] == s[i..];
    }
    IndexIs(t, marker, |before|);
  }

  lemma EncodedTrimmed(count: string, links: seq<Link>)
    requires IsCount(count) && EncodableList(links)
    ensures TrimSpace(EncodeLinks(count, links)) == EncodeLinks(count, links)
  {
    hide EncodeRest, Encodable, TrimLeft, TrimRight, Lacks, Closes;
    var val, rest := EncodeLinks(count, links), EncodeRest(links);
    EncodedHasNoBreak(links);
    assert val[0] == count[0] && val[|val|-1] == rest[|rest|-1];
    TrimKeepsEnds(IsSpace, val);
  }

  lemma EncodedLine(count: string, links: seq<Link>, after: string)
    requires IsCount(count) && EncodableList(links)
    requires after == "" || IsBreak(after[0])
    ensures var val := EncodeLinks(count, links);
      LineLength(val + after) == |val| && (val + after)[..|val|] == val
  {
    hide EncodeRest, Encodable, Closes, LineLength;
    var val := EncodeLinks(count, links);
    EncodedHasNoBreak(links);
    LineLengthIs(val + after, |val|);
  }

  lemma EncodedParts(count: string, links: seq<Link>)
    requires IsCount(count) && EncodableList(links)
    ensures var parts := Split(EncodeLinks(count, links), ',');
      |parts| >= 2 && AddParts(map[], parts[1..]) == Decoded(map[], links)
  {
    hide Encodable, Split, AddParts, Decoded, Encoded;
    SplitEncoded(count, links);
    PartsDecode(map[], links);
    assert ([count] + Encoded(links))[1..] == Encoded(links);
  }

  /** The first RPT_ALINKS line of any output decodes to the links it lists. */
  lemma LinksDecode(before: string, count: string, links: seq<Link>, after: string)
    requires Index(before + MARKER, MARKER) == |before| && (after == "" || IsBreak(after[0]))
    requires IsCount(count) && EncodableList(links)
    ensures ParseLinks(before + MARKER + (EncodeLinks(count, links) + after)) == Some(Decoded(map[], links))
  {
    var val := EncodeLinks(count, links);
    var output := before + MARKER + (val + after);
    EncodedLine(count, links, after);
    EncodedTrimmed(count, links);
    EncodedParts(count, links);
    hide EncodeLinks, Encodable, IsCount, Split, AddParts, Decoded, LineLength, TrimSpace;
    IndexBefore(before, MARKER, val + after);
    assert output[|before|+|MARKER|..] == val + after;
  }

  /** Output without the marker has no list, and neither has one whose count nothing follows. */
  lemma NoLinks(before: string, count: string, after: string)
    requires Index(before + MARKER, MARKER) == |before| && (after == "" || after[0] == '\r' || after[0] == '\n')
    requires Lacks(count, ',') && Lacks(count, '\r') && Lacks(count, '\n')
    ensures ParseLinks(before + MARKER + (count + after)) == None
    ensures Index(before, "RPT_ALINKS=") < 0 ==> ParseLinks(before) == None
  {
    hide TrimLeft, TrimRight, Split;
    var output := before + MARKER + (count + after);
    IndexBefore(before, MARKER, count + after);
    assert output[|before|+|MARKER|..] == count + after;
    LineLengthIs(count + after, |count|);
    assert (count + after)[..|count|] == count;
    TrimLacks(IsSpace, count, ',');
    SplitNone(TrimSpace(count), ',');
  }

  lemma TrimLacks(cut: char -> bool, s: string, c: char)
    requires Lacks(s, c)
    ensures Lacks(Trim(cut, s), c)
  {
    hide TrimLeft, TrimRight;
    var a := LeftSplits(cut, s);
    var b := RightSplits(cut, TrimLeft(cut, s));
    var front, core := TrimLeft(cut, s), Trim(cut, s);
    assert forall i :: 0 <= i < |front| ==> front[i] == s[|a| + i];
    assert forall i :: 0 <= i < |core| ==> core[i] == front[i];
  }

  // ------------------------------------------------- in a command's output

  /** A line without the marker pushes its first occurrence back by its length. */
  lemma IndexAfterLine(line: string, rest: string, marker: string)
    requires marker != "" && Lacks(marker, '\n') && Index(line, marker) < 0 && Index(rest, marker) >= 0
    ensures Index(line + "\n" + rest, marker) == |line| + 1 + Index(rest, marker)
  {
    var s, r := line + "\n" + rest, Index(rest, marker);
    forall i | 0 <= i < |line| + 1 + r ensures !OccursAt(s, marker, i) {
      if i <= |line| {
        NotWithinLine(line, rest, marker, i);
      } else {
        BehindLine(line, rest, marker, i - |line| - 1);
      }
    }
    BehindLine(line, rest, marker, r);
    hide OccursAt, Index;
    IndexIs(s, marker, |line| + 1 + r);
  }

  lemma BehindLine(line: string, rest: string, marker: string, i: nat)
    requires i <= |rest|
    ensures OccursAt(line + "\n" + rest, marker, |line| + 1 + i) <==> OccursAt(rest, marker, i)
  {
    assert (line + "\n" + rest)[|line|+1+i..] == rest[i..];
  }

  /** A marker without line breaks that is not in a line does not begin in it either. */
  lemma NotWithinLine(line: string, rest: string, marker: string, i: nat)
    requires marker != "" && Lacks(marker, '\n') && i <= |line| && !OccursAt(line, marker, i)
    ensures !OccursAt(line + "\n" + rest, marker, i)
  {
    var tail := (line + "\n" + rest)[i..];
    if |marker| <= |line| - i {
      assert tail[..|line|-i] == line[i..];
    } else {
      assert tail[|line|-i] == '\n' && marker[|line|-i] != '\n';
    }
  }

  lemma Regroup(line: string, before: string, marker: string, rest: string)
    ensures line + "\n" + (before + marker) == line + "\n" + before + marker
    ensures line + "\n" + (before + marker + rest) == line + "\n" + before + marker + rest
  {
  }

  lemma MarkerLacksBreak()
    ensures Lacks(MARKER, '\n')
  {
  }

  lemma JoinHead(ls: seq<string>)
    requires ls != []
    ensures JoinLines(ls) == ls[0] + (if |ls| == 1 then "" else "\n" + JoinLines(ls[1..]))
  {
  }

  lemma JoinCons(ls: seq<string>)
    requires |ls| > 1
    ensures JoinLines(ls) == ls[0] + "\n" + JoinLines(ls[1..])
  {
  }

  lemma AfterHead(front: string, val: string, after: string)
    ensures front + val + after == front + (val + after)
  {
  }

  /** The lines before an index, each with its line feed. */
  lemma {:induction false} JoinedMarker(ls: seq<string>, k: nat, pre: string, val: string)
    returns (before: string, after: string)
    requires k < |ls| && ls[k] == pre + MARKER + val && Index(pre + MARKER, MARKER) == |pre|
    requires forall i :: 0 <= i < k ==> Index(ls[i], MARKER) < 0
    ensures JoinLines(ls) == before + MARKER + (val + after) && (after == "" || after[0] == '\n')
    ensures Index(before + MARKER, MARKER) == |before|
    decreases ls
  {
    hide JoinLines, Index, Lacks;
    if k == 0 {
      before := pre;
      after := if |ls| == 1 then "" else "\n" + JoinLines(ls[1..]);
      JoinHead(ls);
      AfterHead(pre + MARKER, val, after);
    } else {
      var before', after' := JoinedMarker(ls[1..], k - 1, pre, val);
      before, after := ls[0] + "\n" + before', after';
      JoinCons(ls);
      MarkerLacksBreak();
      IndexAfterLine(ls[0], before' + MARKER, MARKER);
      Regroup(ls[0], before', MARKER, val + after');
    }
  }

  /**
   End to end: whichever way the block's output lines are sent, when the first line that
   has the marker ends in an RPT_ALINKS list of distinct links, decoding the block's Output
   gives exactly those links.
   */
  lemma LinksFromBlock(r: Reader, ls: seq<string>, k: nat, pre: string, count: string, links: seq<Link>, raw: bool)
    requires r.headers != map[] && "Output" !in r.headers
    requires forall i :: 0 <= i < |ls| ==> Printable(ls[i]) && (raw ==> RawSafe(ls[i]))
    requires k < |ls| && ls[k] == pre + MARKER + EncodeLinks(count, links) && Index(pre + MARKER, MARKER) == |pre|
    requires forall i :: 0 <= i < k ==> Index(ls[i], MARKER) < 0
    requires IsCount(count) && EncodableList(links) && DistinctIdents(links)
    ensures var h := Feed(r, if raw then AsRaw(ls) else AsHeaders(ls)).headers;
      && "Output" in h && ParseLinks(h["Output"]).Some?
      && var m := ParseLinks(h["Output"]).value;
        && (forall id :: id in m <==> Names(links, id))
        && (forall i :: 0 <= i < |links| && links[i].Link? ==>
              links[i].ident in m && m[links[i].ident] == LinkState(links[i].kind, links[i].state == 'K', 0))
  {
    hide Printable, Unbroken, RawSafe, Encodable, DistinctIdents, ParseLinks, EncodeLinks, IsCount, JoinLines;
    if raw { EncodingsAgree(r, ls); }
    assert [] + ls == ls;
    forall i | 0 <= i < |ls| ensures Unbroken(ls[i]) && ls[i] != "" { PrintableUnbroken(ls[i]); }
    OutputJoins(r, ls, []);
    var before, after := JoinedMarker(ls, k, pre, EncodeLinks(count, links));
    LinksDecode(before, count, links, after);
    DecodedExactly(map[], links);
  }

  lemma PrintableUnbroken(l: string)
    requires Printable(l)
    ensures Unbroken(l) && l != ""
  {
  }

  const VALUE := "Value"

  lemma ValueSendable(v: string)
    requires Printable(v)
    ensures Sendable(VALUE, v)
  {
    hide Index;
    LacksMarker(VALUE, ": ");
  }

  /**
   The line "Value: RPT_ALINKS=..." is read as a header when it comes raw, so it never reaches the
   block's Output; in an Output header it is a line with text before the marker.
   */
  lemma RawValueMissesOutput(r: Reader, list: string)
    requires Printable(MARKER + list)
    ensures FeedLine(r, VALUE + ": " + (MARKER + list) + "\r") ==
            r.(headers := r.headers[VALUE := MARKER + list])
    ensures Index(VALUE + ": " + MARKER, MARKER) == |VALUE + ": "|
  {
    ValueSendable(MARKER + list);
    HeaderRead(r, VALUE, MARKER + list);
    var before := VALUE + ": ";
    forall i | 0 <= i < |before| ensures !OccursAt(before + MARKER, MARKER, i) {
      assert (before + MARKER)[i..][0] == before[i] != MARKER[0];
    }
    assert (before + MARKER)[|before|..] == MARKER;
    IndexIs(before + MARKER, MARKER, |before|);
  }
}
