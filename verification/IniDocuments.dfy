/** What a favorites.ini says, item by item, and that reading one gives just that. */
module IniDocuments {
  import opened Wrappers
  import opened Text
  import opened Ini
  import opened IniRoundTrip

  // -------------------------------------------------------------- labels

  predicate Blank(s: string) {
    forall i :: 0 <= i < |s| ==> s[i] == ' ' || 9 <= s[i] as int <= 13
  }

  /** No white space at either end. */
  predicate Tight(s: string) {
    s == "" || (!IsSpace(s[0]) && !IsSpace(s[|s|-1]))
  }

  /** A label's text: its first word, up to the first space, and the rest, with white space around them. */
  datatype Label = Label(lead: string, word: string, gap: string, rest: string, trail: string)

  function Core(l: Label): string {
    l.word + if l.rest == "" then "" else " " + (l.gap + l.rest)
  }

  function TextOf(l: Label): string {
    l.lead + Core(l) + l.trail
  }

  ghost predicate WellSplit(l: Label) {
    && Blank(l.lead) && Blank(l.gap) && Blank(l.trail) && Lacks(l.word, ' ')
    && Tight(l.rest) && Tight(Core(l)) && (l.word == "" ==> l.rest == "")
  }

  /** Three to seven letters and digits with a digit among them. */
  predicate IsCallsign(w: string) {
    && 3 <= |w| <= 7
    && (forall i :: 0 <= i < |w| ==> 'A' <= w[i] <= 'Z' || 'a' <= w[i] <= 'z' || '0' <= w[i] <= '9')
    && exists i :: 0 <= i < |w| && '0' <= w[i] <= '9'
  }

  function InCapitals(w: string): (r: string)
    ensures |r| == |w|
    ensures forall i :: 0 <= i < |w| ==>
      r[i] as int == if 'a' <= w[i] <= 'z' then w[i] as int - 32 else w[i] as int
  {
    seq(|w|, i requires 0 <= i < |w| => if 'a' <= w[i] <= 'z' then (w[i] as int - 32) as char else w[i])
  }

  function CallsignOf(l: Label): string {
    if IsCallsign(l.word) then InCapitals(l.word) else ""
  }

  function DescriptionOf(l: Label): string {
    if IsCallsign(l.word) then l.rest else Core(l)
  }

  lemma {:induction false} FirstSpace(word: string, rest: string)
    requires Lacks(word, ' ')
    ensures Index(word + " " + rest, " ") == |word|
  {
    var s := word + " " + rest;
    assert s[|word|..] == " " + rest;
    forall i | 0 <= i < |word| ensures !OccursAt(s, " ", i) { assert s[i..][0] == word[i]; }
    IndexIs(s, " ", |word|);
  }

  lemma LooksAlike(w: string)
    ensures 3 <= |w| <= 7 && IsAlphanumeric(w) && ContainsDigit(w) <==> IsCallsign(w)
    ensures ToUpper(w) == InCapitals(w)
  {
    forall i | 0 <= i < |w| ensures ToUpper(w)[i] == InCapitals(w)[i] {
      if 'a' <= w[i] <= 'z' { assert ToUpper(w)[i] as int == w[i] as int - 32; }
    }
  }

  /** A label gives its first word in capitals as the callsign, if it looks like one, and the rest as description. */
  lemma LabelRead(l: Label)
    requires WellSplit(l)
    ensures ParseLabel(TextOf(l)) == (CallsignOf(l), DescriptionOf(l))
  {
    hide IsAlphanumeric, ContainsDigit, IsCallsign, ToUpper, InCapitals, TrimLeft, TrimRight, Index;
    TrimBoth(IsSpace, l.lead, Core(l), l.trail);
    LooksAlike(l.word);
    if l.rest == "" {
      assert l.word + "" == l.word && Core(l) == l.word;
      LacksMarker(l.word, " ");
      if l.word == "" { NoCallsign(); }
    } else {
      var text := Core(l);
      assert text == l.word + " " + (l.gap + l.rest);
      FirstSpace(l.word, l.gap + l.rest);
      assert text[..|l.word|] == l.word && text[|l.word|+1..] == l.gap + l.rest;
      assert l.gap + l.rest + "" == l.gap + l.rest;
      TrimBoth(IsSpace, l.gap, l.rest, "");
    }
  }

  lemma NoCallsign()
    ensures !IsCallsign("")
  {
  }

  /** A text without white space at its ends is one word, or a word, a space, white space and the rest. */
  lemma CoreSplits(core: string) returns (word: string, gap: string, rest: string)
    requires Tight(core)
    ensures Lacks(word, ' ') && Blank(gap) && Tight(rest) && (word == "" ==> rest == "")
    ensures core == word + if rest == "" then "" else " " + (gap + rest)
  {
    hide TrimLeft, Index;
    var i := Index(core, " ");
    if i < 0 {
      assert forall k :: 0 <= k < |core| && core[k] == ' ' ==> OccursAt(core, " ", k);
      word, gap, rest := core, "", "";
      assert core + "" == core;
    } else {
      assert OccursAt(core, " ", i);
      var behind := core[i+1..];
      assert core[i..][0] == core[i] == ' ' && i < |core| - 1;
      assert behind[|behind|-1] == core[|core|-1];
      assert forall k :: 0 <= k < i && core[k] == ' ' ==> OccursAt(core, " ", k);
      gap := LeftSplits(IsSpace, behind);
      word, rest := core[..i], TrimLeft(IsSpace, behind);
      assert core == word + (" " + behind);
    }
  }

  /** Any text is that of some label. */
  lemma EveryTextSplits(text: string) returns (l: Label)
    ensures WellSplit(l) && TextOf(l) == text
  {
    hide TrimLeft, TrimRight;
    var lead := LeftSplits(IsSpace, text);
    var front := TrimLeft(IsSpace, text);
    var trail := RightSplits(IsSpace, front);
    var core := TrimRight(IsSpace, front);
    assert core != "" ==> core[0] == front[0];
    var word, gap, rest := CoreSplits(core);
    l := Label(lead, word, gap, rest, trail);
    assert Core(l) == core;
    assert text == lead + (core + trail) == lead + core + trail;
  }

  // ----------------------------------------------------------- documents

  datatype Item =
    | Empty
    | Remark(text: string)
    | Stray(text: string)
    | Section(prefixed: bool, name: string)
    | Labelled(tag: Label)
    | Command(front: string, target: string)
    | BareCommand(text: string)

  /** The line an item is written as. */
  function LineOf(item: Item): string {
    match item
    case Empty => ""
    case Remark(text) => ";" + text
    case Stray(text) => text
    case Section(prefixed, name) => "[" + (if prefixed then "node_" else "") + name + "]"
    case Labelled(l) => "label[] = \"" + TextOf(l) + "\""
    case Command(front, target) => "cmd[]" + front + " " + (target + "\"")
    case BareCommand(text) => "cmd[]" + text
  }

  /** What a file can say in one line: quotes end where they should, and a target is one word. */
  ghost predicate Writable(item: Item) {
    Lacks(LineOf(item), '\n') &&
    match item
    case Empty => true
    case Remark(_) => true
    case Stray(text) =>
      && text != "" && Tight(text) && text[0] != ';' && !("cmd[]" <= text) && ("label[]" <= text ==> Lacks(text, '='))
      && (|text| == 1 || text[0] != '[' || text[|text|-1] != ']')
    case Section(prefixed, name) => Tight(name) && (prefixed || !("node_" <= name))
    case Labelled(l) =>
      var text := TextOf(l);
      WellSplit(l) && (text == "" || (text[0] != '"' && text[|text|-1] != '"'))
    case Command(_, target) => IsWord(target) && target[0] != '"' && target[|target|-1] != '"'
    case BareCommand(text) => forall i :: 0 <= i < |text| ==> !IsSpace(text[i])
  }

  function Written(items: seq<Item>): string {
    if items == [] then "" else LineOf(items[0]) + "\n" + Written(items[1..])
  }

  /** One to ten digits. */
  predicate IsNode(s: string) {
    1 <= |s| <= 10 && forall i :: 0 <= i < |s| ==> '0' <= s[i] <= '9'
  }

  /** The entry a number stands for, unless it is no node's or was seen. */
  function Entered(number: string, tag: Option<Label>, seen: set<string>): seq<ImportedFav> {
    if !IsNode(number) || number in seen then []
    else match tag
      case None => [ImportedFav(number, "", "")]
      case Some(l) => [ImportedFav(number, CallsignOf(l), DescriptionOf(l))]
  }

  /** What one item says: a section names a node without a label, a command one with the label before it. */
  function EntryOf(item: Item, tag: Option<Label>, seen: set<string>): seq<ImportedFav> {
    match item
    case Section(_, name) => Entered(name, None, seen)
    case Command(_, target) => Entered(target, tag, seen)
    case _ => []
  }

  function TagAfter(item: Item, tag: Option<Label>): Option<Label> {
    match item
    case Labelled(l) => Some(l)
    case Section(_, _) => None
    case Command(_, _) => None
    case BareCommand(_) => None
    case _ => tag
  }

  function SeenAfter(item: Item, seen: set<string>): set<string> {
    match item
    case Section(_, name) => seen + {name}
    case Command(_, target) => seen + {target}
    case _ => seen
  }

  /** What the items of a file say, the first mention of each node counting. */
  function Said(items: seq<Item>, tag: Option<Label>, seen: set<string>): seq<ImportedFav>
    decreases items
  {
    if items == [] then []
    else EntryOf(items[0], tag, seen) + Said(items[1..], TagAfter(items[0], tag), SeenAfter(items[0], seen))
  }

  /** The parser's state stands for this label and has seen these numbers. */
  ghost predicate Tracks(p: Parse, tag: Option<Label>, seen: set<string>) {
    && p.pendingLabel == (if tag.Some? then TextOf(tag.value) else "")
    && (tag.Some? ==> WellSplit(tag.value))
    && forall n :: IsNode(n) ==> (n in p.seen <==> n in seen)
  }

  lemma NodeAlike(s: string)
    ensures IsNodeNumber(s) <==> IsNode(s)
  {
  }

  lemma PendingRead(p: Parse, tag: Option<Label>, seen: set<string>)
    requires Tracks(p, tag, seen)
    ensures ParseLabel(p.pendingLabel) ==
            if tag.Some? then (CallsignOf(tag.value), DescriptionOf(tag.value)) else ("", "")
  {
    if tag.Some? {
      LabelRead(tag.value);
    } else {
      assert TrimSpace("") == "";
    }
  }

  /** The parser after an entry. */
  lemma EnteredFacts(p: Parse, number: string, tag: Option<Label>, seen: set<string>, callsign: string, description: string)
    requires Tracks(p, tag, seen)
    requires (callsign, description) == if tag.Some? then (CallsignOf(tag.value), DescriptionOf(tag.value)) else ("", "")
    ensures var q := AddFav(p, number, callsign, description).(pendingLabel := "");
      q.favs == p.favs + Entered(number, tag, seen) && Tracks(q, None, seen + {number})
  {
    NodeAlike(number);
    assert p.favs + [] == p.favs;
  }

  lemma RemarkRead(p: Parse, item: Item)
    requires Writable(item) && (item.Empty? || item.Remark?)
    ensures ParseLine(p, LineOf(item)) == p
  {
    if item.Remark? { CommentLine(p, LineOf(item)); } else { BlankLine(p); }
  }

  lemma StrayRead(p: Parse, item: Item)
    requires Writable(item) && item.Stray?
    ensures ParseLine(p, LineOf(item)) == p
  {
    TrimKeepsEnds(IsSpace, item.text);
    hide TrimLeft, TrimRight, Index;
    if "label[]" <= item.text { LacksMarker(item.text, "="); }
  }

  /** A command of one word names no node, and takes the label before it away. */
  lemma BareCommandRead(p: Parse, item: Item)
    requires Writable(item) && item.BareCommand?
    ensures ParseLine(p, LineOf(item)) == p.(pendingLabel := "")
  {
    var line := LineOf(item);
    assert line[0] == 'c' && line[..5] == "cmd[]";
    assert forall i :: 0 <= i < |line| ==> !IsSpace(line[i]);
    TrimKeepsEnds(IsSpace, line);
    WordLengthIs(line, |line|);
    assert Fields(line) == [line[..|line|]] + Fields(line[|line|..]);
    hide Trim, Fields, ParseLabel;
    assert !("label[]" <= line);
  }

  /** White space around a line makes no difference, a carriage return before the line feed included. */
  lemma PaddingIgnored(p: Parse, before: string, line: string, after: string)
    requires Blank(before) && Blank(after)
    ensures ParseLine(p, before + line + after) == ParseLine(p, line)
  {
    hide TrimLeft, TrimRight;
    var a := LeftSplits(IsSpace, line);
    var front := TrimLeft(IsSpace, line);
    var b := RightSplits(IsSpace, front);
    var core := TrimRight(IsSpace, front);
    assert core != "" ==> core[0] == front[0];
    assert before + line + after == (before + a) + core + (b + after);
    TrimBoth(IsSpace, before + a, core, b + after);
    assert TrimSpace(line) == core;
    SameTrimmed(p, before + line + after, line);
  }

  lemma SameTrimmed(p: Parse, a: string, b: string)
    requires TrimSpace(a) == TrimSpace(b)
    ensures ParseLine(p, a) == ParseLine(p, b)
  {
    hide TrimSpace, LastField, ParseLabel, AddFav;
  }

  lemma SectionLineRead(p: Parse, inner: string)
    ensures ParseLine(p, "[" + inner + "]") ==
            AddFav(p, TrimSpace(AfterPrefix(inner, "node_")), "", "").(pendingLabel := "")
  {
    var line := "[" + inner + "]";
    TrimKeepsEnds(IsSpace, line);
    hide AfterPrefix, AddFav, TrimLeft, TrimRight, Trim;
    assert line[1..|line|-1] == inner;
  }

  lemma SectionRead(p: Parse, item: Item)
    requires Writable(item) && item.Section?
    ensures ParseLine(p, LineOf(item)) == AddFav(p, item.name, "", "").(pendingLabel := "")
  {
    hide ParseLine, AfterPrefix, AddFav, TrimLeft, TrimRight;
    var inner := (if item.prefixed then "node_" else "") + item.name;
    assert LineOf(item) == "[" + inner + "]";
    SectionLineRead(p, inner);
    PrefixTaken(item.prefixed, item.name);
    assert "" + item.name + "" == item.name;
    TrimBoth(IsSpace, "", item.name, "");
  }

  lemma PrefixTaken(prefixed: bool, name: string)
    requires prefixed || !("node_" <= name)
    ensures AfterPrefix((if prefixed then "node_" else "") + name, "node_") == name
  {
    if prefixed {
      assert ("node_" + name)[5..] == name;
    } else {
      assert "" + name == name;
    }
  }

  lemma LabelLineRead(p: Parse, item: Item)
    requires Writable(item) && item.Labelled?
    ensures ParseLine(p, LineOf(item)) == p.(pendingLabel := TextOf(item.tag))
  {
    hide WellSplit, TextOf;
    var line, text := LineOf(item), TextOf(item.tag);
    assert line[0] == 'l' && line[|line|-1] == '"' && line[..7] == "label[]";
    TrimKeepsEnds(IsSpace, line);
    hide TrimLeft, TrimRight, Index;
    EqualsSign("\"" + text + "\"");
    assert line == "label[] " + "=" + (" " + ("\"" + text + "\""));
    assert line[9..] == " " + ("\"" + text + "\"") + "";
    TrimBoth(IsSpace, " ", "\"" + text + "\"", "");
    TrimBoth(IsQuote, "\"", text, "\"");
  }

  lemma EqualsSign(value: string)
    ensures Index("label[] " + "=" + (" " + value), "=") == 8
  {
    var s := "label[] " + "=" + (" " + value);
    assert s[8..][0] == '=';
    forall i | 0 <= i < 8 ensures !OccursAt(s, "=", i) { assert s[i..][0] == s[i] != '='; }
    IndexIs(s, "=", 8);
  }

  lemma TargetField(front: string, target: string)
    requires IsWord(target) && target[0] != '"' && target[|target|-1] != '"'
    ensures LastField("cmd[]" + front + " " + (target + "\"")) == Some(target)
  {
    hide TrimLeft, TrimRight;
    var pre := "cmd[]" + front;
    assert pre[0] == 'c';
    FieldsNonEmpty(pre, 0);
    FieldsSnoc(pre, target + "\"");
    assert "" + target + "\"" == target + "\"";
    TrimBoth(IsQuote, "", target, "\"");
  }

  lemma CommandRead(p: Parse, item: Item)
    requires Writable(item) && item.Command?
    ensures var (callsign, description) := ParseLabel(p.pendingLabel);
      ParseLine(p, LineOf(item)) == AddFav(p, item.target, callsign, description).(pendingLabel := "")
  {
    var line := LineOf(item);
    TargetField(item.front, item.target);
    assert line[0] == 'c' && line[|line|-1] == '"' && line[..5] == "cmd[]";
    TrimKeepsEnds(IsSpace, line);
    hide LastField, ParseLabel;
    assert !("label[]" <= line);
  }

  /** The parser after one item. */
  lemma ItemRead(p: Parse, item: Item, tag: Option<Label>, seen: set<string>)
    requires Writable(item) && Tracks(p, tag, seen)
    ensures var q := ParseLine(p, LineOf(item));
      q.favs == p.favs + EntryOf(item, tag, seen) && Tracks(q, TagAfter(item, tag), SeenAfter(item, seen))
  {
    hide LineOf, Writable, ParseLine, ParseLabel, Tracks, AddFav, Entered, CallsignOf, DescriptionOf;
    assert p.favs + [] == p.favs;
    match item {
      case Empty => RemarkRead(p, item);
      case Remark(_) => RemarkRead(p, item);
      case Stray(_) => StrayRead(p, item);
      case BareCommand(_) =>
        BareCommandRead(p, item);
        Forgotten(p, tag, seen, "");
      case Labelled(_) =>
        LabelLineRead(p, item);
        LabelTracked(p, item, tag, seen);
      case Section(_, name) =>
        SectionRead(p, item);
        Forgotten(p, tag, seen, name);
        EnteredFacts(p.(pendingLabel := ""), name, None, seen, "", "");
      case Command(_, target) =>
        CommandRead(p, item);
        PendingRead(p, tag, seen);
        EnteredFacts(p, target, tag, seen, ParseLabel(p.pendingLabel).0, ParseLabel(p.pendingLabel).1);
    }
  }

  lemma Forgotten(p: Parse, tag: Option<Label>, seen: set<string>, number: string)
    requires Tracks(p, tag, seen)
    ensures Tracks(p.(pendingLabel := ""), None, seen)
    ensures AddFav(p.(pendingLabel := ""), number, "", "").(pendingLabel := "")
         == AddFav(p, number, "", "").(pendingLabel := "")
  {
  }

  lemma {:induction false} ItemsRead(p: Parse, items: seq<Item>, tag: Option<Label>, seen: set<string>)
    requires (forall i :: 0 <= i < |items| ==> Writable(items[i])) && Tracks(p, tag, seen)
    ensures ParseLines(p, Lines(Written(items))).favs == p.favs + Said(items, tag, seen)
    decreases items
  {
    hide LineOf, Writable, ParseLine, Tracks, Lines, EntryOf, TagAfter, SeenAfter;
    if items == [] {
      NothingWritten(p);
    } else {
      var item, rest := items[0], items[1..];
      var entries, tail := EntryOf(item, tag, seen), Said(rest, TagAfter(item, tag), SeenAfter(item, seen));
      WrittenLines(items);
      hide Written, ParseLines;
      ParseCons(p, LineOf(item), Lines(Written(rest)));
      ItemRead(p, item, tag, seen);
      ItemsRead(ParseLine(p, LineOf(item)), rest, TagAfter(item, tag), SeenAfter(item, seen));
      assert p.favs + entries + tail == p.favs + (entries + tail);
    }
  }

  lemma NothingWritten(p: Parse)
    ensures ParseLines(p, Lines(Written([]))) == p && p.favs + [] == p.favs
  {
  }

  lemma LabelTracked(p: Parse, item: Item, tag: Option<Label>, seen: set<string>)
    requires Writable(item) && item.Labelled? && Tracks(p, tag, seen)
    ensures Tracks(p.(pendingLabel := TextOf(item.tag)), Some(item.tag), seen)
  {
  }

  lemma WrittenLines(items: seq<Item>)
    requires items != [] && Writable(items[0])
    ensures Lines(Written(items)) == [LineOf(items[0])] + Lines(Written(items[1..]))
  {
    hide LineOf, Lines;
    LinesCons(LineOf(items[0]), Written(items[1..]));
  }

  /** Reading a file gives exactly what its items say. */
  lemma DocumentRead(items: seq<Item>)
    requires forall i :: 0 <= i < |items| ==> Writable(items[i])
    ensures ParseLines(EMPTY, Lines(Written(items))).favs == Said(items, None, {})
  {
    hide Written, Lines, ParseLines, Said, Writable;
    ItemsRead(EMPTY, items, None, {});
    assert [] + Said(items, None, {}) == Said(items, None, {});
  }

  // ------------------------------------------------- label and command pairs

  datatype Pair = Pair(tag: Label, front: string, number: string)

  function PairItems(pairs: seq<Pair>): (items: seq<Item>) {
    if pairs == [] then []
    else [Labelled(pairs[0].tag), Command(pairs[0].front, pairs[0].number)] + PairItems(pairs[1..])
  }

  ghost predicate WritablePair(p: Pair) {
    Writable(Labelled(p.tag)) && Writable(Command(p.front, p.number)) && IsNode(p.number)
  }

  lemma PairSaid(items: seq<Item>, pair: Pair, seen: set<string>)
    requires |items| >= 2 && items[0] == Labelled(pair.tag) && items[1] == Command(pair.front, pair.number)
    ensures Said(items, None, seen)
         == Entered(pair.number, Some(pair.tag), seen) + Said(items[2..], None, seen + {pair.number})
  {
    hide Entered;
    assert items[1..][1..] == items[2..];
    var rest := Said(items[1..], Some(pair.tag), seen);
    assert [] + rest == rest;
  }

  lemma {:induction false} PairsSaid(pairs: seq<Pair>, seen: set<string>)
    requires forall i :: 0 <= i < |pairs| ==> WritablePair(pairs[i]) && pairs[i].number !in seen
    requires forall i, j :: 0 <= i < j < |pairs| ==> pairs[i].number != pairs[j].number
    ensures forall i :: 0 <= i < |PairItems(pairs)| ==> Writable(PairItems(pairs)[i])
    ensures var said := Said(PairItems(pairs), None, seen);
      && |said| == |pairs|
      && forall i :: 0 <= i < |pairs| ==>
           said[i] == ImportedFav(pairs[i].number, CallsignOf(pairs[i].tag), DescriptionOf(pairs[i].tag))
    decreases pairs
  {
    hide Writable, CallsignOf, DescriptionOf, IsNode;
    if pairs != [] {
      var items, rest := PairItems(pairs), PairItems(pairs[1..]);
      assert items[1..][0] == Command(pairs[0].front, pairs[0].number) && items[1..][1..] == rest;
      assert WritablePair(pairs[0]);
      forall i | 0 <= i < |pairs[1..]|
        ensures WritablePair(pairs[1..][i]) && pairs[1..][i].number !in seen + {pairs[0].number}
      {
        assert pairs[1..][i] == pairs[i + 1] && pairs[0].number != pairs[i + 1].number;
      }
      PairsSaid(pairs[1..], seen + {pairs[0].number});
      PairSaid(items, pairs[0], seen);
    }
  }

  /**
   A file of label and command lines, as AllScan writes them, with distinct node numbers is read
   as one favorite a pair, each with the callsign and description that its label says.
   */
  lemma PairsRead(pairs: seq<Pair>)
    requires forall i :: 0 <= i < |pairs| ==> WritablePair(pairs[i])
    requires forall i, j :: 0 <= i < j < |pairs| ==> pairs[i].number != pairs[j].number
    ensures var favs := ParseLines(EMPTY, Lines(Written(PairItems(pairs)))).favs;
      && |favs| == |pairs|
      && forall i :: 0 <= i < |pairs| ==>
           && favs[i].number == pairs[i].number
           && favs[i].callsign == CallsignOf(pairs[i].tag)
           && favs[i].description == DescriptionOf(pairs[i].tag)
  {
    hide Writable, Said, Written, Lines, ParseLines, WritablePair, CallsignOf, DescriptionOf, PairItems;
    PairsSaid(pairs, {});
    DocumentRead(PairItems(pairs));
  }
}
