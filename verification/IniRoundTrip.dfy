/** Reading back an exported favorites.ini. */
module IniRoundTrip {
  import opened Wrappers
  import opened Sequences
  import opened Text
  import opened Ini

  lemma CommentLine(p: Parse, raw: string)
    requires raw != "" && raw[0] == ';'
    ensures ParseLine(p, raw) == p
  {
    TrimRightHead(IsSpace, raw);
  }

  lemma NumberIsWord(number: string)
    requires IsNodeNumber(number)
    ensures IsWord(number) && Lacks(number, '\n') && TrimSpace(number) == number
  {
    TrimKeepsEnds(IsSpace, number);
  }

  lemma SectionParses(p: Parse, number: string)
    requires IsNodeNumber(number)
    ensures ParseLine(p, SectionLine(number)) == AddFav(p, number, "", "").(pendingLabel := "")
  {
    var line := SectionLine(number);
    NumberIsWord(number);
    TrimKeepsEnds(IsSpace, line);
    assert line[1..|line|-1] == "node_" + number;
    assert (AfterPrefix("node_" + number, "node_")) == number;
  }

  lemma QuotedNumber(number: string)
    requires IsNodeNumber(number)
    ensures IsWord(number + "\"") && Trim(IsQuote, number + "\"") == number
  {
    var s := number + "\"";
    assert s[0] == number[0] && s[..|s|-1] == number;
    assert TrimLeft(IsQuote, s) == s;
    assert TrimRight(IsQuote, s) == TrimRight(IsQuote, number);
  }

  lemma {:induction false} FieldsNonEmpty(s: string, i: nat)
    requires i < |s| && !IsSpace(s[i])
    ensures Fields(s) != []
    decreases s
  {
    if IsSpace(s[0]) { FieldsNonEmpty(s[1..], i - 1); }
  }

  lemma CommandField(home: string, number: string)
    requires IsNodeNumber(number)
    ensures LastField(CommandLine(home, number)) == Some(number)
  {
    QuotedNumber(number);
    var front := "cmd[] = \"rpt cmd " + home + " ilink 3";
    assert front[0] == 'c';
    FieldsNonEmpty(front, 0);
    FieldsSnoc(front, number + "\"");
    assert CommandLine(home, number) == front + " " + (number + "\"");
  }

  lemma CommandParses(p: Parse, home: string, number: string)
    requires IsNodeNumber(number) && number in p.seen
    ensures ParseLine(p, CommandLine(home, number)) == p.(pendingLabel := "")
  {
    var line := CommandLine(home, number);
    CommandField(home, number);
    assert line[0] == 'c' && line[|line|-1] == '"' && line[..5] == "cmd[]";
    assert "cmd[]" <= line;
    TrimKeepsEnds(IsSpace, line);
    hide CommandLine, LastField;
    assert !("label[]" <= line);
  }

  // ---------------------------------------------------------- whole files

  /** The numbers a reader who has seen `seen` keeps: the first of each. */
  function FirstOnes(numbers: seq<string>, seen: set<string>): seq<string>
    decreases numbers
  {
    if numbers == [] then []
    else if numbers[0] in seen then FirstOnes(numbers[1..], seen)
    else [numbers[0]] + FirstOnes(numbers[1..], seen + {numbers[0]})
  }

  /** Where a number appears first. */
  function FirstIndex(numbers: seq<string>, n: string): (k: nat)
    requires n in numbers
    ensures k < |numbers| && numbers[k] == n && forall h :: 0 <= h < k ==> numbers[h] != n
    decreases numbers
  {
    if numbers[0] == n then 0 else 1 + FirstIndex(numbers[1..], n)
  }

  /** No repeats, none missing, none already seen. */
  lemma {:induction false} FirstOnesFacts(numbers: seq<string>, seen: set<string>)
    ensures var r := FirstOnes(numbers, seen);
      && NoRepeats(r)
      && (forall n :: n in r <==> n in numbers && n !in seen)
    decreases numbers
  {
    if numbers != [] {
      var head := numbers[0];
      FirstOnesFacts(numbers[1..], if head in seen then seen else seen + {head});
      assert forall n :: n in numbers <==> n == head || n in numbers[1..];
    }
  }

  /** The kept numbers come in the order of first appearance. */
  lemma {:induction false} FirstOnesInOrder(numbers: seq<string>, seen: set<string>, i: nat, j: nat)
    requires i < j < |FirstOnes(numbers, seen)|
    ensures var r := FirstOnes(numbers, seen);
      r[i] in numbers && r[j] in numbers && FirstIndex(numbers, r[i]) < FirstIndex(numbers, r[j])
    decreases numbers
  {
    hide NoRepeats;
    var head := numbers[0];
    var seen' := if head in seen then seen else seen + {head};
    var rest, r := FirstOnes(numbers[1..], seen'), FirstOnes(numbers, seen);
    FirstOnesFacts(numbers[1..], seen');
    if head in seen {
      assert rest[i] in rest && rest[j] in rest;
      FirstOnesInOrder(numbers[1..], seen', i, j);
    } else {
      assert rest[j - 1] in rest;
      if i > 0 {
        assert rest[i - 1] in rest;
        FirstOnesInOrder(numbers[1..], seen', i - 1, j - 1);
      }
    }
  }

  function Imported(numbers: seq<string>): (r: seq<ImportedFav>)
    ensures |r| == |numbers| && forall i :: 0 <= i < |r| ==> r[i] == ImportedFav(numbers[i], "", "")
  {
    seq(|numbers|, i requires 0 <= i < |numbers| => ImportedFav(numbers[i], "", ""))
  }

  lemma EntryLines(home: string, number: string, rest: string)
    requires Lacks(number, '\n') && Lacks(home, '\n')
    ensures Lines(Entry(home, number) + rest) == [SectionLine(number)] + ([CommandLine(home, number)] + ([""] + Lines(rest)))
  {
    var section, command := SectionLine(number), CommandLine(home, number);
    assert Lacks(section, '\n');
    assert Lacks(command, '\n');
    hide SectionLine, CommandLine;
    assert Entry(home, number) + rest == section + "\n" + (command + "\n" + ("" + "\n" + rest));
    LinesCons(section, command + "\n" + ("" + "\n" + rest));
    LinesCons(command, "" + "\n" + rest);
    LinesCons("", rest);
  }

  /** The three lines of an entry add its number, unless it was seen. */
  lemma EntryParses(p: Parse, home: string, number: string, lines: seq<string>)
    requires p.pendingLabel == "" && IsNodeNumber(number)
    ensures ParseLines(p, [SectionLine(number)] + ([CommandLine(home, number)] + ([""] + lines)))
         == ParseLines(AddFav(p, number, "", ""), lines)
  {
    hide SectionLine, CommandLine, ParseLine, ParseLines;
    var p1 := AddFav(p, number, "", "");
    SectionParses(p, number);
    CommandParses(p1, home, number);
    BlankLine(p1);
    ParseThree(p, SectionLine(number), CommandLine(home, number), lines);
  }

  lemma ImportedCons(favs: seq<ImportedFav>, n: string, rest: seq<string>)
    ensures favs + [ImportedFav(n, "", "")] + Imported(rest) == favs + Imported([n] + rest)
  {
  }

  lemma {:induction false} EntriesParse(p: Parse, home: string, numbers: seq<string>)
    requires p.pendingLabel == "" && Lacks(home, '\n') && forall i :: 0 <= i < |numbers| ==> IsNodeNumber(numbers[i])
    ensures ParseLines(p, Lines(Entries(home, numbers))).favs == p.favs + Imported(FirstOnes(numbers, p.seen))
    decreases numbers
  {
    if numbers == [] {
      assert p.favs + Imported([]) == p.favs;
    } else {
      var n, tail := numbers[0], numbers[1..];
      hide SectionLine, CommandLine, ParseLine, Lines, ParseLines, Entry, Imported, AddFav;
      NumberIsWord(n);
      EntryLines(home, n, Entries(home, tail));
      EntryParses(p, home, n, Lines(Entries(home, tail)));
      var p1 := AddFav(p, n, "", "");
      AddedNumber(p, n);
      EntriesParse(p1, home, tail);
      ImportedCons(p.favs, n, FirstOnes(tail, p1.seen));
    }
  }

  lemma AddedNumber(p: Parse, n: string)
    requires IsNodeNumber(n)
    ensures AddFav(p, n, "", "") == if n in p.seen then p
      else p.(favs := p.favs + [ImportedFav(n, "", "")], seen := p.seen + {n})
  {
  }

  lemma BlankLine(p: Parse)
    ensures ParseLine(p, "") == p
  {
  }

  lemma ParseCons(p: Parse, a: string, lines: seq<string>)
    ensures ParseLines(p, [a] + lines) == ParseLines(ParseLine(p, a), lines)
  {
    hide ParseLine;
    assert ([a] + lines)[1..] == lines;
  }

  lemma ParseThree(p: Parse, a: string, b: string, lines: seq<string>)
    ensures ParseLines(p, [a] + ([b] + ([""] + lines)))
         == ParseLines(ParseLine(ParseLine(ParseLine(p, a), b), ""), lines)
  {
    hide ParseLine, ParseLines;
    ParseCons(p, a, [b] + ([""] + lines));
    ParseCons(ParseLine(p, a), b, [""] + lines);
    ParseCons(ParseLine(ParseLine(p, a), b), "", lines);
  }

  lemma HeaderLines(home: string, stamp: string, rest: string)
    requires Lacks(home, '\n') && Lacks(stamp, '\n')
    ensures Lines(Header(home, stamp) + rest)
         == ["; YAAMon favorites export"] + (["; Home node: " + home] + (["; Exported: " + stamp] + ([""] + Lines(rest))))
  {
    var a, b, c := "; YAAMon favorites export", "; Home node: " + home, "; Exported: " + stamp;
    assert Lacks(a, '\n') && Lacks(b, '\n') && Lacks(c, '\n');
    assert a + "\n" == "; YAAMon favorites export\n";
    var r0 := "" + "\n" + rest;
    var r1 := c + "\n" + r0;
    var r2 := b + "\n" + r1;
    assert Header(home, stamp) + rest == a + "\n" + r2;
    LinesCons(a, r2);
    LinesCons(b, r1);
    LinesCons(c, r0);
    LinesCons("", rest);
  }

  /**
   Reading an exported file gives the exported numbers, each once, in the order of
   their first appearance, without callsign or description.
   */
  lemma ExportParses(home: string, stamp: string, numbers: seq<string>)
    requires Lacks(home, '\n') && Lacks(stamp, '\n') && forall i :: 0 <= i < |numbers| ==> IsNodeNumber(numbers[i])
    ensures ParseLines(EMPTY, Lines(Header(home, stamp) + Entries(home, numbers))).favs
         == Imported(FirstOnes(numbers, {}))
  {
    var rest := Entries(home, numbers);
    HeaderLines(home, stamp, rest);
    var a, b, c := "; YAAMon favorites export", "; Home node: " + home, "; Exported: " + stamp;
    CommentLine(EMPTY, a);
    CommentLine(EMPTY, b);
    CommentLine(EMPTY, c);
    BlankLine(EMPTY);
    var lines := Lines(rest);
    hide ParseLine, Lines, Entries, Header, ParseLines;
    ParseCons(EMPTY, a, [b] + ([c] + ([""] + lines)));
    ParseThree(EMPTY, b, c, lines);
    EntriesParse(EMPTY, home, numbers);
    assert [] + Imported(FirstOnes(numbers, {})) == Imported(FirstOnes(numbers, {}));
  }

  /** The three lines of one entry. */
  ghost predicate Exported(ls: seq<string>, at: nat, home: string, number: string) {
    && at + 3 <= |ls|
    && ls[at] == "[node_" + number + "]"
    && ls[at + 1] == "cmd[] = \"rpt cmd " + home + " ilink 3 " + number + "\""
    && ls[at + 2] == ""
  }

  lemma ExportedBehind(front: seq<string>, ls: seq<string>, at: nat, home: string, number: string)
    requires Exported(ls, at, home, number)
    ensures Exported(front + ls, |front| + at, home, number)
  {
  }

  lemma EntryExported(home: string, number: string, rest: seq<string>)
    ensures Exported([SectionLine(number), CommandLine(home, number), ""] + rest, 0, home, number)
  {
    assert " ilink 3" + " " == " ilink 3 ";
  }

  lemma {:induction false} EntriesLines(home: string, numbers: seq<string>)
    requires Lacks(home, '\n') && forall i :: 0 <= i < |numbers| ==> Lacks(numbers[i], '\n')
    ensures var ls := Lines(Entries(home, numbers));
      |ls| == 3 * |numbers| && forall k :: 0 <= k < |numbers| ==> Exported(ls, 3 * k, home, numbers[k])
    decreases numbers
  {
    hide Lines, Lacks, Entry, SectionLine, CommandLine, Exported;
    if numbers == [] {
      NoLines();
    } else {
      var n, tail := numbers[0], numbers[1..];
      var rest := Lines(Entries(home, tail));
      EntryLines(home, n, Entries(home, tail));
      var front := [SectionLine(n), CommandLine(home, n), ""];
      assert Lines(Entries(home, numbers)) == front + rest;
      EntriesLines(home, tail);
      EntryExported(home, n, rest);
      forall k | 0 < k < |numbers| ensures Exported(front + rest, 3 * k, home, numbers[k]) {
        assert numbers[k] == tail[k - 1];
        ExportedBehind(front, rest, 3 * (k - 1), home, tail[k - 1]);
      }
    }
  }

  lemma NoLines()
    ensures Lines("") == []
  {
  }

  /** The text of an export, line by line. */
  lemma ExportLines(home: string, stamp: string, numbers: seq<string>)
    requires Lacks(home, '\n') && Lacks(stamp, '\n') && forall i :: 0 <= i < |numbers| ==> Lacks(numbers[i], '\n')
    ensures var ls := Lines(Header(home, stamp) + Entries(home, numbers));
      && |ls| == 4 + 3 * |numbers|
      && ls[..4] == ["; YAAMon favorites export", "; Home node: " + home, "; Exported: " + stamp, ""]
      && forall k :: 0 <= k < |numbers| ==> Exported(ls, 4 + 3 * k, home, numbers[k])
  {
    hide Lines, Header, Entries, Exported, Lacks;
    HeaderLines(home, stamp, Entries(home, numbers));
    EntriesLines(home, numbers);
    var rest := Lines(Entries(home, numbers));
    var front := ["; YAAMon favorites export", "; Home node: " + home, "; Exported: " + stamp, ""];
    assert Lines(Header(home, stamp) + Entries(home, numbers)) == front + rest;
    forall k | 0 <= k < |numbers| ensures Exported(front + rest, 4 + 3 * k, home, numbers[k]) {
      ExportedBehind(front, rest, 3 * k, home, numbers[k]);
    }
  }
}
