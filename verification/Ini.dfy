/** The favorites.ini format: what the program writes, and what it reads back. */
module Ini {
  import opened Wrappers
  import opened Sql
  import opened Text
  import opened FavoriteLists

  // ------------------------------------------------------------- exporting

  function Header(home: string, stamp: string): string {
    "; YAAMon favorites export\n" + ("; Home node: " + home + "\n" + ("; Exported: " + stamp + "\n" + "\n"))
  }

  function SectionLine(number: string): string {
    "[node_" + number + "]"
  }

  function CommandLine(home: string, number: string): string {
    "cmd[] = \"rpt cmd " + home + " ilink 3" + " " + (number + "\"")
  }

  function Entry(home: string, number: string): string {
    SectionLine(number) + "\n" + (CommandLine(home, number) + "\n" + "\n")
  }

  function Entries(home: string, numbers: seq<string>): string {
    if numbers == [] then "" else Entry(home, numbers[0]) + Entries(home, numbers[1..])
  }

  /** ExportINI; `stamp` is the formatted clock. */
  method ExportINI(favs: seq<FavRow>, home: string, stamp: string) returns (buf: string)
    ensures buf == Header(home, stamp) + Entries(home, Numbers(favs))
  {
    buf := "; YAAMon favorites export\n";
    buf := buf + "; Home node: " + home + "\n";
    buf := buf + "; Exported: " + stamp + "\n";
    buf := buf + "\n";
    assert buf == Header(home, stamp);
    ghost var numbers := Numbers(favs);
    assert numbers[0..] == numbers;
    hide Header, SectionLine, CommandLine;
    for i := 0 to |favs|
      invariant buf + Entries(home, numbers[i..]) == Header(home, stamp) + Entries(home, numbers)
    {
      EntriesStep(buf, home, numbers, i);
      buf := buf + SectionLine(favs[i].key.number) + "\n";
      buf := buf + CommandLine(home, favs[i].key.number) + "\n\n";
    }
    assert numbers[|favs|..] == [] && buf + "" == buf;
  }

  lemma EntriesStep(buf: string, home: string, numbers: seq<string>, i: nat)
    requires i < |numbers|
    ensures buf + Entries(home, numbers[i..])
         == buf + SectionLine(numbers[i]) + "\n" + CommandLine(home, numbers[i]) + "\n\n" + Entries(home, numbers[i+1..])
  {
    hide SectionLine, CommandLine;
    assert numbers[i..][1..] == numbers[i+1..];
    var a, b, rest := SectionLine(numbers[i]), CommandLine(home, numbers[i]), Entries(home, numbers[i+1..]);
    assert buf + (a + "\n" + (b + "\n" + "\n") + rest) == buf + a + "\n" + b + "\n\n" + rest;
  }

  // --------------------------------------------------------------- parsing

  datatype ImportedFav = ImportedFav(number: string, callsign: string, description: string)

  predicate IsDigit(c: char) { '0' <= c <= '9' }

  predicate IsNodeNumber(s: string) {
    0 < |s| <= 10 && forall i :: 0 <= i < |s| ==> IsDigit(s[i])
  }

  predicate IsAlphanumeric(s: string) {
    forall i :: 0 <= i < |s| ==> 'A' <= s[i] <= 'Z' || 'a' <= s[i] <= 'z' || IsDigit(s[i])
  }

  predicate ContainsDigit(s: string) {
    exists i :: 0 <= i < |s| && IsDigit(s[i])
  }

  function ToUpper(s: string): string {
    seq(|s|, i requires 0 <= i < |s| => if 'a' <= s[i] <= 'z' then (s[i] - 'a') + 'A' else s[i])
  }

  /** A label's callsign, when its first word looks like one, and its description. */
  function ParseLabel(text0: string): (string, string) {
    var text := TrimSpace(text0);
    if text == "" then ("", "")
    else
      var space := Index(text, " ");
      var first := if space < 0 then text else text[..space];
      if 3 <= |first| <= 7 && IsAlphanumeric(first) && ContainsDigit(first) then
        (ToUpper(first), if space < 0 then "" else TrimSpace(text[space+1..]))
      else ("", text)
  }

  datatype Parse = Parse(favs: seq<ImportedFav>, seen: set<string>, pendingLabel: string)

  function AddFav(p: Parse, number: string, callsign: string, description: string): Parse {
    if IsNodeNumber(number) && number !in p.seen
    then p.(favs := p.favs + [ImportedFav(number, callsign, description)], seen := p.seen + {number})
    else p
  }

  function AfterPrefix(s: string, prefix: string): string {
    if prefix <= s then s[|prefix|..] else s
  }

  function LastField(line: string): Option<string> {
    var parts := Fields(line);
    if |parts| < 2 then None else Some(Trim(IsQuote, parts[|parts|-1]))
  }

  /** One line of the file. */
  function ParseLine(p: Parse, raw: string): Parse {
    var line := TrimSpace(raw);
    if line == "" || line[0] == ';' then p
    else if |line| >= 2 && line[0] == '[' && line[|line|-1] == ']' then
      var number := TrimSpace(AfterPrefix(line[1..|line|-1], "node_"));
      AddFav(p, number, "", "").(pendingLabel := "")
    else if "label[]" <= line then
      var eq := Index(line, "=");
      if eq >= 0 then p.(pendingLabel := Trim(IsQuote, TrimSpace(line[eq+1..]))) else p
    else if "cmd[]" <= line then
      match LastField(line)
      case None => p.(pendingLabel := "")
      case Some(last) =>
        var (callsign, description) := ParseLabel(p.pendingLabel);
        AddFav(p, last, callsign, description).(pendingLabel := "")
    else p
  }

  function ParseLines(p: Parse, lines: seq<string>): Parse
    decreases lines
  {
    if lines == [] then p else ParseLines(ParseLine(p, lines[0]), lines[1..])
  }

  const EMPTY := Parse([], {}, "")

  /** No two entries have the same number. */
  ghost predicate DistinctParsed(favs: seq<ImportedFav>) {
    forall i, j :: 0 <= i < j < |favs| ==> favs[i].number != favs[j].number
  }

  method ParseINI(data: string) returns (favs: seq<ImportedFav>)
    ensures favs == ParseLines(EMPTY, Lines(data)).favs
    ensures DistinctParsed(favs)
    ensures forall i :: 0 <= i < |favs| ==> IsNodeNumber(favs[i].number)
  {
    favs := [];
    var seen: set<string> := {};
    var pendingLabel := "";
    var lines := Lines(data);
    for i := 0 to |lines|
      invariant ParseLines(EMPTY, lines) == ParseLines(Parse(favs, seen, pendingLabel), lines[i..])
      invariant Tidy(Parse(favs, seen, pendingLabel))
    {
      ghost var before := Parse(favs, seen, pendingLabel);
      assert lines[i..][1..] == lines[i+1..];
      ParseLineTidy(before, lines[i]);
      var line := TrimSpace(lines[i]);
      if line == "" || line[0] == ';' { continue; }
      if |line| >= 2 && line[0] == '[' && line[|line|-1] == ']' {
        var number := TrimSpace(AfterPrefix(line[1..|line|-1], "node_"));
        if IsNodeNumber(number) && number !in seen {
          favs := favs + [ImportedFav(number, "", "")];
          seen := seen + {number};
        }
        pendingLabel := "";
        continue;
      }
      if "label[]" <= line {
        var eq := Index(line, "=");
        if eq >= 0 { pendingLabel := Trim(IsQuote, TrimSpace(line[eq+1..])); }
        continue;
      }
      if "cmd[]" <= line {
        var last := LastField(line);
        if last.Some? && IsNodeNumber(last.value) && last.value !in seen {
          var (callsign, description) := ParseLabel(pendingLabel);
          favs := favs + [ImportedFav(last.value, callsign, description)];
          seen := seen + {last.value};
        }
        pendingLabel := "";
      }
    }
  }

  // ---------------------------------------------------- every file: no repeats

  /** What every line keeps: numbers are node numbers, none is repeated, and `seen` holds them. */
  ghost predicate Tidy(p: Parse) {
    && DistinctParsed(p.favs)
    && (forall i :: 0 <= i < |p.favs| ==> IsNodeNumber(p.favs[i].number))
    && (forall n :: n in p.seen <==> exists f :: f in p.favs && f.number == n)
  }

  lemma AddFavTidy(p: Parse, number: string, callsign: string, description: string)
    requires Tidy(p)
    ensures Tidy(AddFav(p, number, callsign, description))
  {
    var q := AddFav(p, number, callsign, description);
    if q != p {
      var new_ := ImportedFav(number, callsign, description);
      assert forall f :: f in q.favs <==> f in p.favs || f == new_;
      forall i | 0 <= i < |p.favs| ensures p.favs[i].number != number {
        assert p.favs[i] in p.favs;
      }
    }
  }

  lemma ParseLineTidy(p: Parse, raw: string)
    requires Tidy(p)
    ensures Tidy(ParseLine(p, raw))
  {
    forall n, c, d ensures Tidy(AddFav(p, n, c, d)) { AddFavTidy(p, n, c, d); }
  }

  /** Whatever the file holds, no number comes out twice. */
  lemma {:induction false} ParsedNumbersDistinct(p: Parse, lines: seq<string>)
    requires Tidy(p)
    ensures Tidy(ParseLines(p, lines))
    decreases lines
  {
    if lines != [] {
      ParseLineTidy(p, lines[0]);
      ParsedNumbersDistinct(ParseLine(p, lines[0]), lines[1..]);
    }
  }
}
