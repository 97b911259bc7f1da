/** The string operations the style checker borrows from Python: `readlines` and
`writelines`, `strip` and `rstrip`, and `expandtabs`, with what the checker relies on. */
module StyleText {

  // ----- lines -----

  /** Length of the first line, its newline included. */
  function LineEnd(text: string): (n: nat)
    requires text != ""
    ensures 0 < n <= |text| && IsLine(text[..n])
    ensures n == |text| || text[n - 1] == '\n'
  {
    if text[0] == '\n' || |text| == 1 then 1 else
      var n := LineEnd(text[1..]);
      assert forall j :: 1 <= j < n ==> text[j] == text[1..][..n][j - 1];
      n + 1
  }

  function ReadLines(text: string): (lines: seq<string>)
    decreases |text|
  {
    if text == "" then [] else [text[..LineEnd(text)]] + ReadLines(text[LineEnd(text)..])
  }

  function WriteLines(lines: seq<string>): string {
    if lines == [] then "" else lines[0] + WriteLines(lines[1..])
  }

  /** A newline only at the end, if anywhere. */
  predicate IsLine(line: string) {
    line != "" && forall j :: 0 <= j < |line| - 1 ==> line[j] != '\n'
  }

  predicate Terminated(line: string) {
    line != "" && line[|line| - 1] == '\n'
  }

  /** What `readlines` can return: only the last line may lack its newline. */
  ghost predicate AreLines(lines: seq<string>) {
    && (forall i :: 0 <= i < |lines| ==> IsLine(lines[i]))
    && (forall i :: 0 <= i < |lines| - 1 ==> Terminated(lines[i]))
  }

  lemma ReadCons(text: string)
    requires text != ""
    ensures ReadLines(text) == [text[..LineEnd(text)]] + ReadLines(text[LineEnd(text)..])
  {
  }

  lemma WriteCons(line: string, rest: seq<string>)
    ensures WriteLines([line] + rest) == line + WriteLines(rest)
  {
    assert ([line] + rest)[1..] == rest;
  }

  lemma {:induction false} ReadLinesAreLines(text: string)
    ensures AreLines(ReadLines(text))
    decreases |text|
  {
    if text != "" {
      var n := LineEnd(text);
      ReadLinesAreLines(text[n..]);
      ReadCons(text);
      hide LineEnd, ReadLines;
      var rest := ReadLines(text[n..]);
      assert text[n..] == "" ==> rest == [] by { ReadNothing(); }
      AreLinesCons(text[..n], rest);
    }
  }

  lemma ReadNothing()
    ensures ReadLines("") == []
  {
  }

  lemma AreLinesCons(line: string, rest: seq<string>)
    requires IsLine(line) && AreLines(rest) && (rest != [] ==> Terminated(line))
    ensures AreLines([line] + rest)
  {
    hide IsLine, Terminated;
    var lines := [line] + rest;
    forall i | 0 <= i < |lines|
      ensures IsLine(lines[i]) && (i < |lines| - 1 ==> Terminated(lines[i]))
    {
      if i > 0 { assert lines[i] == rest[i - 1]; }
    }
  }

  lemma {:induction false} WriteRead(text: string)
    ensures WriteLines(ReadLines(text)) == text
    decreases |text|
  {
    if text != "" {
      var n := LineEnd(text);
      hide LineEnd, ReadLines, WriteLines;
      WriteRead(text[n..]);
      ReadCons(text);
      WriteCons(text[..n], ReadLines(text[n..]));
      assert text == text[..n] + text[n..];
    } else {
      ReadNothing();
    }
  }

  lemma {:induction false} LineEndOf(line: string, rest: string)
    requires IsLine(line) && (Terminated(line) || rest == "")
    ensures LineEnd(line + rest) == |line|
  {
    if |line| > 1 {
      assert (line + rest)[1..] == line[1..] + rest;
      LineEndOf(line[1..], rest);
    }
  }

  lemma {:induction false} ReadWrite(lines: seq<string>)
    requires AreLines(lines)
    ensures ReadLines(WriteLines(lines)) == lines
  {
    if lines != [] {
      var line, rest := lines[0], WriteLines(lines[1..]);
      ReadWrite(lines[1..]);
      assert rest == "" || Terminated(line);
      LineEndOf(line, rest);
      ReadCons(line + rest);
      hide LineEnd, ReadLines;
      assert (line + rest)[..|line|] == line && (line + rest)[|line|..] == rest;
      assert lines == [line] + lines[1..];
    }
  }

  // ----- whitespace -----

  /** The characters `str.strip` removes. */
  predicate IsSpace(c: char) {
    var n := c as int;
    || 0x09 <= n <= 0x0d || 0x1c <= n <= 0x20 || n == 0x85 || n == 0xa0 || n == 0x1680
    || 0x2000 <= n <= 0x200a || n == 0x2028 || n == 0x2029 || n == 0x202f || n == 0x205f || n == 0x3000
  }

  /** The same, character by character. */
  lemma SpacesListed(c: char)
    ensures c <= '~' ==> (IsSpace(c) <==> c in " \t\n\r" || c as int in {0x0b, 0x0c, 0x1c, 0x1d, 0x1e, 0x1f})
  {
  }

  ghost predicate Blank(s: string) {
    forall i :: 0 <= i < |s| ==> IsSpace(s[i])
  }

  /** Neither end is a space: what stripping leaves. */
  ghost predicate Tight(s: string) {
    s == "" || (!IsSpace(s[0]) && !IsSpace(s[|s| - 1]))
  }

  function RStrip(s: string): string {
    if s != "" && IsSpace(s[|s| - 1]) then RStrip(s[..|s| - 1]) else s
  }

  function LStrip(s: string): string {
    if s != "" && IsSpace(s[0]) then LStrip(s[1..]) else s
  }

  function Strip(s: string): string {
    LStrip(RStrip(s))
  }

  lemma {:induction false} RStripSplit(s: string) returns (tail: string)
    ensures s == RStrip(s) + tail && Blank(tail)
    ensures RStrip(s) == "" || !IsSpace(RStrip(s)[|RStrip(s)| - 1])
  {
    if s != "" && IsSpace(s[|s| - 1]) {
      var t := RStripSplit(s[..|s| - 1]);
      tail := t + [s[|s| - 1]];
    } else {
      tail := "";
    }
  }

  lemma {:induction false} LStripSplit(s: string) returns (head: string)
    ensures s == head + LStrip(s) && Blank(head)
    ensures LStrip(s) == "" || (!IsSpace(LStrip(s)[0]) && LStrip(s)[|LStrip(s)| - 1] == s[|s| - 1])
  {
    if s != "" && IsSpace(s[0]) {
      var h := LStripSplit(s[1..]);
      head := [s[0]] + h;
    } else {
      head := "";
    }
  }

  lemma StripSplit(s: string) returns (head: string, tail: string)
    ensures s == head + Strip(s) + tail && Blank(head) && Blank(tail) && Tight(Strip(s))
  {
    tail := RStripSplit(s);
    head := LStripSplit(RStrip(s));
  }

  lemma {:induction false} RStripOf(s: string, tail: string)
    requires Blank(tail) && (s == "" || !IsSpace(s[|s| - 1]))
    ensures RStrip(s + tail) == s
  {
    if tail == "" {
      assert s + tail == s;
    } else {
      assert (s + tail)[..|s + tail| - 1] == s + tail[..|tail| - 1];
      RStripOf(s, tail[..|tail| - 1]);
    }
  }

  lemma {:induction false} LStripOf(head: string, s: string)
    requires Blank(head) && (s == "" || !IsSpace(s[0]))
    ensures LStrip(head + s) == s
  {
    if head == "" {
      assert head + s == s;
    } else {
      assert (head + s)[1..] == head[1..] + s;
      LStripOf(head[1..], s);
    }
  }

  lemma StripOf(head: string, s: string, tail: string)
    requires Blank(head) && Blank(tail) && s != "" && Tight(s)
    ensures Strip(head + s + tail) == s
  {
    RStripOf(head + s, tail);
    LStripOf(head, s);
  }

  // ----- tabs -----

  const TAB_SIZE := 4

  function Spaces(n: nat): (s: string)
    ensures |s| == n && forall i :: 0 <= i < n ==> s[i] == ' '
  {
    if n == 0 then "" else Spaces(n - 1) + " "
  }

  /** The column after a character written at column `column`. */
  function NextColumn(c: char, column: nat): (r: nat) {
    if c == '\t' then column + (TAB_SIZE - column % TAB_SIZE)
    else if c == '\n' || c == '\r' then 0
    else column + 1
  }

  /** A tab leads to the next multiple of four; every other character of a line is one wide. */
  lemma TabStops(c: char, column: nat)
    ensures NextColumn('\t', column) % 4 == 0 && column < NextColumn('\t', column) <= column + 4
    ensures c != '\t' && c != '\n' && c != '\r' ==> NextColumn(c, column) == column + 1
    ensures c == '\n' || c == '\r' ==> NextColumn(c, column) == 0
  {
  }

  function ExpandFrom(line: string, column: nat): string {
    if line == "" then "" else
      var next := NextColumn(line[0], column);
      (if line[0] == '\t' then Spaces(next - column) else [line[0]]) + ExpandFrom(line[1..], next)
  }

  /** `line.expandtabs(TAB_SIZE)`. */
  function ExpandTabs(line: string): string {
    ExpandFrom(line, 0)
  }

  function EndColumn(line: string, column: nat): nat {
    if line == "" then column else EndColumn(line[1..], NextColumn(line[0], column))
  }

  /** What the eye sees of a line: each character other than blanks, and its column. */
  ghost function Glyphs(line: string, column: nat): seq<(char, nat)> {
    if line == "" then [] else
      (if line[0] == ' ' || line[0] == '\t' then [] else [(line[0], column)])
      + Glyphs(line[1..], NextColumn(line[0], column))
  }

  lemma {:induction false} ExpandHasNoTab(line: string, column: nat)
    ensures '\t' !in ExpandFrom(line, column)
  {
    if line != "" { ExpandHasNoTab(line[1..], NextColumn(line[0], column)); }
  }

  lemma {:induction false} ExpandWithoutTab(line: string, column: nat)
    requires '\t' !in line
    ensures ExpandFrom(line, column) == line
  {
    if line != "" { ExpandWithoutTab(line[1..], NextColumn(line[0], column)); }
  }

  lemma {:induction false} ExpandConcat(a: string, b: string, column: nat)
    ensures ExpandFrom(a + b, column) == ExpandFrom(a, column) + ExpandFrom(b, EndColumn(a, column))
  {
    if a == "" {
      assert a + b == b;
    } else {
      assert (a + b)[1..] == a[1..] + b;
      ExpandConcat(a[1..], b, NextColumn(a[0], column));
    }
  }

  lemma {:induction false} ExpandBlank(s: string, column: nat)
    requires Blank(s)
    ensures Blank(ExpandFrom(s, column))
  {
    if s != "" { ExpandBlank(s[1..], NextColumn(s[0], column)); }
  }

  /** Expansion never changes what a tab-free tight core strips to. */
  lemma ExpandKeepsStrip(line: string)
    requires Strip(line) != "" && '\t' !in Strip(line)
    ensures Strip(ExpandTabs(line)) == Strip(line)
  {
    var core := Strip(line);
    var head, tail := StripSplit(line);
    ExpandConcat(head + core, tail, 0);
    ExpandConcat(head, core, 0);
    ExpandWithoutTab(core, EndColumn(head, 0));
    ExpandBlank(head, 0);
    ExpandBlank(tail, EndColumn(head + core, 0));
    StripOf(ExpandFrom(head, 0), core, ExpandFrom(tail, EndColumn(head + core, 0)));
  }

  lemma {:induction false} GlyphsOfSpaces(n: nat, rest: string, column: nat)
    ensures Glyphs(Spaces(n) + rest, column) == Glyphs(rest, column + n)
    ensures EndColumn(Spaces(n) + rest, column) == EndColumn(rest, column + n)
  {
    if n == 0 {
      assert Spaces(n) + rest == rest;
    } else {
      assert (Spaces(n) + rest)[1..] == Spaces(n - 1) + rest;
      GlyphsOfSpaces(n - 1, rest, column + 1);
    }
  }

  /** Every character other than blanks keeps its place in the order and on the screen. */
  lemma {:induction false} ExpandKeepsGlyphs(line: string, column: nat)
    ensures Glyphs(ExpandFrom(line, column), column) == Glyphs(line, column)
    ensures EndColumn(ExpandFrom(line, column), column) == EndColumn(line, column)
  {
    if line != "" {
      var next, c := NextColumn(line[0], column), line[0];
      ExpandKeepsGlyphs(line[1..], next);
      var rest := ExpandFrom(line[1..], next);
      assert line == [c] + line[1..];
      if c == '\t' {
        assert ExpandFrom(line, column) == Spaces(next - column) + rest;
        assert Glyphs(line, column) == Glyphs(line[1..], next) && EndColumn(line, column) == EndColumn(line[1..], next);
        hide *;
        GlyphsOfSpaces(next - column, rest, column);
      } else {
        assert ExpandFrom(line, column) == [c] + rest;
        hide *;
        GlyphsCons(c, rest, column);
        GlyphsCons(c, line[1..], column);
      }
    }
  }

  lemma GlyphsCons(c: char, rest: string, column: nat)
    requires c != '\t'
    ensures Glyphs([c] + rest, column)
            == (if c == ' ' then [] else [(c, column)]) + Glyphs(rest, NextColumn(c, column))
    ensures EndColumn([c] + rest, column) == EndColumn(rest, NextColumn(c, column))
  {
    assert ([c] + rest)[1..] == rest;
  }

  lemma {:induction false} FirstGlyph(s: string, column: nat)
    requires '\t' !in s && s != "" && s[0] == ' '
    ensures Glyphs(s, column) == [] ==> EndColumn(s, column) > column
    ensures Glyphs(s, column) != [] ==> Glyphs(s, column)[0].1 > column
  {
    var rest := s[1..];
    if rest != "" && rest[0] == ' ' {
      FirstGlyph(rest, column + 1);
    }
  }

  /** A tab-free line is determined by what is seen of it and where it ends. */
  lemma {:induction false} TabFreeUnique(a: string, b: string, column: nat)
    requires '\t' !in a && '\t' !in b
    requires Glyphs(a, column) == Glyphs(b, column) && EndColumn(a, column) == EndColumn(b, column)
    ensures a == b
  {
    if a != "" { FirstStep(a, column); }
    if b != "" { FirstStep(b, column); }
    if a != "" && b != "" {
      var ga, gb := Glyphs(a, column), Glyphs(b, column);
      assert a[0] == b[0] by {
        if a[0] != ' ' { assert ga[0] == (a[0], column); }
        if b[0] != ' ' { assert gb[0] == (b[0], column); }
      }
      var next := NextColumn(a[0], column);
      if a[0] != ' ' {
        assert Glyphs(a[1..], next) == ga[1..] && Glyphs(b[1..], next) == gb[1..];
      }
      TabFreeUnique(a[1..], b[1..], next);
      assert a == [a[0]] + a[1..] && b == [b[0]] + b[1..];
    }
  }

  lemma FirstStep(s: string, column: nat)
    requires '\t' !in s && s != ""
    ensures '\t' !in s[1..]
    ensures var rest := Glyphs(s[1..], NextColumn(s[0], column));
            if s[0] == ' ' then
              && Glyphs(s, column) == rest
              && (rest == [] ==> EndColumn(s, column) > column)
              && (rest != [] ==> rest[0].1 > column)
            else
              Glyphs(s, column) == [(s[0], column)] + rest
  {
    if s[0] == ' ' { FirstGlyph(s, column); }
  }

  /** `expandtabs`, without its algorithm: the one tab-free line that looks the same. */
  lemma ExpandTabsCharacterised(line: string, r: string)
    ensures r == ExpandTabs(line) <==>
            '\t' !in r && Glyphs(r, 0) == Glyphs(line, 0) && EndColumn(r, 0) == EndColumn(line, 0)
  {
    ExpandHasNoTab(line, 0);
    ExpandKeepsGlyphs(line, 0);
    if '\t' !in r && Glyphs(r, 0) == Glyphs(line, 0) && EndColumn(r, 0) == EndColumn(line, 0) {
      TabFreeUnique(r, ExpandTabs(line), 0);
    }
  }
}
