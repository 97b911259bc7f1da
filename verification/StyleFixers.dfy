/** The two fixers of utils/check-style-clang-format.py that need no external tool, and the
order in which the driver runs them. */
module StyleFixers {
  import opened Sequences
  import opened StyleText

  const GUARD_ON := "// clang-format on"
  const GUARD_OFF := "// clang-format off"

  /** One verbose report: line and column, both counted from one, and the line shown. */
  datatype Info = Info(line: nat, column: nat, shown: string)

  // ----- a list overwritten in place, line by line -----

  /** The first `i` entries are already those of `target`, the others still those of `source`. */
  ghost predicate Spliced<T(!new)>(current: seq<T>, target: seq<T>, source: seq<T>, i: nat) {
    i <= |source| && |source| == |target| && current == target[..i] + source[i..]
  }

  lemma SpliceStart<T(!new)>(source: seq<T>, target: seq<T>)
    requires |source| == |target|
    ensures Spliced(source, target, source, 0)
  {
  }

  lemma SpliceStep<T(!new)>(current: seq<T>, target: seq<T>, source: seq<T>, i: nat)
    requires Spliced(current, target, source, i) && i < |source|
    ensures |current| == |source| && current[i] == source[i]
    ensures Spliced(current[i := target[i]], target, source, i + 1)
    ensures target[i] == source[i] ==> Spliced(current, target, source, i + 1)
  {
    assert current[i := target[i]] == target[..i + 1] + source[i + 1..];
    if target[i] == source[i] { assert current == current[i := target[i]]; }
  }

  lemma SpliceEnd<T(!new)>(current: seq<T>, target: seq<T>, source: seq<T>)
    requires Spliced(current, target, source, |source|)
    ensures current == target
  {
  }

  // ----- trailing whitespace -----

  function TrimLine(line: string): string {
    RStrip(line) + "\n"
  }

  ghost function TrimLines(lines: seq<string>): (r: seq<string>)
    ensures |r| == |lines| && forall i :: 0 <= i < |r| ==> r[i] == TrimLine(lines[i])
  {
    seq(|lines|, i requires 0 <= i < |lines| => TrimLine(lines[i]))
  }

  /** The last character is a newline and the one before it, if any, is no space. */
  ghost predicate Trimmed(line: string) {
    Terminated(line) && (|line| > 1 ==> !IsSpace(line[|line| - 2]))
  }

  ghost predicate TrimmedUpTo(lines: seq<string>, n: nat)
    requires n <= |lines|
  {
    forall i :: 0 <= i < n ==> Trimmed(lines[i])
  }

  /** A text whose every line is trimmed; so a missing final newline is an offence too. */
  ghost predicate AllTrimmed(text: string) {
    TrimmedUpTo(ReadLines(text), |ReadLines(text)|)
  }

  ghost function TrimText(text: string): string {
    WriteLines(TrimLines(ReadLines(text)))
  }

  ghost function TrimInfos(lines: seq<string>, n: nat): seq<Info>
    requires n <= |lines|
  {
    if n == 0 then [] else
      var shown := ExpandTabs(RStrip(TrimLine(lines[n - 1])));
      TrimInfos(lines, n - 1)
      + if Trimmed(lines[n - 1]) then [] else [Info(n, |shown| + 1, shown)]
  }

  /** The line the fixer writes is the line it found exactly when that line is trimmed. */
  lemma TrimLineFixed(line: string)
    requires IsLine(line)
    ensures TrimLine(line) == line <==> Trimmed(line)
  {
    if Trimmed(line) {
      var core := line[..|line| - 1];
      assert line == core + "\n";
      RStripOf(core, "\n");
    } else {
      var tail := RStripSplit(line);
      var core := RStrip(line);
      assert core != "" ==> (core + "\n")[|core + "\n"| - 2] == core[|core| - 1];
    }
  }

  lemma TrimLineTrimmed(line: string)
    requires IsLine(line)
    ensures Trimmed(TrimLine(line)) && IsLine(TrimLine(line))
  {
    var tail := RStripSplit(line);
    var core := RStrip(line);
    forall j | 0 <= j < |core|
      ensures core[j] != '\n'
    {
      assert core[j] == line[j];
      if j == |line| - 1 { assert core[|core| - 1] == line[j]; }
    }
  }

  /** No line ends in blanks, its newline aside. */
  ghost predicate NoTrailingBlanks(lines: seq<string>) {
    forall i :: 0 <= i < |lines| ==> EndsClean(lines[i])
  }

  ghost predicate EndsClean(line: string) {
    var n := if Terminated(line) then |line| - 1 else |line|;
    n == 0 || !IsSpace(line[n - 1])
  }

  lemma {:induction false} TextEnd(lines: seq<string>)
    requires lines != [] && AreLines(lines)
    ensures Terminated(WriteLines(lines)) <==> Terminated(lines[|lines| - 1])
  {
    if |lines| > 1 {
      TextEnd(lines[1..]);
      assert WriteLines(lines[1..]) != "";
    }
  }

  lemma LineTrimmedIff(line: string)
    ensures Trimmed(line) <==> Terminated(line) && EndsClean(line)
  {
  }

  lemma LinesTrimmedIff(lines: seq<string>)
    requires AreLines(lines)
    ensures TrimmedUpTo(lines, |lines|)
            <==> NoTrailingBlanks(lines) && (lines == [] || Terminated(lines[|lines| - 1]))
  {
    hide Trimmed, Terminated, EndsClean, IsLine;
    forall i | 0 <= i < |lines|
      ensures Trimmed(lines[i]) <==> Terminated(lines[i]) && EndsClean(lines[i])
    {
      LineTrimmedIff(lines[i]);
    }
  }

  /** The check accepts exactly the texts without trailing blanks that end with a newline. */
  lemma AllTrimmedIff(text: string)
    ensures AllTrimmed(text) <==> NoTrailingBlanks(ReadLines(text)) && (text == "" || Terminated(text))
  {
    hide TrimmedUpTo, NoTrailingBlanks, ReadLines, WriteLines, Terminated;
    ReadLinesAreLines(text);
    LinesTrimmedIff(ReadLines(text));
    WriteRead(text);
    WriteNothing();
    ReadNothing();
    if ReadLines(text) != [] { TextEnd(ReadLines(text)); }
  }

  /** A line without its newline is no trimmed line, so a text without a final newline fails
      the check although no line of it ends in blanks; the fix adds the newline. */
  lemma MissingNewline(line: string)
    requires IsLine(line) && !Terminated(line) && !IsSpace(line[|line| - 1])
    ensures ReadLines(line) == [line] && RStrip(line) == line
    ensures !AllTrimmed(line) && TrimText(line) == line + "\n"
  {
    assert [line] + [] == [line];
    ReadOneLine(line);
    WriteCons(TrimLine(line), []);
    assert TrimLines([line]) == [TrimLine(line)] + [];
  }

  method CheckTrailingWhitespaceFile(text: string, fix: bool, verbose: bool)
    returns (compliant: bool, written: string, infos: seq<Info>)
    ensures compliant <==> AllTrimmed(text)
    ensures written == if fix then TrimText(text) else text
    ensures infos == if verbose then TrimInfos(ReadLines(text), |ReadLines(text)|) else []
  {
    hide *;
    compliant, written, infos := true, text, [];
    var lines := ReadLines(text);
    var fileLines := lines;
    ghost var fixed := TrimLines(lines);
    SpliceStart(lines, fixed);
    TrimStart(lines);
    for i := 0 to |lines|
      invariant Spliced(fileLines, fixed, lines, i)
      invariant compliant <==> TrimmedUpTo(lines, i)
      invariant infos == if verbose then TrimInfos(lines, i) else []
      invariant compliant || fix || verbose
    {
      TrimStep(text, i);
      SpliceStep(fileLines, fixed, lines, i);
      var lineFixed := TrimLine(lines[i]);
      if lineFixed == lines[i] { continue; }
      compliant := false;
      fileLines := fileLines[i := lineFixed];
      if verbose {
        var shown := ExpandTabs(RStrip(lineFixed));
        infos := infos + [Info(i + 1, |shown| + 1, shown)];
      }
      if !fix && !verbose {
        TrimStops(text, i);
        return;
      }
    }
    SpliceEnd(fileLines, fixed, lines);
    TrimEnd(text);
    if fix && !compliant {
      written := WriteLines(fileLines);
    }
  }

  ghost function Untrimmed(lines: seq<string>, n: nat): set<nat>
    requires n <= |lines|
  {
    set i: nat | i < n && !Trimmed(lines[i])
  }

  /** A report of line `i`: its number counted from one, the line without its trailing blanks
      and with its tabs expanded, and the column just after it. */
  ghost predicate ReportsBlanks(info: Info, lines: seq<string>, i: nat) {
    i < |lines| && info.line == i + 1 && info.shown == ExpandTabs(RStrip(lines[i])) && info.column == |info.shown| + 1
  }

  ghost predicate TrimInfosAt(infos: seq<Info>, lines: seq<string>, idx: seq<nat>) {
    |infos| == |idx| && forall k :: 0 <= k < |idx| ==> ReportsBlanks(infos[k], lines, idx[k])
  }

  /** One report for each line that is not trimmed, in order, and no others. */
  lemma {:induction false} TrimInfosExact(lines: seq<string>, n: nat) returns (idx: seq<nat>)
    requires n <= |lines|
    ensures Lists(idx, Untrimmed(lines, n)) && TrimInfosAt(TrimInfos(lines, n), lines, idx)
  {
    TrimStart(lines);
    hide RStrip, ExpandTabs, TrimLine, Trimmed, TrimInfos, ReportsBlanks;
    if n == 0 {
      idx := [];
    } else {
      idx := TrimInfosExact(lines, n - 1);
      TrimReport(lines, n);
      if Trimmed(lines[n - 1]) {
        assert Untrimmed(lines, n) == Untrimmed(lines, n - 1);
      } else {
        ListsSnoc(idx, Untrimmed(lines, n - 1), n - 1);
        assert Untrimmed(lines, n) == Untrimmed(lines, n - 1) + {n - 1};
        idx := idx + [n - 1];
      }
    }
  }

  lemma TrimReport(lines: seq<string>, n: nat)
    requires 0 < n <= |lines|
    ensures Trimmed(lines[n - 1]) ==> TrimInfos(lines, n) == TrimInfos(lines, n - 1)
    ensures !Trimmed(lines[n - 1]) ==>
              exists info :: ReportsBlanks(info, lines, n - 1) && TrimInfos(lines, n) == TrimInfos(lines, n - 1) + [info]
  {
    TrimKeepsStrip(lines[n - 1]);
    hide RStrip, ExpandTabs, TrimLine, Trimmed;
    if !Trimmed(lines[n - 1]) {
      var shown := ExpandTabs(RStrip(TrimLine(lines[n - 1])));
      var info := Info(n, |shown| + 1, shown);
      assert ReportsBlanks(info, lines, n - 1);
      assert TrimInfos(lines, n) == TrimInfos(lines, n - 1) + [info];
    }
  }

  lemma TrimStart(lines: seq<string>)
    ensures TrimmedUpTo(lines, 0) && TrimInfos(lines, 0) == []
  {
  }

  /** One turn of the loop, on values. */
  lemma TrimStep(text: string, i: nat)
    requires i < |ReadLines(text)|
    ensures var lines := ReadLines(text);
            && (TrimLine(lines[i]) == lines[i] <==> Trimmed(lines[i]))
            && (TrimmedUpTo(lines, i + 1) <==> TrimmedUpTo(lines, i) && Trimmed(lines[i]))
            && var shown := ExpandTabs(RStrip(TrimLine(lines[i])));
               TrimInfos(lines, i + 1)
               == TrimInfos(lines, i) + (if Trimmed(lines[i]) then [] else [Info(i + 1, |shown| + 1, shown)])
  {
    ReadLinesAreLines(text);
    TrimLineFixed(ReadLines(text)[i]);
  }

  lemma TrimStops(text: string, i: nat)
    requires i < |ReadLines(text)| && !Trimmed(ReadLines(text)[i])
    ensures !AllTrimmed(text)
  {
  }

  lemma TrimEnd(text: string)
    ensures AllTrimmed(text) <==> TrimmedUpTo(ReadLines(text), |ReadLines(text)|)
    ensures TrimText(text) == WriteLines(TrimLines(ReadLines(text)))
    ensures AllTrimmed(text) ==> TrimText(text) == text
  {
    if AllTrimmed(text) { TrimOfTrimmed(text); }
  }

  // ----- tabs -----

  predicate IsGuard(line: string) {
    Strip(line) == GUARD_ON || Strip(line) == GUARD_OFF
  }

  /** Whether clang-format is on just after line `i - 1`. */
  ghost function EnabledAt(lines: seq<string>, i: nat): bool
    requires i <= |lines|
  {
    if i == 0 then true
    else if Strip(lines[i - 1]) == GUARD_ON then true
    else if Strip(lines[i - 1]) == GUARD_OFF then false
    else EnabledAt(lines, i - 1)
  }

  ghost predicate CheckedAt(lines: seq<string>, i: nat)
    requires i < |lines|
  {
    EnabledAt(lines, i + 1) || IsGuard(lines[i])
  }

  ghost function FixTabs(lines: seq<string>): (r: seq<string>)
    ensures |r| == |lines|
    ensures forall i :: 0 <= i < |r| ==> r[i] == if CheckedAt(lines, i) then ExpandTabs(lines[i]) else lines[i]
  {
    seq(|lines|, i requires 0 <= i < |lines| => if CheckedAt(lines, i) then ExpandTabs(lines[i]) else lines[i])
  }

  ghost predicate TabClean(lines: seq<string>, i: nat)
    requires i < |lines|
  {
    CheckedAt(lines, i) ==> '\t' !in lines[i]
  }

  ghost predicate CleanUpTo(lines: seq<string>, n: nat)
    requires n <= |lines|
  {
    forall i :: 0 <= i < n ==> TabClean(lines, i)
  }

  /** No tab in any line that the guards leave subject to the check. */
  ghost predicate NoTabs(text: string) {
    CleanUpTo(ReadLines(text), |ReadLines(text)|)
  }

  ghost function FixTabsText(text: string): string {
    WriteLines(FixTabs(ReadLines(text)))
  }

  function TabIndex(line: string): (k: int)
    ensures if '\t' in line then 0 <= k < |line| && line[k] == '\t' && '\t' !in line[..k] else k == -1
  {
    if line == "" then -1
    else if line[0] == '\t' then 0
    else
      var k := TabIndex(line[1..]);
      assert k >= 0 ==> line[..k + 1] == [line[0]] + line[1..][..k];
      if k == -1 then -1 else k + 1
  }

  ghost function TabInfos(lines: seq<string>, n: nat): seq<Info>
    requires n <= |lines|
  {
    if n == 0 then [] else
      TabInfos(lines, n - 1)
      + if TabClean(lines, n - 1) then [] else [Info(n, TabIndex(lines[n - 1]) + 1, RStrip(lines[n - 1]))]
  }

  method CheckTabsFile(text: string, fix: bool, verbose: bool)
    returns (compliant: bool, written: string, infos: seq<Info>)
    ensures compliant <==> NoTabs(text)
    ensures written == if fix then FixTabsText(text) else text
    ensures infos == if verbose then TabInfos(ReadLines(text), |ReadLines(text)|) else []
  {
    hide *;
    compliant, written, infos := true, text, [];
    var clangFormatEnabled := true;
    var lines := ReadLines(text);
    var fileLines := lines;
    ghost var fixed := FixTabs(lines);
    SpliceStart(lines, fixed);
    TabStart(lines);
    for i := 0 to |lines|
      invariant clangFormatEnabled == EnabledAt(lines, i)
      invariant Spliced(fileLines, fixed, lines, i)
      invariant compliant <==> CleanUpTo(lines, i)
      invariant infos == if verbose then TabInfos(lines, i) else []
      invariant compliant || fix || verbose
    {
      TabStep(lines, i);
      TabFix(lines, i);
      SpliceStep(fileLines, fixed, lines, i);
      var line := lines[i];
      var stripped := Strip(line);
      if stripped == GUARD_ON {
        clangFormatEnabled := true;
      } else if stripped == GUARD_OFF {
        clangFormatEnabled := false;
      }
      if !clangFormatEnabled && stripped != GUARD_ON && stripped != GUARD_OFF { continue; }
      var tabIndex := TabIndex(line);
      if tabIndex == -1 { continue; }
      compliant := false;
      fileLines := fileLines[i := ExpandTabs(line)];
      if verbose {
        infos := infos + [Info(i + 1, tabIndex + 1, RStrip(line))];
      }
      if !fix && !verbose {
        TabStops(text, i);
        return;
      }
    }
    SpliceEnd(fileLines, fixed, lines);
    TabEnd(text);
    if fix && !compliant {
      written := WriteLines(fileLines);
    }
  }

  ghost function Unclean(lines: seq<string>, n: nat): set<nat>
    requires n <= |lines|
  {
    set i: nat | i < n && !TabClean(lines, i)
  }

  /** A report of the first tab of line `i`: both counted from one, with the line as it is. */
  ghost predicate ReportsTab(info: Info, lines: seq<string>, i: nat) {
    && i < |lines| && info.line == i + 1 && 0 < info.column <= |lines[i]|
    && lines[i][info.column - 1] == '\t' && '\t' !in lines[i][..info.column - 1]
    && info.shown == RStrip(lines[i])
  }

  ghost predicate TabInfosAt(infos: seq<Info>, lines: seq<string>, idx: seq<nat>) {
    |infos| == |idx| && forall k :: 0 <= k < |idx| ==> ReportsTab(infos[k], lines, idx[k])
  }

  /** One report for each checked line with a tab, in order, and no others. */
  lemma {:induction false} TabInfosExact(lines: seq<string>, n: nat) returns (idx: seq<nat>)
    requires n <= |lines|
    ensures Lists(idx, Unclean(lines, n)) && TabInfosAt(TabInfos(lines, n), lines, idx)
  {
    if n == 0 {
      idx := [];
    } else {
      idx := TabInfosExact(lines, n - 1);
      hide RStrip, CheckedAt;
      if TabClean(lines, n - 1) {
        assert Unclean(lines, n) == Unclean(lines, n - 1);
      } else {
        ListsSnoc(idx, Unclean(lines, n - 1), n - 1);
        assert Unclean(lines, n) == Unclean(lines, n - 1) + {n - 1};
        idx := idx + [n - 1];
      }
    }
  }

  lemma TabStart(lines: seq<string>)
    ensures EnabledAt(lines, 0) && CleanUpTo(lines, 0) && TabInfos(lines, 0) == []
  {
  }

  /** One turn of the loop, on values. */
  lemma TabStep(lines: seq<string>, i: nat)
    requires i < |lines|
    ensures EnabledAt(lines, i + 1)
            == if Strip(lines[i]) == GUARD_ON then true
               else if Strip(lines[i]) == GUARD_OFF then false
               else EnabledAt(lines, i)
    ensures var seen := EnabledAt(lines, i + 1) || Strip(lines[i]) == GUARD_ON || Strip(lines[i]) == GUARD_OFF;
            && (TabClean(lines, i) <==> !seen || TabIndex(lines[i]) == -1)
            && (CleanUpTo(lines, i + 1) <==> CleanUpTo(lines, i) && TabClean(lines, i))
            && TabInfos(lines, i + 1)
               == TabInfos(lines, i)
                  + (if TabClean(lines, i) then [] else [Info(i + 1, TabIndex(lines[i]) + 1, RStrip(lines[i]))])
  {
    hide Strip, RStrip;
  }

  lemma TabFix(lines: seq<string>, i: nat)
    requires i < |lines|
    ensures FixTabs(lines)[i] == if TabClean(lines, i) then lines[i] else ExpandTabs(lines[i])
  {
    hide Strip, EnabledAt;
    if '\t' !in lines[i] { ExpandWithoutTab(lines[i], 0); }
  }

  lemma TabStops(text: string, i: nat)
    requires i < |ReadLines(text)| && !TabClean(ReadLines(text), i)
    ensures !NoTabs(text)
  {
  }

  lemma TabEnd(text: string)
    ensures NoTabs(text) <==> CleanUpTo(ReadLines(text), |ReadLines(text)|)
    ensures FixTabsText(text) == WriteLines(FixTabs(ReadLines(text)))
    ensures NoTabs(text) ==> FixTabsText(text) == text
  {
    if NoTabs(text) { FixTabsOfClean(text); }
  }

  // ----- a second pass over fixed tabs -----

  lemma ExpandKeepsGuard(line: string)
    requires IsGuard(line)
    ensures Strip(ExpandTabs(line)) == Strip(line)
  {
    ExpandKeepsStrip(line);
  }

  /** Expansion can create guards, but clang-format is never on in the second pass where it
      was off in the first. */
  lemma {:induction false} EnabledAgain(lines: seq<string>, i: nat)
    requires i <= |lines| && EnabledAt(FixTabs(lines), i)
    ensures EnabledAt(lines, i)
  {
    hide Strip, ExpandTabs;
    if i > 0 {
      if IsGuard(lines[i - 1]) {
        ExpandKeepsGuard(lines[i - 1]);
      } else if !EnabledAt(lines, i - 1) {
        assert FixTabs(lines)[i - 1] == lines[i - 1];
        EnabledAgain(lines, i - 1);
      }
    }
  }

  /** So every line the second pass checks was checked, and expanded, by the first. */
  lemma CheckedAgain(lines: seq<string>, i: nat)
    requires i < |lines| && CheckedAt(FixTabs(lines), i)
    ensures CheckedAt(lines, i) && '\t' !in FixTabs(lines)[i]
  {
    hide Strip, EnabledAt, ExpandFrom;
    if EnabledAt(FixTabs(lines), i + 1) { EnabledAgain(lines, i + 1); }
    ExpandHasNoTab(lines[i], 0);
  }

  lemma {:induction false} ExpandKeepsLine(line: string, column: nat)
    requires IsLine(line)
    ensures IsLine(ExpandFrom(line, column))
    ensures Terminated(ExpandFrom(line, column)) <==> Terminated(line)
  {
    if |line| > 1 {
      ExpandKeepsLine(line[1..], NextColumn(line[0], column));
    } else {
      assert line == [line[0]];
      assert ExpandFrom(line[1..], NextColumn(line[0], column)) == "";
    }
  }

  lemma FixTabsAreLines(lines: seq<string>)
    requires AreLines(lines)
    ensures AreLines(FixTabs(lines))
  {
    forall i | 0 <= i < |lines|
      ensures IsLine(FixTabs(lines)[i]) && (Terminated(FixTabs(lines)[i]) <==> Terminated(lines[i]))
    {
      ExpandKeepsLine(lines[i], 0);
    }
  }

  lemma FixTabsReadBack(text: string)
    ensures ReadLines(FixTabsText(text)) == FixTabs(ReadLines(text))
  {
    ReadLinesAreLines(text);
    FixTabsAreLines(ReadLines(text));
    ReadWrite(FixTabs(ReadLines(text)));
  }

  lemma FixTabsOfClean(text: string)
    requires NoTabs(text)
    ensures FixTabsText(text) == text
  {
    var lines := ReadLines(text);
    forall i | 0 <= i < |lines|
      ensures FixTabs(lines)[i] == lines[i]
    {
      assert TabClean(lines, i);
      if CheckedAt(lines, i) { ExpandWithoutTab(lines[i], 0); }
    }
    assert FixTabs(lines) == lines;
    WriteRead(text);
  }

  /** A fixed file passes the check, and fixing it again changes nothing. */
  lemma FixTabsIdempotent(text: string)
    ensures NoTabs(FixTabsText(text))
    ensures FixTabsText(FixTabsText(text)) == FixTabsText(text)
  {
    var lines := ReadLines(text);
    FixTabsReadBack(text);
    forall i | 0 <= i < |lines|
      ensures TabClean(FixTabs(lines), i)
    {
      if CheckedAt(FixTabs(lines), i) { CheckedAgain(lines, i); }
    }
    FixTabsOfClean(FixTabsText(text));
  }

  /** An indented comment whose third character is `c`. */
  function Comment(c: char, words: string): string {
    ['/', '/', c] + words
  }

  lemma CommentStrip(c: char, words: string)
    requires words != "" && !IsSpace(words[|words| - 1])
    ensures Strip(" " + Comment(c, words) + "\n") == Comment(c, words)
  {
    StripOf(" ", Comment(c, words), "\n");
  }

  lemma CommentExpand(words: string)
    requires '\t' !in words
    ensures ExpandTabs(" " + Comment('\t', words) + "\n") == " " + Comment(' ', words) + "\n"
  {
    hide ExpandFrom, EndColumn;
    var end := words + "\n";
    var head := [' ', '/', '/'];
    assert " " + Comment('\t', words) + "\n" == head + (['\t'] + end);
    assert " " + Comment(' ', words) + "\n" == head + ([' '] + end);
    ExpandConcat(head, ['\t'] + end, 0);
    ExpandWithoutTab(head, 0);
    ThreeColumns();
    TabAtThree(end);
    ExpandWithoutTab(end, 4);
  }

  lemma ThreeColumns()
    ensures EndColumn([' ', '/', '/'], 0) == 3
  {
    var head := [' ', '/', '/'];
    assert EndColumn(head, 0) == EndColumn(head[1..], 1) == EndColumn(head[1..][1..], 2);
  }

  lemma TabAtThree(end: string)
    ensures ExpandFrom(['\t'] + end, 3) == [' '] + ExpandFrom(end, 4)
  {
    assert (['\t'] + end)[1..] == end;
    assert Spaces(1) == [' '];
  }

  const TABBED_GUARD := " //\tclang-format off\n"

  lemma TabbedGuardParts(words: string)
    requires words == "clang-format off"
    ensures TABBED_GUARD == " " + Comment('\t', words) + "\n" && GUARD_OFF == Comment(' ', words)
  {
  }

  /** Expansion can make a guard of a line that was none: a tab between the slashes and the
      words, at column 3, becomes one space. */
  lemma NewGuard()
    ensures !IsGuard(TABBED_GUARD) && Strip(ExpandTabs(TABBED_GUARD)) == GUARD_OFF
  {
    var words := "clang-format off";
    TabbedGuardParts(words);
    assert words[|words| - 1] == 'f';
    assert Comment('\t', words)[2] == '\t' && GUARD_ON[2] == ' ' && GUARD_OFF[2] == ' ';
    hide *;
    CommentStrip('\t', words);
    CommentStrip(' ', words);
    CommentExpand(words);
  }

  /** Line `j` is checked, is no guard, and expands to the guard that switches checking off. */
  ghost predicate BecomesOff(lines: seq<string>, j: nat)
    requires j < |lines|
  {
    EnabledAt(lines, j + 1) && !IsGuard(lines[j]) && Strip(ExpandTabs(lines[j])) == GUARD_OFF
  }

  /** Both passes agree on whether clang-format is on just after line `i - 1`. */
  ghost predicate EnabledSame(lines: seq<string>, i: nat)
    requires i <= |lines|
  {
    EnabledAt(FixTabs(lines), i) == EnabledAt(lines, i)
  }

  lemma EnabledStep(lines: seq<string>, j: nat)
    requires j < |lines| && EnabledSame(lines, j)
    ensures EnabledSame(lines, j + 1) <==> !BecomesOff(lines, j)
  {
    hide Strip, ExpandTabs;
    if IsGuard(lines[j]) {
      ExpandKeepsGuard(lines[j]);
    } else if !EnabledAt(lines, j) {
      assert FixTabs(lines)[j] == lines[j];
    } else {
      assert FixTabs(lines)[j] == ExpandTabs(lines[j]);
    }
  }

  /** The two passes see clang-format on in the same places if and only if no checked line
      becomes an off guard. */
  lemma EnabledSameIff(lines: seq<string>)
    ensures (forall i :: 0 <= i <= |lines| ==> EnabledSame(lines, i))
            <==> forall j :: 0 <= j < |lines| ==> !BecomesOff(lines, j)
  {
    if forall i :: 0 <= i <= |lines| ==> EnabledSame(lines, i) {
      hide BecomesOff, EnabledSame;
      forall j | 0 <= j < |lines|
        ensures !BecomesOff(lines, j)
      {
        assert EnabledSame(lines, j) && EnabledSame(lines, j + 1);
        EnabledStep(lines, j);
      }
    }
    if forall j :: 0 <= j < |lines| ==> !BecomesOff(lines, j) {
      hide EnabledSame, BecomesOff;
      forall i | 0 <= i <= |lines|
        ensures EnabledSame(lines, i)
      {
        EnabledSameUpTo(lines, i);
      }
    }
  }

  lemma {:induction false} EnabledSameUpTo(lines: seq<string>, i: nat)
    requires i <= |lines| && forall j :: 0 <= j < |lines| ==> !BecomesOff(lines, j)
    ensures EnabledSame(lines, i)
  {
    hide BecomesOff, EnabledSame;
    if i == 0 {
      EnabledSameAtStart(lines);
    } else {
      EnabledSameUpTo(lines, i - 1);
      EnabledStep(lines, i - 1);
    }
  }

  lemma EnabledSameAtStart(lines: seq<string>)
    ensures EnabledSame(lines, 0)
  {
    hide FixTabs, Strip;
  }

  /** A file where fixing tabs switches checking off for the lines that follow: its second line
      is checked, and its tab fixed, by the first run, and not looked at by the second. */
  lemma FixSwitchesOff()
    ensures var text := TABBED_GUARD + "\tx\n";
            var before, after := ReadLines(text), ReadLines(FixTabsText(text));
            && |before| == |after| == 2
            && EnabledAt(before, 1) && CheckedAt(before, 1)
            && !EnabledAt(after, 1) && !CheckedAt(after, 1)
  {
    TabbedLine();
    TabbedX();
    hide *;
    ReadTwoLines(TABBED_GUARD, "\tx\n");
    FixTabsReadBack(TABBED_GUARD + "\tx\n");
    NewGuard();
    SecondLine([TABBED_GUARD, "\tx\n"]);
  }

  lemma TabbedLine()
    ensures IsLine(TABBED_GUARD) && Terminated(TABBED_GUARD)
  {
  }

  lemma TabbedX()
    ensures IsLine("\tx\n") && Strip("\tx\n") == "x"
  {
    assert "\tx\n" == "\t" + "x" + "\n";
    StripOf("\t", "x", "\n");
  }

  lemma ReadTwoLines(a: string, b: string)
    requires IsLine(a) && IsLine(b) && Terminated(a)
    ensures ReadLines(a + b) == [a, b]
  {
    hide ReadLines, WriteLines;
    WriteTwoLines(a, b);
    ReadWrite([a, b]);
  }

  lemma WriteNothing()
    ensures WriteLines([]) == ""
  {
  }

  lemma SecondLine(lines: seq<string>)
    requires |lines| == 2 && !IsGuard(lines[0]) && Strip(ExpandTabs(lines[0])) == GUARD_OFF
    requires Strip(lines[1]) == "x"
    ensures EnabledAt(lines, 1) && CheckedAt(lines, 1)
    ensures !EnabledAt(FixTabs(lines), 1) && !CheckedAt(FixTabs(lines), 1)
  {
    hide Strip, ExpandTabs;
    assert EnabledAt(lines, 1);
    assert CheckedAt(lines, 0);
    assert FixTabs(lines)[0] == ExpandTabs(lines[0]);
    ExpandKeepsStrip(lines[1]);
  }

  // ----- on given files -----

  /** A line with a blank at its end and one without a newline: both are reported and fixed. */
  method FixTwoLines() returns (compliant: bool, written: string, infos: seq<Info>)
    ensures !compliant && written == "a\nb\n" && infos == [Info(1, 2, "a"), Info(2, 2, "b")]
  {
    compliant, written, infos := CheckTrailingWhitespaceFile("a \nb", true, true);
    TwoOffences();
  }

  lemma TwoOffences()
    ensures !AllTrimmed("a \nb") && TrimText("a \nb") == "a\nb\n"
    ensures TrimInfos(ReadLines("a \nb"), |ReadLines("a \nb")|) == [Info(1, 2, "a"), Info(2, 2, "b")]
  {
    assert "a \nb" == ['a', ' ', '\n'] + ['b'] && "a\nb\n" == ['a'] + "\n" + (['b'] + "\n");
    Offence('a', ['a', ' ', '\n'], " \n");
    Offence('b', ['b'], "");
    ReadTwoLines(['a', ' ', '\n'], ['b']);
    hide ReadLines, WriteLines, RStrip, ExpandTabs, Trimmed, IsLine;
    WriteTwoLines(['a'] + "\n", ['b'] + "\n");
    TwoTrimmed(['a', ' ', '\n'], ['b'], ['a'], ['b']);
  }

  lemma Offence(c: char, line: string, tail: string)
    requires !IsSpace(c) && c != '\t' && line == [c] + tail && (tail == "" || tail == " \n")
    ensures IsLine(line) && !Trimmed(line) && RStrip(line) == [c] && ExpandTabs([c]) == [c]
  {
    RStripOf([c], tail);
    ExpandWithoutTab([c], 0);
    assert c != '\n' by { assert IsSpace('\n'); }
  }

  /** Two lines that need trimming. */
  lemma TwoTrimmed(x: string, y: string, a: string, b: string)
    requires RStrip(x) == a && RStrip(y) == b && !Trimmed(x) && !Trimmed(y)
    requires ExpandTabs(a) == a && ExpandTabs(b) == b
    ensures TrimLines([x, y]) == [a + "\n", b + "\n"]
    ensures TrimInfos([x, y], 2) == [Info(1, |a| + 1, a), Info(2, |b| + 1, b)]
  {
    TrimKeepsStrip(x);
    TrimKeepsStrip(y);
    hide Trimmed, RStrip, ExpandTabs;
    assert TrimInfos([x, y], 0) == [];
    assert TrimInfos([x, y], 1) == [Info(1, |a| + 1, a)];
  }

  lemma WriteTwoLines(a: string, b: string)
    ensures WriteLines([a, b]) == a + b
  {
    WriteCons(b, []);
    WriteCons(a, [b]);
    WriteNothing();
    assert [b] + [] == [b] && [a] + [b] == [a, b] && b + "" == b;
  }

  /** A file of one line that starts with a tab: the tab is the first character of the first
      line, and fixing makes four spaces of it. */
  method FixLeadingTab() returns (compliant: bool, written: string, infos: seq<Info>)
    ensures !compliant && written == "    x\n" && infos == [Info(1, 1, "\tx")]
  {
    compliant, written, infos := CheckTabsFile("\tx\n", true, true);
    LeadingTab();
  }

  lemma LeadingTab()
    ensures !NoTabs("\tx\n") && FixTabsText("\tx\n") == "    x\n"
    ensures TabInfos(ReadLines("\tx\n"), |ReadLines("\tx\n")|) == [Info(1, 1, "\tx")]
  {
    TabbedX();
    assert "\tx\n" == "\tx" + "\n";
    RStripOf("\tx", "\n");
    ExpandLeadingTab("x\n");
    assert ['\t'] + "x\n" == "\tx\n" && Spaces(4) + "x\n" == "    x\n";
    hide ExpandTabs, ExpandFrom, Strip, RStrip;
    OneTabbedLine("\tx\n", "    x\n");
  }

  lemma ExpandLeadingTab(rest: string)
    requires '\t' !in rest
    ensures ExpandTabs(['\t'] + rest) == Spaces(4) + rest
  {
    assert (['\t'] + rest)[1..] == rest;
    ExpandWithoutTab(rest, 4);
  }

  lemma OneTabbedLine(line: string, fixed: string)
    requires IsLine(line) && line[0] == '\t' && ExpandTabs(line) == fixed
    ensures !NoTabs(line) && FixTabsText(line) == fixed
    ensures TabInfos(ReadLines(line), |ReadLines(line)|) == [Info(1, 1, RStrip(line))]
  {
    ReadOneLine(line);
    FirstChecked(line);
    FirstTabbed(line);
    hide ExpandTabs, CheckedAt, RStrip, ReadLines, IsLine, WriteLines, TabInfos, TabClean;
    assert FixTabs([line]) == [fixed];
    WriteCons(fixed, []);
    WriteNothing();
    assert [fixed] + [] == [fixed] && fixed + "" == fixed;
  }

  lemma FirstTabbed(line: string)
    requires line != "" && line[0] == '\t' && CheckedAt([line], 0)
    ensures !TabClean([line], 0) && TabInfos([line], 1) == [Info(1, 1, RStrip(line))]
  {
    hide RStrip, CheckedAt;
    assert TabIndex(line) == 0;
    assert TabInfos([line], 0) == [];
  }

  /** The first line of a file is always checked. */
  lemma FirstChecked(line: string)
    ensures CheckedAt([line], 0)
  {
    hide Strip;
    assert EnabledAt([line], 0);
  }

  lemma ReadOneLine(line: string)
    requires IsLine(line)
    ensures ReadLines(line) == [line]
  {
    assert line + "" == line;
    LineEndOf(line, "");
  }

  /** A region that the guards exclude keeps its tab; the lines before and after lose theirs. */
  lemma FixGuarded()
    ensures FixTabsText("\ta\n" + ("// clang-format off\n" + ("\tb\n" + ("// clang-format on\n" + "\tc\n"))))
            == "    a\n" + ("// clang-format off\n" + ("\tb\n" + ("// clang-format on\n" + "    c\n")))
  {
    OffLine();
    OnLine();
    hide *;
    FixAround("// clang-format off\n", "// clang-format on\n");
  }

  lemma OffLine()
    ensures GuardsWith("// clang-format off\n", GUARD_OFF)
  {
    GuardLine("// clang-format off", "// clang-format off\n");
  }

  lemma OnLine()
    ensures GuardsWith("// clang-format on\n", GUARD_ON)
  {
    GuardLine("// clang-format on", "// clang-format on\n");
  }

  ghost predicate GuardsWith(line: string, guard: string) {
    IsLine(line) && Terminated(line) && Strip(line) == guard && ExpandTabs(line) == line
  }

  lemma FixAround(off: string, on: string)
    requires GuardsWith(off, GUARD_OFF) && GuardsWith(on, GUARD_ON)
    ensures FixTabsText("\ta\n" + (off + ("\tb\n" + (on + "\tc\n")))) == "    a\n" + (off + ("\tb\n" + (on + "    c\n")))
  {
    Letter('a', "\ta\n", "    a\n");
    Letter('b', "\tb\n", "    b\n");
    Letter('c', "\tc\n", "    c\n");
    hide IsLine, Terminated, Strip, ExpandTabs, FixTabsText;
    FixFive("\ta\n", off, "\tb\n", on, "\tc\n");
  }

  lemma GuardLine(guard: string, line: string)
    requires line == guard + "\n" && guard != "" && guard[0] == '/' && guard[|guard| - 1] in {'n', 'f'}
    requires '\t' !in guard && '\n' !in guard
    ensures GuardsWith(line, guard)
  {
    assert line == "" + guard + "\n";
    StripOf("", guard, "\n");
    ExpandWithoutTab(line, 0);
  }

  lemma Letter(c: char, line: string, fixed: string)
    requires 'a' <= c <= 'z' && line == ['\t', c, '\n'] && fixed == [' ', ' ', ' ', ' ', c, '\n']
    ensures IsLine(line) && Terminated(line) && Strip(line) == [c] && ExpandTabs(line) == fixed
  {
    assert line == "\t" + [c] + "\n" == ['\t'] + [c, '\n'];
    StripOf("\t", [c], "\n");
    ExpandLeadingTab([c, '\n']);
    assert fixed == Spaces(4) + [c, '\n'];
  }

  lemma FixFive(a: string, off: string, b: string, on: string, c: string)
    requires AllTerminated([a, off, b, on, c])
    requires |Strip(a)| == |Strip(b)| == |Strip(c)| == 1 && Strip(off) == GUARD_OFF && Strip(on) == GUARD_ON
    ensures FixTabsText(a + (off + (b + (on + c))))
            == ExpandTabs(a) + (ExpandTabs(off) + (b + (ExpandTabs(on) + ExpandTabs(c))))
  {
    var lines := [a, off, b, on, c];
    FiveChecked(lines);
    hide CheckedAt, Strip, ExpandTabs, WriteLines, ReadLines, IsLine, Terminated;
    assert FixTabs(lines) == [ExpandTabs(a), ExpandTabs(off), b, ExpandTabs(on), ExpandTabs(c)];
    WriteFive(a, off, b, on, c);
    WriteFive(ExpandTabs(a), ExpandTabs(off), b, ExpandTabs(on), ExpandTabs(c));
    ReadWrite(lines);
  }

  ghost predicate AllTerminated(lines: seq<string>) {
    forall i :: 0 <= i < |lines| ==> IsLine(lines[i]) && Terminated(lines[i])
  }

  lemma FiveChecked(lines: seq<string>)
    requires |lines| == 5 && |Strip(lines[0])| == |Strip(lines[2])| == |Strip(lines[4])| == 1
    requires Strip(lines[1]) == GUARD_OFF && Strip(lines[3]) == GUARD_ON
    ensures CheckedAt(lines, 0) && CheckedAt(lines, 1) && !CheckedAt(lines, 2) && CheckedAt(lines, 3) && CheckedAt(lines, 4)
  {
    hide Strip;
    assert EnabledAt(lines, 0) && EnabledAt(lines, 1) && !EnabledAt(lines, 2) && !EnabledAt(lines, 3);
    assert EnabledAt(lines, 4) && EnabledAt(lines, 5);
  }

  lemma WriteFive(a: string, b: string, c: string, d: string, e: string)
    ensures WriteLines([a, b, c, d, e]) == a + (b + (c + (d + e)))
  {
    WriteTwoLines(d, e);
    WriteCons(c, [d, e]);
    WriteCons(b, [c, d, e]);
    WriteCons(a, [b, c, d, e]);
    assert [c] + [d, e] == [c, d, e] && [b] + [c, d, e] == [b, c, d, e] && [a] + [b, c, d, e] == [a, b, c, d, e];
  }

  /** What fixing keeps: the number of lines; every line outside the checked regions; and, of
      the others, all that is seen of them. */
  lemma FixTabsPreserves(text: string)
    ensures var before, after := ReadLines(text), ReadLines(FixTabsText(text));
            && |after| == |before|
            && forall i :: 0 <= i < |before| ==>
                 && (!CheckedAt(before, i) ==> after[i] == before[i])
                 && Glyphs(after[i], 0) == Glyphs(before[i], 0)
                 && EndColumn(after[i], 0) == EndColumn(before[i], 0)
  {
    FixTabsReadBack(text);
    var before := ReadLines(text);
    forall i | 0 <= i < |before|
      ensures Glyphs(FixTabs(before)[i], 0) == Glyphs(before[i], 0)
      ensures EndColumn(FixTabs(before)[i], 0) == EndColumn(before[i], 0)
    {
      ExpandKeepsGlyphs(before[i], 0);
    }
  }

  // ----- both fixers -----

  lemma TrimReadBack(text: string)
    ensures ReadLines(TrimText(text)) == TrimLines(ReadLines(text))
  {
    var lines := ReadLines(text);
    ReadLinesAreLines(text);
    forall i | 0 <= i < |lines|
      ensures IsLine(TrimLines(lines)[i]) && Terminated(TrimLines(lines)[i])
    {
      TrimLineTrimmed(lines[i]);
    }
    ReadWrite(TrimLines(lines));
  }

  /** What trimming keeps: the number of lines, and of each line all but the blanks at its end. */
  lemma TrimPreserves(text: string)
    ensures var before, after := ReadLines(text), ReadLines(TrimText(text));
            && |after| == |before|
            && forall i :: 0 <= i < |before| ==> LosesBlanks(before[i], after[i])
  {
    TrimReadBack(text);
    forall i | 0 <= i < |ReadLines(text)|
      ensures LosesBlanks(ReadLines(text)[i], TrimLine(ReadLines(text)[i]))
    {
      TrimLosesBlanks(ReadLines(text)[i]);
    }
  }

  lemma TrimLosesBlanks(line: string)
    ensures LosesBlanks(line, TrimLine(line))
  {
    var tail := RStripSplit(line);
    var core := RStrip(line);
    assert Cut(line, core, tail);
  }

  /** `core` is `line` without `tail`, the blanks at its end. */
  ghost predicate Cut(line: string, core: string, tail: string) {
    line == core + tail && Blank(tail) && (core == "" || !IsSpace(core[|core| - 1]))
  }

  ghost predicate LosesBlanks(line: string, fixed: string) {
    exists core, tail :: Cut(line, core, tail) && fixed == core + "\n"
  }

  lemma TrimTextTrimmed(text: string)
    ensures AllTrimmed(TrimText(text))
  {
    TrimReadBack(text);
    ReadLinesAreLines(text);
    forall i | 0 <= i < |ReadLines(text)|
      ensures Trimmed(TrimLine(ReadLines(text)[i]))
    {
      TrimLineTrimmed(ReadLines(text)[i]);
    }
  }

  lemma TrimOfTrimmed(text: string)
    requires AllTrimmed(text)
    ensures TrimText(text) == text
  {
    var lines := ReadLines(text);
    ReadLinesAreLines(text);
    forall i | 0 <= i < |lines|
      ensures TrimLine(lines[i]) == lines[i]
    {
      TrimLineFixed(lines[i]);
    }
    assert TrimLines(lines) == lines;
    WriteRead(text);
  }

  lemma ExpandKeepsTrimmed(line: string)
    requires Trimmed(line)
    ensures Trimmed(ExpandTabs(line))
  {
    if |line| == 1 {
      ExpandWithoutTab(line, 0);
    } else {
      var head, c := line[..|line| - 2], line[|line| - 2];
      assert line == head + [c, '\n'];
      ExpandConcat(head, [c, '\n'], 0);
      ExpandWithoutTab([c, '\n'], EndColumn(head, 0));
    }
  }

  /** Expanding tabs leaves no new trailing whitespace behind. */
  lemma FixTabsKeepsTrimmed(text: string)
    requires AllTrimmed(text)
    ensures AllTrimmed(FixTabsText(text))
  {
    FixTabsReadBack(text);
    var lines := ReadLines(text);
    forall i | 0 <= i < |lines|
      ensures Trimmed(FixTabs(lines)[i])
    {
      assert Trimmed(lines[i]);
      ExpandKeepsTrimmed(lines[i]);
    }
  }

  /** The two fixes in the driver's order give a file that passes both checks. */
  lemma BothFixes(text: string)
    ensures AllTrimmed(FixTabsText(TrimText(text))) && NoTabs(FixTabsText(TrimText(text)))
  {
    TrimTextTrimmed(text);
    FixTabsKeepsTrimmed(TrimText(text));
    FixTabsIdempotent(TrimText(text));
  }

  // ----- the order of the two fixers does not matter -----

  /** The newline that trimming puts back is blank, so nothing that strips is changed. */
  lemma TrimKeepsStrip(line: string)
    ensures RStrip(TrimLine(line)) == RStrip(line)
    ensures Strip(TrimLine(line)) == Strip(line)
  {
    var tail := RStripSplit(line);
    RStripOf(RStrip(line), "\n");
  }

  lemma {:induction false} TrimKeepsEnabled(lines: seq<string>, i: nat)
    requires i <= |lines|
    ensures EnabledAt(TrimLines(lines), i) == EnabledAt(lines, i)
  {
    hide Strip, TrimLine;
    if i > 0 {
      TrimKeepsStrip(lines[i - 1]);
      TrimKeepsEnabled(lines, i - 1);
    }
  }

  /** Trimming before or after expansion: the same line. */
  lemma TrimExpandLine(line: string)
    ensures ExpandTabs(TrimLine(line)) == TrimLine(ExpandTabs(line))
  {
    var core := RStrip(line);
    var tail := RStripSplit(line);
    var column := EndColumn(core, 0);
    ExpandConcat(core, tail, 0);
    ExpandConcat(core, "\n", 0);
    ExpandWithoutTab("\n", column);
    ExpandBlank(tail, column);
    ExpandKeepsEnd(core);
    RStripOf(ExpandTabs(core), ExpandFrom(tail, column));
  }

  /** Expansion does not end a line with a blank that did not end with one. */
  lemma ExpandKeepsEnd(line: string)
    requires line == "" || !IsSpace(line[|line| - 1])
    ensures ExpandTabs(line) == "" || !IsSpace(ExpandTabs(line)[|ExpandTabs(line)| - 1])
  {
    if line != "" {
      var init, c := line[..|line| - 1], line[|line| - 1];
      assert line == init + [c];
      ExpandConcat(init, [c], 0);
      ExpandWithoutTab([c], EndColumn(init, 0));
    }
  }

  lemma FixesCommuteAt(lines: seq<string>, i: nat)
    requires i < |lines|
    ensures FixTabs(TrimLines(lines))[i] == TrimLines(FixTabs(lines))[i]
  {
    hide Strip, TrimLine, ExpandTabs, EnabledAt;
    TrimKeepsEnabled(lines, i + 1);
    TrimKeepsStrip(lines[i]);
    TrimExpandLine(lines[i]);
  }

  /** Whichever of the two fixes comes first, the file is the same in the end. */
  lemma FixesCommute(text: string)
    ensures TrimText(FixTabsText(text)) == FixTabsText(TrimText(text))
  {
    var lines := ReadLines(text);
    FixTabsReadBack(text);
    TrimReadBack(text);
    forall i | 0 <= i < |lines|
      ensures FixTabs(TrimLines(lines))[i] == TrimLines(FixTabs(lines))[i]
    {
      FixesCommuteAt(lines, i);
    }
    assert FixTabs(TrimLines(lines)) == TrimLines(FixTabs(lines));
  }

  // ----- the driver -----

  datatype Check = Whitespace | Tabs

  /** A file and which of the two checks its name selects it for. */
  datatype SourceFile = SourceFile(name: string, text: string, selected: set<Check>)

  ghost predicate Complies(check: Check, text: string) {
    match check
    case Whitespace => AllTrimmed(text)
    case Tabs => NoTabs(text)
  }

  ghost function FixFile(check: Check, file: SourceFile): SourceFile {
    if check !in file.selected then file else
      match check
      case Whitespace => file.(text := TrimText(file.text))
      case Tabs => file.(text := FixTabsText(file.text))
  }

  ghost function FixFiles(check: Check, files: seq<SourceFile>): (r: seq<SourceFile>)
    ensures |r| == |files| && forall i :: 0 <= i < |r| ==> r[i] == FixFile(check, files[i])
  {
    seq(|files|, i requires 0 <= i < |files| => FixFile(check, files[i]))
  }

  ghost predicate ComplyUpTo(check: Check, files: seq<SourceFile>, n: nat)
    requires n <= |files|
  {
    forall i :: 0 <= i < n && check in files[i].selected ==> Complies(check, files[i].text)
  }

  /** Every file the check is selected for complies with it. */
  ghost predicate AllComply(check: Check, files: seq<SourceFile>) {
    ComplyUpTo(check, files, |files|)
  }

  /** A file after a run of one check: only the text can change, and only by the fix, if the run
      fixes and the file is selected. */
  ghost predicate FileAfter(check: Check, fix: bool, before: SourceFile, after: SourceFile) {
    && after.name == before.name && after.selected == before.selected
    && after.text == if !fix || check !in before.selected then before.text
                     else if check == Whitespace then TrimText(before.text) else FixTabsText(before.text)
  }

  lemma FilesAfter(check: Check, files: seq<SourceFile>)
    ensures forall i :: 0 <= i < |files| ==> FileAfter(check, true, files[i], FixFiles(check, files)[i])
    ensures forall i :: 0 <= i < |files| ==> FileAfter(check, false, files[i], files[i])
  {
    hide TrimText, FixTabsText;
  }

  lemma Unselected(check: Check, file: SourceFile)
    ensures check !in file.selected ==> FixFile(check, file) == file
  {
  }

  /** The check function, as it is run on each selected file. */
  method CheckFile(file: SourceFile, check: Check, fix: bool, verbose: bool) returns (compliant: bool, after: SourceFile)
    requires check in file.selected
    ensures compliant <==> Complies(check, file.text)
    ensures after == if fix then FixFile(check, file) else file
  {
    hide AllTrimmed, NoTabs, TrimText, FixTabsText;
    var text, infos;
    match check {
      case Whitespace => compliant, text, infos := CheckTrailingWhitespaceFile(file.text, fix, verbose);
      case Tabs => compliant, text, infos := CheckTabsFile(file.text, fix, verbose);
    }
    after := file.(text := text);
  }

  method CheckStyleFile(files: seq<SourceFile>, check: Check, fix: bool, verbose: bool)
    returns (successful: bool, after: seq<SourceFile>)
    ensures successful <==> fix || AllComply(check, files)
    ensures after == if fix then FixFiles(check, files) else files
    ensures |after| == |files|
    ensures forall i :: 0 <= i < |files| ==> FileAfter(check, fix, files[i], after[i])
  {
    hide FileAfter, Spliced, ComplyUpTo, Complies, FixFile;
    var nonCompliant: seq<string> := [];
    after := files;
    ghost var target := if fix then FixFiles(check, files) else files;
    SpliceStart(files, target);
    ComplyStart(check, files);
    for i := 0 to |files|
      invariant Spliced(after, target, files, i)
      invariant nonCompliant == [] <==> ComplyUpTo(check, files, i)
    {
      ComplyStep(check, files, i);
      SpliceStep(after, target, files, i);
      Unselected(check, files[i]);
      if check !in files[i].selected { continue; }
      var compliant, file := CheckFile(files[i], check, fix, verbose);
      after := after[i := file];
      if !compliant { nonCompliant := nonCompliant + [files[i].name]; }
    }
    SpliceEnd(after, target, files);
    FilesAfter(check, files);
    successful := nonCompliant == [] || fix;
  }

  lemma ComplyStart(check: Check, files: seq<SourceFile>)
    ensures ComplyUpTo(check, files, 0)
  {
  }

  lemma ComplyStep(check: Check, files: seq<SourceFile>, i: nat)
    requires i < |files|
    ensures ComplyUpTo(check, files, i + 1)
            <==> ComplyUpTo(check, files, i) && (check in files[i].selected ==> Complies(check, files[i].text))
  {
  }

  ghost function AfterFix(files: seq<SourceFile>, enableWhitespace: bool, enableTabs: bool): seq<SourceFile> {
    var trimmed := if enableWhitespace then FixFiles(Whitespace, files) else files;
    if enableTabs then FixFiles(Tabs, trimmed) else trimmed
  }

  method CheckStyleClangFormat(files: seq<SourceFile>, enableWhitespace: bool, enableTabs: bool, fix: bool, verbose: bool)
    returns (successful: bool, after: seq<SourceFile>)
    ensures successful <==> fix || ((enableWhitespace ==> AllComply(Whitespace, files)) && (enableTabs ==> AllComply(Tabs, files)))
    ensures after == if fix then AfterFix(files, enableWhitespace, enableTabs) else files
    ensures |after| == |files|
    ensures forall i :: 0 <= i < |files| ==>
              && after[i].name == files[i].name && after[i].selected == files[i].selected
              && var trim, expand := fix && enableWhitespace && Whitespace in files[i].selected,
                                     fix && enableTabs && Tabs in files[i].selected;
                 after[i].text == if trim && expand then FixTabsText(TrimText(files[i].text))
                                  else if trim then TrimText(files[i].text)
                                  else if expand then FixTabsText(files[i].text)
                                  else files[i].text
  {
    hide AllComply, TrimText, FixTabsText;
    after := files;
    var whitespaceSuccessful, tabsSuccessful := true, true;
    if enableWhitespace {
      whitespaceSuccessful, after := CheckStyleFile(after, Whitespace, fix, verbose);
    }
    if enableTabs {
      tabsSuccessful, after := CheckStyleFile(after, Tabs, fix, verbose);
    }
    successful := whitespaceSuccessful && tabsSuccessful;
  }

  /** A fix run leaves nothing to complain about, whichever checks it enables and whichever
      files they select: a check run after it succeeds, and a second fix run changes nothing. */
  lemma FixRunSettles(files: seq<SourceFile>, enableWhitespace: bool, enableTabs: bool)
    ensures var after := AfterFix(files, enableWhitespace, enableTabs);
            && (enableWhitespace ==> AllComply(Whitespace, after))
            && (enableTabs ==> AllComply(Tabs, after))
            && AfterFix(after, enableWhitespace, enableTabs) == after
  {
    var after := AfterFix(files, enableWhitespace, enableTabs);
    forall i | 0 <= i < |files|
      ensures enableWhitespace && Whitespace in after[i].selected ==> AllTrimmed(after[i].text)
      ensures enableTabs && Tabs in after[i].selected ==> NoTabs(after[i].text)
    {
      var text := files[i].text;
      TrimTextTrimmed(text);
      FixTabsIdempotent(text);
      BothFixes(text);
    }
    if enableWhitespace { FixOfComplying(Whitespace, after); }
    if enableTabs { FixOfComplying(Tabs, after); }
  }

  lemma FixOfComplying(check: Check, files: seq<SourceFile>)
    requires AllComply(check, files)
    ensures FixFiles(check, files) == files
  {
    forall i | 0 <= i < |files| && check in files[i].selected
      ensures FixFile(check, files[i]) == files[i]
    {
      match check
      case Whitespace => TrimOfTrimmed(files[i].text);
      case Tabs => FixTabsOfClean(files[i].text);
    }
  }
}
