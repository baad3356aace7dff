/** INI files: grouping and printing on save, the line scanner on load. */
module Ini {
  import opened Common
  import opened Text

  /** One saved member; a null value is skipped. */
  datatype Entry = Entry(section: string, key: string, value: Option<string>, desc: string)

  datatype Group = Group(section: string, entries: seq<Entry>)

  // ---------------------------------------------------------------- saving

  /** Append to the group of the entry's section, or start that group at the end. */
  function AddEntry(groups: seq<Group>, e: Entry): seq<Group> {
    if groups == [] then [Group(e.section, [e])]
    else if groups[0].section == e.section then [Group(e.section, groups[0].entries + [e])] + groups[1..]
    else [groups[0]] + AddEntry(groups[1..], e)
  }

  function GroupsOf(entries: seq<Entry>): seq<Group> {
    if entries == [] then []
    else
      var before, e := GroupsOf(entries[..|entries| - 1]), entries[|entries| - 1];
      if e.value.None? then before else AddEntry(before, e)
  }

  function EntryLines(e: Entry): seq<string> {
    (if e.desc != "" then ["; " + e.desc] else []) + [e.key + "=" + if e.value.Some? then e.value.value else ""]
  }

  function GroupLines(g: Group): seq<string> {
    ["[" + g.section + "]"] + FlatMap(EntryLines, g.entries) + [""]
  }

  function Printed(groups: seq<Group>): seq<string> {
    FlatMap(GroupLines, groups)
  }

  // ---------------------------------------------------------------- looking up

  predicate IsSpace(c: char) {
    var n := c as int;
    9 <= n <= 13 || n == 32 || n == 0x85 || n == 0xA0 || n == 0x1680 || 0x2000 <= n <= 0x200A
    || n == 0x2028 || n == 0x2029 || n == 0x202F || n == 0x205F || n == 0x3000
  }

  predicate IsBracket(c: char) {
    c == '[' || c == ']'
  }

  function Trim(s: string): string {
    TrimBy(s, IsSpace)
  }

  /** What one line does to the search: move to a section, produce a value, or nothing. */
  datatype Effect = Skip | Section(matches: bool) | Found(value: string)

  function LineEffect(line: string, inSection: bool, section: string, key: string): Effect {
    var t := Trim(line);
    if t == "" || t[0] == ';' then Skip
    else if t[0] == '[' && t[|t| - 1] == ']' then Section(TrimBy(t, IsBracket) == section)
    else if inSection && '=' in t then
      var i := IndexOf(t, '=');
      if i < |t| && Trim(t[..i]) == key then Found(Trim(t[i + 1..])) else Skip
    else Skip
  }

  function Scan(lines: seq<string>, inSection: bool, section: string, key: string): Option<string> {
    if lines == [] then None
    else
      match LineEffect(lines[0], inSection, section, key)
      case Skip => Scan(lines[1..], inSection, section, key)
      case Section(matches) => Scan(lines[1..], matches, section, key)
      case Found(value) => Some(value)
  }

  /** The body of the scanner's loop. */
  method ReadLine(line: string, inSection: bool, section: string, key: string) returns (effect: Effect)
    ensures effect == LineEffect(line, inSection, section, key)
  {
    var trimmedLine := Trim(line);
    if trimmedLine == "" || trimmedLine[0] == ';' {
      return Skip;
    }
    if trimmedLine[0] == '[' && trimmedLine[|trimmedLine| - 1] == ']' {
      return Section(TrimBy(trimmedLine, IsBracket) == section);
    }
    if inSection && '=' in trimmedLine {
      var split := IndexOf(trimmedLine, '=');
      if split < |trimmedLine| && Trim(trimmedLine[..split]) == key {
        return Found(Trim(trimmedLine[split + 1..]));
      }
    }
    return Skip;
  }

  /** The scanner as it runs: one pass with a mutable section flag. */
  method GetIniValue(lines: seq<string>, section: string, key: string) returns (value: Option<string>)
    ensures value == Scan(lines, section == "", section, key)
  {
    var inSection := section == "";
    for i := 0 to |lines|
      invariant Scan(lines, section == "", section, key) == Scan(lines[i..], inSection, section, key)
    {
      assert lines[i..][1..] == lines[i + 1..];
      var effect := ReadLine(lines[i], inSection, section, key);
      if effect.Section? {
        inSection := effect.matches;
      } else if effect.Found? {
        return Some(effect.value);
      }
    }
    return None;
  }

  /** `Save` as it runs: fill the dictionary of lists, then write line by line. */
  method Save(entries: seq<Entry>) returns (lines: seq<string>)
    ensures lines == Printed(GroupsOf(entries))
  {
    var iniData: seq<Group> := [];
    for i := 0 to |entries|
      invariant iniData == GroupsOf(entries[..i])
    {
      assert entries[..i + 1][..i] == entries[..i];
      if entries[i].value.None? {
        continue;
      }
      iniData := AddEntry(iniData, entries[i]);
    }
    assert entries[..|entries|] == entries;
    lines := [];
    for g := 0 to |iniData|
      invariant lines == FlatMap(GroupLines, iniData[..g])
    {
      var section := iniData[g];
      var body := WriteGroup(section);
      assert FlatMap(GroupLines, [section]) == body;
      FlatMapConcat(GroupLines, iniData[..g], [section]);
      assert iniData[..g] + [section] == iniData[..g + 1];
      lines := lines + body;
    }
    assert iniData[..|iniData|] == iniData;
  }

  method WriteGroup(g: Group) returns (lines: seq<string>)
    ensures lines == GroupLines(g)
  {
    lines := ["[" + g.section + "]"];
    for i := 0 to |g.entries|
      invariant lines == ["[" + g.section + "]"] + FlatMap(EntryLines, g.entries[..i])
    {
      var e := g.entries[i];
      FlatMapConcat(EntryLines, g.entries[..i], [e]);
      assert FlatMap(EntryLines, [e]) == EntryLines(e);
      assert g.entries[..i] + [e] == g.entries[..i + 1];
      if e.desc != "" {
        lines := lines + ["; " + e.desc];
      }
      lines := lines + [e.key + "=" + if e.value.Some? then e.value.value else ""];
    }
    assert g.entries[..|g.entries|] == g.entries;
    lines := lines + [""];
  }

  // ---------------------------------------------------------------- what a lookup should find

  /** The first saved value for this section and key. */
  function First(entries: seq<Entry>, section: string, key: string): Option<string> {
    if entries == [] then None
    else if entries[0].section == section && entries[0].key == key && entries[0].value.Some? then entries[0].value
    else First(entries[1..], section, key)
  }

  function FirstOfGroups(groups: seq<Group>, section: string, key: string): Option<string> {
    if groups == [] then None
    else if groups[0].section == section then First(groups[0].entries, section, key)
    else FirstOfGroups(groups[1..], section, key)
  }

  lemma {:induction false} FirstOfConcat(xs: seq<Entry>, ys: seq<Entry>, section: string, key: string)
    ensures First(xs + ys, section, key) ==
            if First(xs, section, key).Some? then First(xs, section, key) else First(ys, section, key)
  {
    if xs == [] {
      assert xs + ys == ys;
    } else {
      assert (xs + ys)[0] == xs[0] && (xs + ys)[1..] == xs[1..] + ys;
      FirstOfConcat(xs[1..], ys, section, key);
    }
  }

  /** Groups have different sections, and each holds only entries of its own, with values. */
  ghost predicate Grouped(groups: seq<Group>) {
    && (forall i, j :: 0 <= i < j < |groups| ==> groups[i].section != groups[j].section)
    && forall i, k :: 0 <= i < |groups| && 0 <= k < |groups[i].entries| ==>
         groups[i].entries[k].section == groups[i].section && groups[i].entries[k].value.Some?
  }

  lemma {:induction false} AddEntryLookup(groups: seq<Group>, e: Entry, section: string, key: string)
    requires e.value.Some?
    ensures FirstOfGroups(AddEntry(groups, e), section, key) ==
            if FirstOfGroups(groups, section, key).Some? then FirstOfGroups(groups, section, key)
            else First([e], section, key)
  {
    if groups != [] {
      if groups[0].section == e.section {
        FirstOfConcat(groups[0].entries, [e], section, key);
      } else {
        AddEntryLookup(groups[1..], e, section, key);
      }
    }
  }

  lemma {:induction false} GroupingKeepsFirst(entries: seq<Entry>, section: string, key: string)
    ensures FirstOfGroups(GroupsOf(entries), section, key) == First(entries, section, key)
  {
    if entries != [] {
      var before, e := entries[..|entries| - 1], entries[|entries| - 1];
      GroupingKeepsFirst(before, section, key);
      FirstOfConcat(before, [e], section, key);
      assert before + [e] == entries;
      if e.value.Some? {
        AddEntryLookup(GroupsOf(before), e, section, key);
      }
    }
  }

  // ---------------------------------------------------------------- well-formed entries, line by line

  /** Taken together they are a line that starts like a section header and ends like one. */
  predicate LooksLikeHeader(key: string, value: string) {
    key != "" && key[0] == '[' && value != "" && value[|value| - 1] == ']'
  }

  predicate WellFormed(e: Entry) {
    && TrimmedBy(e.key, IsSpace) && '=' !in e.key && (e.key != "" ==> e.key[0] != ';')
    && (e.value.Some? ==> TrimmedBy(e.value.value, IsSpace) && !LooksLikeHeader(e.key, e.value.value))
    && TrimmedBy(e.section, IsBracket)
  }

  lemma HeaderEffect(name: string, inSection: bool, section: string, key: string)
    requires TrimmedBy(name, IsBracket)
    ensures LineEffect("[" + name + "]", inSection, section, key) == Section(name == section)
  {
    TrimOfTrimmed("[" + name + "]", IsSpace);
    TrimOfPadded("[", name, "]", IsBracket);
  }

  lemma CommentEffect(desc: string, inSection: bool, section: string, key: string)
    ensures LineEffect("; " + desc, inSection, section, key) == Skip
  {
    TrimShape("; " + desc, IsSpace);
  }

  lemma FirstEquals(left: string, right: string)
    requires '=' !in left
    ensures '=' in left + "=" + right && IndexOf(left + "=" + right, '=') == |left|
    ensures (left + "=" + right)[..|left|] == left && (left + "=" + right)[|left| + 1..] == right
  {
    var t := left + "=" + right;
    assert t[|left|] == '=';
    assert forall j :: 0 <= j < |left| ==> t[j] == left[j] && left[j] in left;
  }

  /** The part of a line before the equals sign, blanks around the key included. */
  lemma LeftOfEquals(key: string, start: string, beforeEq: string)
    requires TrimmedBy(key, IsSpace) && '=' !in key && AllAre(start, IsSpace) && AllAre(beforeEq, IsSpace)
    ensures var left := TrimStart(start + key + beforeEq, IsSpace);
            Trim(left) == key && '=' !in left && if key == "" then left == "" else left != "" && left[0] == key[0]
  {
    if key == "" {
      assert start + key + beforeEq == start + beforeEq + "";
      TrimStartOfPadded(start + beforeEq, "", IsSpace);
    } else {
      assert start + key + beforeEq == start + (key + beforeEq);
      TrimStartOfPadded(start, key + beforeEq, IsSpace);
      assert key + beforeEq == "" + key + beforeEq;
      TrimOfPadded("", key, beforeEq, IsSpace);
    }
  }

  /** And the part after it. */
  lemma RightOfEquals(value: string, afterEq: string, end: string)
    requires TrimmedBy(value, IsSpace) && AllAre(afterEq, IsSpace) && AllAre(end, IsSpace)
    ensures var right := TrimEnd(afterEq + value + end, IsSpace);
            Trim(right) == value &&
            if value == "" then right == "" else right != "" && right[|right| - 1] == value[|value| - 1]
  {
    if value == "" {
      assert afterEq + value + end == "" + (afterEq + end);
      TrimEndOfPadded("", afterEq + end, IsSpace);
    } else {
      TrimEndOfPadded(afterEq + value, end, IsSpace);
      assert afterEq + value == afterEq + value + "";
      TrimOfPadded(afterEq, value, "", IsSpace);
    }
  }

  lemma PairIsNoHeader(left: string, right: string)
    requires left != "" ==> left[0] != ';'
    requires left != "" && right != "" ==> left[0] != '[' || right[|right| - 1] != ']'
    ensures var t := left + "=" + right; t != "" && t[0] != ';' && (t[0] != '[' || t[|t| - 1] != ']')
  {
    var t := left + "=" + right;
    assert t[0] == if left == "" then '=' else left[0];
    assert t[|t| - 1] == if right == "" then '=' else right[|right| - 1];
  }

  lemma PairEffect(e: Entry, line: string, left: string, right: string, inSection: bool, section: string, key: string)
    requires WellFormed(e) && e.value.Some?
    requires Trim(line) == left + "=" + right && Trim(left) == e.key && Trim(right) == e.value.value && '=' !in left
    requires if e.key == "" then left == "" else left != "" && left[0] == e.key[0]
    requires if e.value.value == "" then right == "" else right != "" && right[|right| - 1] == e.value.value[|e.value.value| - 1]
    ensures LineEffect(line, inSection, section, key) == if inSection && e.key == key then Found(e.value.value) else Skip
  {
    FirstEquals(left, right);
    PairIsNoHeader(left, right);
  }

  /** A line with an entry, with any blanks around the key and the value: it matters only whose key it is. */
  lemma SpacedEntryEffect(e: Entry, start: string, beforeEq: string, afterEq: string, end: string,
                          inSection: bool, section: string, key: string)
    requires WellFormed(e) && e.value.Some?
    requires AllAre(start, IsSpace) && AllAre(beforeEq, IsSpace) && AllAre(afterEq, IsSpace) && AllAre(end, IsSpace)
    ensures LineEffect((start + e.key + beforeEq) + "=" + (afterEq + e.value.value + end), inSection, section, key) ==
            if inSection && e.key == key then Found(e.value.value) else Skip
  {
    var left, right := start + e.key + beforeEq, afterEq + e.value.value + end;
    LeftOfEquals(e.key, start, beforeEq);
    RightOfEquals(e.value.value, afterEq, end);
    TrimAround(left, '=', right, IsSpace);
    PairEffect(e, left + "=" + right, TrimStart(left, IsSpace), TrimEnd(right, IsSpace), inSection, section, key);
  }

  lemma EntryEffect(e: Entry, inSection: bool, section: string, key: string)
    requires WellFormed(e) && e.value.Some?
    ensures LineEffect(e.key + "=" + e.value.value, inSection, section, key) ==
            if inSection && e.key == key then Found(e.value.value) else Skip
  {
    SpacedEntryEffect(e, "", "", "", "", inSection, section, key);
    assert "" + e.key + "" == e.key && "" + e.value.value + "" == e.value.value;
  }

  /** Blanks around any line, whatever it says, make no difference. */
  lemma SpacedLineEffect(line: string, start: string, end: string, inSection: bool, section: string, key: string)
    requires TrimmedBy(line, IsSpace) && AllAre(start, IsSpace) && AllAre(end, IsSpace)
    ensures LineEffect(start + line + end, inSection, section, key) == LineEffect(line, inSection, section, key)
  {
    TrimOfPadded(start, line, end, IsSpace);
    TrimOfTrimmed(line, IsSpace);
  }

  // ---------------------------------------------------------------- scanning what was saved

  lemma ScanEntry(e: Entry, rest: seq<string>, inSection: bool, section: string, key: string)
    requires WellFormed(e) && e.value.Some?
    ensures Scan(EntryLines(e) + rest, inSection, section, key) ==
            if inSection && e.key == key then e.value else Scan(rest, inSection, section, key)
  {
    var line := e.key + "=" + e.value.value;
    EntryEffect(e, inSection, section, key);
    assert ([line] + rest)[1..] == rest;
    if e.desc != "" {
      CommentEffect(e.desc, inSection, section, key);
      assert (EntryLines(e) + rest)[1..] == [line] + rest;
    } else {
      assert EntryLines(e) + rest == [line] + rest;
    }
  }

  lemma {:induction false} ScanEntries(es: seq<Entry>, rest: seq<string>, inSection: bool, section: string, key: string)
    requires forall k :: 0 <= k < |es| ==> WellFormed(es[k]) && es[k].value.Some?
    requires inSection ==> forall k :: 0 <= k < |es| ==> es[k].section == section
    ensures Scan(FlatMap(EntryLines, es) + rest, inSection, section, key) ==
            if inSection && First(es, section, key).Some? then First(es, section, key)
            else Scan(rest, inSection, section, key)
  {
    if es == [] {
      assert FlatMap(EntryLines, es) + rest == rest;
    } else {
      var tail := FlatMap(EntryLines, es[1..]) + rest;
      PrependAssociates(EntryLines(es[0]), FlatMap(EntryLines, es[1..]), rest);
      ScanEntry(es[0], tail, inSection, section, key);
      ScanEntries(es[1..], rest, inSection, section, key);
    }
  }

  lemma ScanGroup(g: Group, rest: seq<string>, inSection: bool, section: string, key: string)
    requires TrimmedBy(g.section, IsBracket)
    requires forall k :: 0 <= k < |g.entries| ==>
               WellFormed(g.entries[k]) && g.entries[k].value.Some? && g.entries[k].section == g.section
    ensures Scan(GroupLines(g) + rest, inSection, section, key) ==
            if g.section == section && First(g.entries, section, key).Some? then First(g.entries, section, key)
            else Scan(rest, g.section == section, section, key)
  {
    var header := "[" + g.section + "]";
    var body := FlatMap(EntryLines, g.entries) + ([""] + rest);
    assert GroupLines(g) + rest == [header] + body;
    assert ([header] + body)[0] == header && ([header] + body)[1..] == body;
    HeaderEffect(g.section, inSection, section, key);
    ScanEntries(g.entries, [""] + rest, g.section == section, section, key);
    assert ([""] + rest)[1..] == rest;
  }

  /** The groups are as `Save` builds them, and every entry in them is well formed. */
  ghost predicate Printable(groups: seq<Group>) {
    && Grouped(groups)
    && (forall i :: 0 <= i < |groups| ==> TrimmedBy(groups[i].section, IsBracket))
    && forall i, k :: 0 <= i < |groups| && 0 <= k < |groups[i].entries| ==> WellFormed(groups[i].entries[k])
  }

  lemma {:induction false} AbsentSection(groups: seq<Group>, section: string, key: string)
    requires forall i :: 0 <= i < |groups| ==> groups[i].section != section
    ensures FirstOfGroups(groups, section, key) == None
  {
    if groups != [] {
      AbsentSection(groups[1..], section, key);
    }
  }

  lemma {:induction false} ScanPrinted(groups: seq<Group>, inSection: bool, section: string, key: string)
    requires Printable(groups)
    ensures Scan(Printed(groups), inSection, section, key) == FirstOfGroups(groups, section, key)
  {
    if groups != [] {
      var g, others := groups[0], groups[1..];
      assert Printable(others) by {
        assert forall i :: 0 <= i < |others| ==> others[i] == groups[i + 1];
      }
      ScanGroup(g, Printed(others), inSection, section, key);
      ScanPrinted(others, g.section == section, section, key);
      if g.section == section {
        AbsentSection(others, section, key);
      }
    }
  }

  /** Adding an entry brings in no section but its own. */
  lemma {:induction false} AddEntryAvoids(groups: seq<Group>, e: Entry, section: string)
    requires e.section != section && forall i :: 0 <= i < |groups| ==> groups[i].section != section
    ensures forall i :: 0 <= i < |AddEntry(groups, e)| ==> AddEntry(groups, e)[i].section != section
  {
    if groups != [] && groups[0].section != e.section {
      AddEntryAvoids(groups[1..], e, section);
    }
  }

  lemma PrintableRest(groups: seq<Group>)
    requires Printable(groups) && groups != []
    ensures Printable(groups[1..]) && forall i :: 0 <= i < |groups[1..]| ==> groups[1..][i].section != groups[0].section
  {
    assert forall i :: 0 <= i < |groups[1..]| ==> groups[1..][i] == groups[i + 1];
  }

  lemma PrintableCons(g: Group, others: seq<Group>)
    requires Printable([g]) && Printable(others) && forall i :: 0 <= i < |others| ==> others[i].section != g.section
    ensures Printable([g] + others)
  {
    assert [g][0] == g;
    assert forall i :: 1 <= i < |[g] + others| ==> ([g] + others)[i] == others[i - 1];
  }

  lemma PrintableFirst(groups: seq<Group>, e: Entry)
    requires Printable(groups) && groups != [] && WellFormed(e) && e.value.Some?
    ensures Printable([groups[0]])
    ensures groups[0].section == e.section ==> Printable([Group(e.section, groups[0].entries + [e])])
  {
  }

  lemma {:induction false} AddEntryGrouped(groups: seq<Group>, e: Entry)
    requires Printable(groups) && WellFormed(e) && e.value.Some?
    ensures Printable(AddEntry(groups, e))
  {
    if groups != [] {
      PrintableRest(groups);
      PrintableFirst(groups, e);
      if groups[0].section == e.section {
        PrintableCons(Group(e.section, groups[0].entries + [e]), groups[1..]);
      } else {
        AddEntryGrouped(groups[1..], e);
        AddEntryAvoids(groups[1..], e, groups[0].section);
        PrintableCons(groups[0], AddEntry(groups[1..], e));
      }
    }
  }

  lemma {:induction false} GroupsPrintable(entries: seq<Entry>)
    requires forall i :: 0 <= i < |entries| && entries[i].value.Some? ==> WellFormed(entries[i])
    ensures Printable(GroupsOf(entries))
  {
    if entries != [] {
      GroupsPrintable(entries[..|entries| - 1]);
      if entries[|entries| - 1].value.Some? {
        AddEntryGrouped(GroupsOf(entries[..|entries| - 1]), entries[|entries| - 1]);
      }
    }
  }

  /** Looking up a section and key in the lines `Save` writes gives the first value saved for them, or nothing. */
  lemma ScanFindsFirstSaved(entries: seq<Entry>, section: string, key: string)
    requires forall i :: 0 <= i < |entries| && entries[i].value.Some? ==> WellFormed(entries[i])
    ensures Scan(Printed(GroupsOf(entries)), section == "", section, key) == First(entries, section, key)
  {
    GroupsPrintable(entries);
    ScanPrinted(GroupsOf(entries), section == "", section, key);
    GroupingKeepsFirst(entries, section, key);
  }

  // ---------------------------------------------------------------- through the text of the file

  predicate IsLineBreak(c: char) {
    c == '\n' || c == '\r'
  }

  predicate OneLine(s: string) {
    forall i :: 0 <= i < |s| ==> !IsLineBreak(s[i])
  }

  function LineEnd(s: string): (i: nat)
    ensures i <= |s| && (i < |s| ==> IsLineBreak(s[i])) && forall j :: 0 <= j < i ==> !IsLineBreak(s[j])
  {
    if s == "" || IsLineBreak(s[0]) then 0 else 1 + LineEnd(s[1..])
  }

  /** `WriteLine` for each line, with the platform's line break. */
  function FileText(lines: seq<string>, newLine: string): string {
    if lines == [] then "" else lines[0] + newLine + FileText(lines[1..], newLine)
  }

  /** `ReadAllLines`: `\n`, `\r` and `\r\n` each end a line, and a final empty line is not reported. */
  function ReadAllLines(text: string): seq<string>
    decreases |text|
  {
    if text == "" then []
    else
      var i := LineEnd(text);
      if i == |text| then [text]
      else if text[i] == '\r' && i + 1 < |text| && text[i + 1] == '\n' then [text[..i]] + ReadAllLines(text[i + 2..])
      else [text[..i]] + ReadAllLines(text[i + 1..])
  }

  lemma {:induction false} LinesSurviveFile(lines: seq<string>, newLine: string)
    requires newLine == "\n" || newLine == "\r\n"
    requires forall i :: 0 <= i < |lines| ==> OneLine(lines[i])
    ensures ReadAllLines(FileText(lines, newLine)) == lines
    decreases |lines|
  {
    if lines != [] {
      var line, rest := lines[0], FileText(lines[1..], newLine);
      var text := FileText(lines, newLine);
      assert text == line + newLine + rest;
      assert forall j :: 0 <= j < |line| ==> text[j] == line[j];
      assert text[|line|] == newLine[0];
      assert LineEnd(text) == |line|;
      assert text[..|line|] == line && text[|line| + |newLine|..] == rest;
      LinesSurviveFile(lines[1..], newLine);
    }
  }

  // ---------------------------------------------------------------- what a lookup finds in the saved file

  predicate OneLineEntry(e: Entry) {
    OneLine(e.section) && OneLine(e.key) && OneLine(e.desc) && (e.value.Some? ==> OneLine(e.value.value))
  }

  ghost predicate OneLineGroup(g: Group) {
    OneLine(g.section) && forall k :: 0 <= k < |g.entries| ==> OneLineEntry(g.entries[k])
  }

  ghost predicate AllOneLine(lines: seq<string>) {
    forall i :: 0 <= i < |lines| ==> OneLine(lines[i])
  }

  lemma {:induction false} EntriesPrintOneLines(es: seq<Entry>)
    requires forall k :: 0 <= k < |es| ==> OneLineEntry(es[k])
    ensures AllOneLine(FlatMap(EntryLines, es))
  {
    if es != [] {
      EntriesPrintOneLines(es[1..]);
      assert AllOneLine(EntryLines(es[0]));
    }
  }

  lemma {:induction false} GroupsPrintOneLines(groups: seq<Group>)
    requires forall i :: 0 <= i < |groups| ==> OneLineGroup(groups[i])
    ensures AllOneLine(Printed(groups))
  {
    if groups != [] {
      GroupsPrintOneLines(groups[1..]);
      EntriesPrintOneLines(groups[0].entries);
      assert AllOneLine(GroupLines(groups[0]));
    }
  }

  lemma {:induction false} AddEntryOneLine(groups: seq<Group>, e: Entry)
    requires OneLineEntry(e) && forall i :: 0 <= i < |groups| ==> OneLineGroup(groups[i])
    ensures forall i :: 0 <= i < |AddEntry(groups, e)| ==> OneLineGroup(AddEntry(groups, e)[i])
  {
    if groups != [] && groups[0].section != e.section {
      AddEntryOneLine(groups[1..], e);
    }
  }

  lemma {:induction false} GroupsOneLine(entries: seq<Entry>)
    requires forall i :: 0 <= i < |entries| && entries[i].value.Some? ==> OneLineEntry(entries[i])
    ensures forall i :: 0 <= i < |GroupsOf(entries)| ==> OneLineGroup(GroupsOf(entries)[i])
  {
    if entries != [] {
      GroupsOneLine(entries[..|entries| - 1]);
      if entries[|entries| - 1].value.Some? {
        AddEntryOneLine(GroupsOf(entries[..|entries| - 1]), entries[|entries| - 1]);
      }
    }
  }

  predicate IsNewLine(s: string) {
    s == "\n" || s == "\r\n"
  }

  /** What `Load` reads back: the lines of the text `Save` wrote. */
  function SavedLines(entries: seq<Entry>, newLine: string): seq<string> {
    ReadAllLines(FileText(Printed(GroupsOf(entries)), newLine))
  }

  function Lookup(entries: seq<Entry>, newLine: string, section: string, key: string): Option<string> {
    Scan(SavedLines(entries, newLine), section == "", section, key)
  }

  /** Looking up a section and key in the saved file gives the first value saved for them, or nothing. */
  lemma LookupFindsFirstSaved(entries: seq<Entry>, newLine: string, section: string, key: string)
    requires IsNewLine(newLine)
    requires forall i :: 0 <= i < |entries| && entries[i].value.Some? ==> WellFormed(entries[i]) && OneLineEntry(entries[i])
    ensures Lookup(entries, newLine, section, key) == First(entries, section, key)
  {
    GroupsOneLine(entries);
    GroupsPrintOneLines(GroupsOf(entries));
    LinesSurviveFile(Printed(GroupsOf(entries)), newLine);
    ScanFindsFirstSaved(entries, section, key);
  }

  // ---------------------------------------------------------------- line breaks

  lemma {:induction false} ReadLinesAreOneLine(text: string)
    ensures AllOneLine(ReadAllLines(text))
    decreases |text|
  {
    if text != "" {
      var i := LineEnd(text);
      if i < |text| {
        ReadLinesAreOneLine(text[i + 1..]);
        if i + 1 < |text| {
          ReadLinesAreOneLine(text[i + 2..]);
        }
      }
    }
  }

  /** All that a line can give back: strings on one line, without blanks at their ends, that do not read as something else. */
  predicate Readable(section: string, key: string, value: string) {
    var e := Entry(section, key, Some(value), "");
    WellFormed(e) && OneLineEntry(e)
  }

  predicate ReadableSection(section: string) {
    TrimmedBy(section, IsBracket) && OneLine(section)
  }

  lemma PieceIsOneLine(s: string, piece: string)
    requires OneLine(s) && forall c :: c in piece ==> c in s
    ensures OneLine(piece)
  {
    forall i | 0 <= i < |piece| ensures !IsLineBreak(piece[i]) {
      assert piece[i] in piece;
    }
  }

  lemma HeaderIsReadable(line: string, inSection: bool, section: string, key: string)
    requires OneLine(line) && LineEffect(line, inSection, section, key) == Section(true)
    ensures ReadableSection(section)
  {
    TrimShape(line, IsSpace);
    PieceIsOneLine(line, Trim(line));
    TrimShape(Trim(line), IsBracket);
    PieceIsOneLine(Trim(line), section);
  }

  lemma FoundIsReadable(line: string, section: string, key: string, value: string)
    requires OneLine(line) && LineEffect(line, true, section, key) == Found(value) && ReadableSection(section)
    ensures Readable(section, key, value)
  {
    var t := Trim(line);
    var i := IndexOf(t, '=');
    var a, b := t[..i], t[i + 1..];
    TrimShape(line, IsSpace);
    PieceIsOneLine(line, t);
    TrimShape(a, IsSpace);
    TrimShape(b, IsSpace);
    PieceIsOneLine(t, key);
    PieceIsOneLine(t, value);
    assert '=' !in a;
  }

  lemma {:induction false} ScanIsReadable(lines: seq<string>, inSection: bool, section: string, key: string)
    requires AllOneLine(lines) && (inSection ==> ReadableSection(section))
    ensures var value := Scan(lines, inSection, section, key); value.Some? ==> Readable(section, key, value.value)
    decreases |lines|
  {
    if lines != [] {
      match LineEffect(lines[0], inSection, section, key)
      case Skip => ScanIsReadable(lines[1..], inSection, section, key);
      case Section(matches) =>
        if matches {
          HeaderIsReadable(lines[0], inSection, section, key);
        }
        ScanIsReadable(lines[1..], matches, section, key);
      case Found(value) => FoundIsReadable(lines[0], section, key, value);
    }
  }

  /** Whatever was saved, a lookup returns only what a line can give back. */
  lemma LookupIsReadable(entries: seq<Entry>, newLine: string, section: string, key: string)
    ensures var value := Lookup(entries, newLine, section, key); value.Some? ==> Readable(section, key, value.value)
  {
    ReadLinesAreOneLine(FileText(Printed(GroupsOf(entries)), newLine));
    ScanIsReadable(SavedLines(entries, newLine), section == "", section, key);
  }

  // ---------------------------------------------------------------- members of a configuration class

  /** A field or property: its own name, and the name its attribute gives (possibly empty). */
  datatype Member = Member(name: string, section: string, attributeName: string, desc: string, value: Option<string>)

  /** `Save` uses the attribute's name as it is. */
  function SavedAs(m: Member): Entry {
    Entry(m.section, m.attributeName, m.value, m.desc)
  }

  /** `Load` falls back to the member's own name when the attribute gives none. */
  function LoadKey(m: Member): string {
    if m.attributeName == "" then m.name else m.attributeName
  }

  function Entries(members: seq<Member>): seq<Entry> {
    seq(|members|, i requires 0 <= i < |members| => SavedAs(members[i]))
  }

  /** The value `Load` finds for member `m` in the file `Save` wrote for `members`. */
  function Restored(members: seq<Member>, newLine: string, m: Member): Option<string> {
    Lookup(Entries(members), newLine, m.section, LoadKey(m))
  }

  /** Member `i` is not saved, or what is saved of it reads as one entry. */
  predicate Savable(m: Member) {
    m.value.Some? ==> Readable(m.section, m.attributeName, m.value.value) && OneLine(m.desc)
  }

  /** Member `j` is saved, and under the section and key that `m` is loaded by. */
  predicate SavedFor(members: seq<Member>, j: nat, m: Member)
    requires j < |members|
  {
    members[j].value.Some? && members[j].section == m.section && members[j].attributeName == LoadKey(m)
  }

  lemma {:induction false} FirstIsSavedFor(members: seq<Member>, m: Member) returns (j: nat)
    ensures j <= |members| && forall i :: 0 <= i < j ==> !SavedFor(members, i, m)
    ensures j < |members| ==> SavedFor(members, j, m) && First(Entries(members), m.section, LoadKey(m)) == members[j].value
    ensures j == |members| ==> First(Entries(members), m.section, LoadKey(m)) == None
  {
    if members == [] {
      return 0;
    }
    assert Entries(members)[1..] == Entries(members[1..]);
    if SavedFor(members, 0, m) {
      return 0;
    }
    var k := FirstIsSavedFor(members[1..], m);
    j := k + 1;
    forall i | 0 <= i < j ensures !SavedFor(members, i, m) {
      if i > 0 {
        assert !SavedFor(members[1..], i - 1, m);
      }
    }
  }

  /** The first member saved under the key that `m` is loaded by has the value of `m`. */
  ghost predicate SavedFirst(members: seq<Member>, m: Member) {
    exists j: nat :: j < |members| && SavedFor(members, j, m) && members[j].value == m.value
                     && forall i: nat :: i < j ==> !SavedFor(members, i, m)
  }

  /**
   Among members that read as one entry each, and with a description on one line, a saved
   member comes back from the file exactly when its section, load key and value can be read
   back and the first member saved under that key has the same value.  In particular a member
   whose attribute gives no name does not come back unless another is saved under its own name.
   */
  lemma MemberComesBack(members: seq<Member>, newLine: string, k: nat)
    requires IsNewLine(newLine) && k < |members| && members[k].value.Some? && OneLine(members[k].desc)
    requires forall i :: 0 <= i < |members| && i != k ==> Savable(members[i])
    ensures var m := members[k];
            Restored(members, newLine, m) == m.value <==>
            Readable(m.section, LoadKey(m), m.value.value) && SavedFirst(members, m)
  {
    var m := members[k];
    LookupIsReadable(Entries(members), newLine, m.section, LoadKey(m));
    if Readable(m.section, LoadKey(m), m.value.value) {
      assert Savable(m);
      LookupFindsFirstSaved(Entries(members), newLine, m.section, LoadKey(m));
      var first := FirstIsSavedFor(members, m);
      FirstDecides(members, m, first);
    }
  }

  lemma FirstDecides(members: seq<Member>, m: Member, first: nat)
    requires first <= |members| && forall i :: 0 <= i < first ==> !SavedFor(members, i, m)
    requires first < |members| ==> SavedFor(members, first, m)
    ensures SavedFirst(members, m) <==> first < |members| && members[first].value == m.value
  {
    if SavedFirst(members, m) {
      var j: nat :| j < |members| && SavedFor(members, j, m) && members[j].value == m.value
                    && forall i: nat :: i < j ==> !SavedFor(members, i, m);
      assert j == first;
    }
  }

  /** With a name on every attribute, no two members under one section and name, and everything readable, everything comes back. */
  lemma NamedMembersComeBack(members: seq<Member>, newLine: string, k: nat)
    requires IsNewLine(newLine) && k < |members| && members[k].value.Some?
    requires forall i :: 0 <= i < |members| ==> Savable(members[i]) && members[i].attributeName != ""
    requires forall i, j :: 0 <= i < j < |members| ==>
               members[i].section != members[j].section || members[i].attributeName != members[j].attributeName
    ensures Restored(members, newLine, members[k]) == members[k].value
  {
    MemberComesBack(members, newLine, k);
    assert SavedFor(members, k, members[k]);
    assert forall i: nat :: i < k ==> !SavedFor(members, i, members[k]);
  }

  /** A concrete class whose one member, saved without an attribute name, is not restored. */
  lemma UnnamedMemberIsLost(newLine: string)
    requires IsNewLine(newLine)
    ensures var m := Member("Port", "Net", "", "", Some("80")); Restored([m], newLine, m) == None
  {
    var m := Member("Port", "Net", "", "", Some("80"));
    LookupFindsFirstSaved(Entries([m]), newLine, "Net", "Port");
    var first := FirstIsSavedFor([m], m);
  }

  /** A concrete class whose one member has a line break in its value: named, and not restored. */
  lemma LineBreakIsLost(newLine: string)
    requires IsNewLine(newLine)
    ensures var m := Member("P", "S", "P", "", Some("a\nb")); Restored([m], newLine, m) != m.value
  {
    var m := Member("P", "S", "P", "", Some("a\nb"));
    assert IsLineBreak(m.value.value[1]);
    MemberComesBack([m], newLine, 0);
  }

  /** And one with blanks around its value. */
  lemma PaddedValueIsLost(newLine: string)
    requires IsNewLine(newLine)
    ensures var m := Member("P", "S", "P", "", Some(" a ")); Restored([m], newLine, m) != m.value
  {
    var m := Member("P", "S", "P", "", Some(" a "));
    assert IsSpace(m.value.value[0]);
    MemberComesBack([m], newLine, 0);
  }

  /** A line break in a description puts an entry into the file, which a lookup finds before the saved one. */
  lemma DescriptionInjects(section: string, key: string, value: string, injected: string, newLine: string)
    requires IsNewLine(newLine)
    requires forall v :: v in [value, injected] ==> WellFormed(Entry(section, key, Some(v), "")) && OneLineEntry(Entry(section, key, Some(v), "x"))
    ensures Lookup([Entry(section, key, Some(value), "x" + newLine + key + "=" + injected)], newLine, section, key) == Some(injected)
  {
    var e := Entry(section, key, Some(value), "x" + newLine + key + "=" + injected);
    var apart := [Entry(section, key, Some(injected), "x"), Entry(section, key, Some(value), "")];
    assert injected in [value, injected] && value in [value, injected];
    LookupFindsFirstSaved(apart, newLine, section, key);
    SameText(e, apart[0], apart[1], newLine);
  }

  lemma SameText(e: Entry, first: Entry, second: Entry, newLine: string)
    requires e.value.Some? && first.value.Some? && second.value.Some? && first.desc == "x" && second.desc == ""
    requires first.section == second.section == e.section && first.key == second.key == e.key && second.value == e.value
    requires e.desc == "x" + newLine + first.key + "=" + first.value.value
    ensures FileText(Printed(GroupsOf([e])), newLine) == FileText(Printed(GroupsOf([first, second])), newLine)
  {
    var header, line := "[" + e.section + "]", e.key + "=" + e.value.value;
    var injected := first.key + "=" + first.value.value;
    OneGroup(e);
    TwoInOneGroup(first, second);
    var one, two := [header, "; " + e.desc, line, ""], [header, "; x", injected, line, ""];
    assert Printed(GroupsOf([e])) == one;
    assert "; " + first.desc == "; x";
    assert EntryLines(first) == ["; x", injected] && EntryLines(second) == [line];
    assert Printed(GroupsOf([first, second])) == two;
    assert one[1..] == ["; " + e.desc, line, ""] && two[1..] == ["; x", injected, line, ""];
    var rest := FileText([line, ""], newLine);
    assert one[1..][1..] == [line, ""] && two[1..][1..] == [injected, line, ""] && two[1..][1..][1..] == [line, ""];
    assert FileText(one[1..], newLine) == "; " + e.desc + newLine + rest;
    assert FileText(two[1..][1..], newLine) == injected + newLine + rest;
    assert FileText(two[1..], newLine) == "; x" + newLine + (injected + newLine + rest);
    assert FileText(one[1..], newLine) == FileText(two[1..], newLine);
  }

  lemma PrintedOne(g: Group)
    ensures Printed([g]) == GroupLines(g)
  {
    assert [g][1..] == [] && Printed([]) == [];
    assert GroupLines(g) + [] == GroupLines(g);
  }

  lemma OneGroup(e: Entry)
    requires e.value.Some?
    ensures Printed(GroupsOf([e])) == ["[" + e.section + "]"] + EntryLines(e) + [""]
  {
    assert [e][..0] == [] && GroupsOf([e]) == [Group(e.section, [e])];
    assert [e][1..] == [] && EntryLines(e) + [] == EntryLines(e);
    assert FlatMap(EntryLines, [e]) == EntryLines(e);
    PrintedOne(Group(e.section, [e]));
  }

  lemma TwoInOneGroup(first: Entry, second: Entry)
    requires first.value.Some? && second.value.Some? && first.section == second.section
    ensures Printed(GroupsOf([first, second])) == ["[" + first.section + "]"] + (EntryLines(first) + EntryLines(second)) + [""]
  {
    assert [first, second][..1] == [first] && [first][..0] == [];
    var g := Group(first.section, [first]);
    assert GroupsOf([first]) == [g];
    assert [g][1..] == [] && [first] + [second] == [first, second];
    assert AddEntry([g], second) == [Group(first.section, [first, second])];
    assert [second][1..] == [] && EntryLines(second) + [] == EntryLines(second);
    assert FlatMap(EntryLines, [second]) == EntryLines(second);
    assert [first, second][1..] == [second];
    PrintedOne(Group(first.section, [first, second]));
  }
}
