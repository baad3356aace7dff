/** The text of INI files: what `Save` writes line by line, and what a lookup makes of a file written by hand. */
module IniText {
  import opened Common
  import opened Text
  import opened Ini

  // ---------------------------------------------------------------- sections in the order of first use

  /** The entries with a value that were saved under this section, in order. */
  function SavedIn(entries: seq<Entry>, section: string): seq<Entry> {
    if entries == [] then []
    else
      var e := entries[|entries| - 1];
      SavedIn(entries[..|entries| - 1], section) + if e.section == section && e.value.Some? then [e] else []
  }

  predicate Uses(e: Entry, section: string) {
    e.section == section && e.value.Some?
  }

  /** The number of the first entry that uses the section. */
  function FirstUse(entries: seq<Entry>, section: string): (n: nat)
    ensures n <= |entries| && (n < |entries| ==> Uses(entries[n], section))
    ensures forall i :: 0 <= i < n ==> !Uses(entries[i], section)
  {
    if entries == [] then 0
    else
      var n := FirstUse(entries[..|entries| - 1], section);
      if n < |entries| - 1 || Uses(entries[n], section) then n else |entries|
  }

  predicate HoldsAll(entries: seq<Entry>, g: Group) {
    g.entries == SavedIn(entries, g.section) && FirstUse(entries, g.section) < |entries|
  }

  /** There is a group for each section in use, in the order of their first use, with its entries in order. */
  ghost predicate InOrderOfUse(entries: seq<Entry>, groups: seq<Group>) {
    Ordered(entries, groups) && AllGrouped(entries, groups) && forall i :: 0 <= i < |groups| ==> HoldsAll(entries, groups[i])
  }

  ghost predicate Ordered(entries: seq<Entry>, groups: seq<Group>) {
    forall i, j :: 0 <= i < j < |groups| ==> FirstUse(entries, groups[i].section) < FirstUse(entries, groups[j].section)
  }

  ghost predicate AllGrouped(entries: seq<Entry>, groups: seq<Group>) {
    forall a :: 0 <= a < |entries| && entries[a].value.Some? ==>
      exists i :: 0 <= i < |groups| && groups[i].section == entries[a].section
  }

  /** Adding an entry changes the first group of its section, or puts a new one at the end. */
  lemma {:induction false} AddEntryAt(groups: seq<Group>, e: Entry) returns (i: nat)
    ensures i <= |groups| && forall j :: 0 <= j < i ==> groups[j].section != e.section
    ensures i < |groups| ==> groups[i].section == e.section
    ensures AddEntry(groups, e) == if i < |groups| then groups[i := Group(e.section, groups[i].entries + [e])]
                                   else groups + [Group(e.section, [e])]
  {
    i := 0;
    if groups != [] && groups[0].section != e.section {
      var k := AddEntryAt(groups[1..], e);
      i := k + 1;
      AddEntryBehind(groups[0], groups[1..], e, k);
      assert [groups[0]] + groups[1..] == groups;
    }
  }

  lemma AddEntryBehind(g: Group, others: seq<Group>, e: Entry, k: nat)
    requires k <= |others|
    ensures k < |others| ==> [g] + others[k := Group(e.section, others[k].entries + [e])] ==
                             ([g] + others)[k + 1 := Group(e.section, others[k].entries + [e])]
    ensures [g] + (others + [Group(e.section, [e])]) == ([g] + others) + [Group(e.section, [e])]
  {
  }

  lemma FirstUseStays(entries: seq<Entry>, e: Entry, section: string)
    ensures FirstUse(entries + [e], section) ==
            if FirstUse(entries, section) < |entries| || Uses(e, section) then FirstUse(entries, section) else |entries| + 1
    ensures SavedIn(entries + [e], section) == SavedIn(entries, section) + if Uses(e, section) then [e] else []
  {
    assert (entries + [e])[..|entries|] == entries;
  }

  lemma {:induction false} UnusedIsEmpty(entries: seq<Entry>, section: string)
    requires FirstUse(entries, section) == |entries|
    ensures SavedIn(entries, section) == []
  {
    if entries != [] {
      UnusedIsEmpty(entries[..|entries| - 1], section);
    }
  }

  lemma HoldsNext(entries: seq<Entry>, g: Group, e: Entry)
    requires HoldsAll(entries, g)
    ensures FirstUse(entries + [e], g.section) == FirstUse(entries, g.section)
    ensures HoldsAll(entries + [e], if Uses(e, g.section) then Group(g.section, g.entries + [e]) else g)
  {
    FirstUseStays(entries, e, g.section);
  }

  lemma HoldsFirst(entries: seq<Entry>, e: Entry)
    requires FirstUse(entries, e.section) == |entries| && e.value.Some?
    ensures FirstUse(entries + [e], e.section) == |entries|
    ensures HoldsAll(entries + [e], Group(e.section, [e]))
  {
    FirstUseStays(entries, e, e.section);
    UnusedIsEmpty(entries, e.section);
  }

  lemma AddKeepsOrder(entries: seq<Entry>, groups: seq<Group>, e: Entry)
    requires InOrderOfUse(entries, groups) && e.value.Some?
    ensures InOrderOfUse(entries + [e], AddEntry(groups, e))
  {
    var i := AddEntryAt(groups, e);
    if i < |groups| {
      AddToGroup(entries, groups, e, i);
    } else {
      AddGroup(entries, groups, e);
    }
  }

  lemma AddToGroup(entries: seq<Entry>, groups: seq<Group>, e: Entry, i: nat)
    requires InOrderOfUse(entries, groups) && e.value.Some? && i < |groups| && groups[i].section == e.section
    ensures InOrderOfUse(entries + [e], groups[i := Group(e.section, groups[i].entries + [e])])
  {
    var after := groups[i := Group(e.section, groups[i].entries + [e])];
    forall j | 0 <= j < |groups|
      ensures after[j].section == groups[j].section && HoldsAll(entries + [e], after[j])
      ensures FirstUse(entries + [e], groups[j].section) == FirstUse(entries, groups[j].section)
    {
      HoldsNext(entries, groups[j], e);
    }
    AllSectionsStay(entries, groups, e, after);
  }

  lemma AddGroup(entries: seq<Entry>, groups: seq<Group>, e: Entry)
    requires InOrderOfUse(entries, groups) && e.value.Some?
    requires forall j :: 0 <= j < |groups| ==> groups[j].section != e.section
    ensures InOrderOfUse(entries + [e], groups + [Group(e.section, [e])])
  {
    var after := groups + [Group(e.section, [e])];
    NewSectionIsUnused(entries, groups, e.section);
    HoldsFirst(entries, e);
    forall j | 0 <= j < |groups|
      ensures after[j].section == groups[j].section && HoldsAll(entries + [e], after[j])
      ensures FirstUse(entries + [e], groups[j].section) == FirstUse(entries, groups[j].section) < |entries|
    {
      HoldsNext(entries, groups[j], e);
    }
    assert after[|groups|] == Group(e.section, [e]);
    AllSectionsStay(entries, groups, e, after);
  }

  lemma AllSectionsStay(entries: seq<Entry>, groups: seq<Group>, e: Entry, after: seq<Group>)
    requires AllGrouped(entries, groups) && |groups| <= |after|
    requires forall j :: 0 <= j < |groups| ==> after[j].section == groups[j].section
    requires exists j :: 0 <= j < |after| && after[j].section == e.section
    ensures AllGrouped(entries + [e], after)
  {
    forall a | 0 <= a < |entries| && entries[a].value.Some?
      ensures exists j :: 0 <= j < |after| && after[j].section == entries[a].section
    {
      var j :| 0 <= j < |groups| && groups[j].section == entries[a].section;
      assert after[j].section == entries[a].section;
    }
  }

  lemma NewSectionIsUnused(entries: seq<Entry>, groups: seq<Group>, section: string)
    requires InOrderOfUse(entries, groups) && forall j :: 0 <= j < |groups| ==> groups[j].section != section
    ensures FirstUse(entries, section) == |entries|
  {
  }

  lemma SkipKeepsOrder(entries: seq<Entry>, groups: seq<Group>, e: Entry)
    requires InOrderOfUse(entries, groups) && e.value.None?
    ensures InOrderOfUse(entries + [e], groups)
  {
    forall i | 0 <= i < |groups|
      ensures FirstUse(entries + [e], groups[i].section) == FirstUse(entries, groups[i].section)
      ensures HoldsAll(entries + [e], groups[i])
    {
      HoldsNext(entries, groups[i], e);
    }
    assert forall a :: 0 <= a < |entries| ==> (entries + [e])[a] == entries[a];
  }

  lemma {:induction false} GroupsInOrderOfUse(entries: seq<Entry>)
    ensures InOrderOfUse(entries, GroupsOf(entries))
  {
    if entries != [] {
      var before, e := entries[..|entries| - 1], entries[|entries| - 1];
      GroupsInOrderOfUse(before);
      assert before + [e] == entries;
      if e.value.Some? {
        AddKeepsOrder(before, GroupsOf(before), e);
      } else {
        SkipKeepsOrder(before, GroupsOf(before), e);
      }
    }
  }

  // ---------------------------------------------------------------- the lines of the file

  /** Without its last line, which is blank. */
  function Body(lines: seq<string>): seq<string> {
    if lines == [] then [] else lines[..|lines| - 1]
  }

  /**
   The lines, from nothing upwards: a group begins with its header and ends with a blank line,
   and each further entry puts its comment, if any, and its pair in front of that.
   */
  lemma PrintedLines(groups: seq<Group>, section: string, entries: seq<Entry>, e: Entry, value: string)
    requires e.value == Some(value)
    ensures Printed([]) == []
    ensures Printed(groups + [Group(section, [])]) == Printed(groups) + ["[" + section + "]", ""]
    ensures Printed(groups + [Group(section, entries + [e])]) ==
            Body(Printed(groups + [Group(section, entries)])) +
            (if e.desc == "" then [] else ["; " + e.desc]) + [e.key + "=" + value, ""]
  {
    PrintedNext(groups, Group(section, []));
    PrintedNext(groups, Group(section, entries));
    PrintedNext(groups, Group(section, entries + [e]));
    GroupNext(section, entries, e, value);
    BodyOfConcat(Printed(groups), GroupLines(Group(section, entries)));
  }

  lemma GroupNext(section: string, entries: seq<Entry>, e: Entry, value: string)
    requires e.value == Some(value)
    ensures GroupLines(Group(section, entries + [e])) ==
            Body(GroupLines(Group(section, entries))) +
            (if e.desc == "" then [] else ["; " + e.desc]) + [e.key + "=" + value, ""]
  {
    var front := ["[" + section + "]"] + FlatMap(EntryLines, entries);
    FlatMapConcat(EntryLines, entries, [e]);
    assert FlatMap(EntryLines, [e]) == EntryLines(e);
    assert GroupLines(Group(section, entries)) == front + [""];
    assert GroupLines(Group(section, entries + [e])) == front + EntryLines(e) + [""];
  }

  lemma BodyOfConcat(a: seq<string>, b: seq<string>)
    requires b != []
    ensures Body(a + b) == a + Body(b)
  {
  }

  lemma PrintedNext(groups: seq<Group>, g: Group)
    ensures Printed(groups + [g]) == Printed(groups) + GroupLines(g)
  {
    FlatMapConcat(GroupLines, groups, [g]);
    assert FlatMap(GroupLines, [g]) == GroupLines(g);
  }

  /** What is in the file of a class with one member: its section, its description, and its attribute's name and its value. */
  lemma OneMemberFile(m: Member, newLine: string)
    requires IsNewLine(newLine) && m.value.Some?
    requires OneLine(m.section) && OneLine(m.attributeName) && OneLine(m.desc) && OneLine(m.value.value)
    ensures SavedLines(Entries([m]), newLine) ==
            ["[" + m.section + "]"] + (if m.desc == "" then [] else ["; " + m.desc]) + [m.attributeName + "=" + m.value.value, ""]
  {
    var e := SavedAs(m);
    assert Entries([m]) == [e];
    OneGroup(e);
    GroupsOneLine([e]);
    GroupsPrintOneLines(GroupsOf([e]));
    LinesSurviveFile(Printed(GroupsOf([e])), newLine);
  }

  /** One line is taken off the text: `\n`, `\r\n` and a lone `\r` end it, and the last one need not be ended. */
  lemma LineIsRead(line: string, lineBreak: string, rest: string)
    requires OneLine(line)
    requires lineBreak == "\n" || lineBreak == "\r\n" || (lineBreak == "\r" && (rest == "" || rest[0] != '\n'))
    ensures ReadAllLines(line + lineBreak + rest) == [line] + ReadAllLines(rest)
    ensures ReadAllLines(line) == if line == "" then [] else [line]
  {
    var text := line + lineBreak + rest;
    assert forall j :: 0 <= j < |line| ==> text[j] == line[j];
    assert text[|line|] == lineBreak[0];
    assert LineEnd(text) == |line|;
    assert text[..|line|] == line && text[|line| + |lineBreak|..] == rest;
    if lineBreak == "\r" && rest != "" {
      assert text[|line| + 1] == rest[0];
    }
    if line != "" {
      assert LineEnd(line) == |line|;
    }
  }

  // ---------------------------------------------------------------- files written by hand

  /** The characters that count as blank: Unicode's White_Space property. */
  lemma SpacesAre(c: char)
    ensures IsSpace(c) <==>
            c as int in {0x9, 0xA, 0xB, 0xC, 0xD, 0x20, 0x85, 0xA0, 0x1680, 0x2000, 0x2001, 0x2002, 0x2003, 0x2004, 0x2005,
                         0x2006, 0x2007, 0x2008, 0x2009, 0x200A, 0x2028, 0x2029, 0x202F, 0x205F, 0x3000}
  {
  }

  /** Blank lines, comments and lines without an equals sign that are no headers say nothing. */
  lemma OtherLinesSkip(start: string, line: string, inSection: bool, section: string, key: string)
    requires AllAre(start, IsSpace)
    ensures LineEffect(start, inSection, section, key) == Skip
    ensures LineEffect(start + ";" + line, inSection, section, key) == Skip
    ensures '=' !in line && (line == "" || line[0] != '[' || line[|line| - 1] != ']') && TrimmedBy(line, IsSpace) ==>
              LineEffect(start + line, inSection, section, key) == Skip
  {
    assert start + "" + "" == start;
    TrimOfPadded(start, "", "", IsSpace);
    assert start + (";" + line) == start + ";" + line;
    TrimStartOfPadded(start, ";" + line, IsSpace);
    TrimEndShape(";" + line, IsSpace);
    TrimOfTrimmed("", IsSpace);
    if TrimmedBy(line, IsSpace) {
      TrimOfPadded(start, line, "", IsSpace);
      assert start + line + "" == start + line;
    }
  }

  function EntriesOf(g: Group): seq<Entry> {
    g.entries
  }

  ghost predicate AllReadable(section: string, entries: seq<Entry>) {
    && TrimmedBy(section, IsBracket)
    && forall k :: 0 <= k < |entries| ==> WellFormed(entries[k]) && entries[k].value.Some? && entries[k].section == section
  }

  /**
   A file of sections in any order and any number of times each, with entries before the first
   header that belong to the section without a name: a lookup finds the first entry with that
   section and key, or nothing.
   */
  lemma {:induction false} LookupFindsFirstWritten(top: seq<Entry>, groups: seq<Group>, section: string, key: string)
    requires AllReadable("", top) && forall i :: 0 <= i < |groups| ==> AllReadable(groups[i].section, groups[i].entries)
    ensures Scan(FlatMap(EntryLines, top) + Printed(groups), section == "", section, key) ==
            First(top + FlatMap(EntriesOf, groups), section, key)
  {
    ScanEntries(top, Printed(groups), section == "", section, key);
    ScanSections(groups, section == "", section, key);
    FirstOfConcat(top, FlatMap(EntriesOf, groups), section, key);
    if section != "" {
      NotInOthers(top, "", section, key);
    }
  }

  lemma {:induction false} ScanSections(groups: seq<Group>, inSection: bool, section: string, key: string)
    requires forall i :: 0 <= i < |groups| ==> AllReadable(groups[i].section, groups[i].entries)
    ensures Scan(Printed(groups), inSection, section, key) == First(FlatMap(EntriesOf, groups), section, key)
  {
    if groups != [] {
      var g, others := groups[0], groups[1..];
      ScanGroup(g, Printed(others), inSection, section, key);
      ScanSections(others, g.section == section, section, key);
      FirstOfConcat(g.entries, FlatMap(EntriesOf, others), section, key);
      if g.section != section {
        NotInOthers(g.entries, g.section, section, key);
      }
    }
  }

  lemma {:induction false} NotInOthers(entries: seq<Entry>, mine: string, section: string, key: string)
    requires mine != section && forall k :: 0 <= k < |entries| ==> entries[k].section == mine
    ensures First(entries, section, key) == None
  {
    if entries != [] {
      NotInOthers(entries[1..], mine, section, key);
    }
  }

  /** A member without a name in its attribute reads what another member saved under that name. */
  lemma UnnamedMemberReadsAnother(newLine: string, unnamed: Member, other: Member)
    requires IsNewLine(newLine) && unnamed.attributeName == "" && unnamed.name != "" && other.value.Some?
    requires other.section == unnamed.section && other.attributeName == unnamed.name
    requires Savable(unnamed) && Savable(other)
    ensures Restored([unnamed, other], newLine, unnamed) == other.value
  {
    var members := [unnamed, other];
    LookupFindsFirstSaved(Entries(members), newLine, unnamed.section, unnamed.name);
    var first := FirstIsSavedFor(members, unnamed);
    assert SavedFor(members, 1, unnamed);
  }
}
