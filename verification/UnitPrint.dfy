/** Printing a unit and parsing it back. */
module UnitPrint {
  import opened Options
  import opened Text
  import opened UnitParser
  import opened UnitText

  function PrintAssignment(a: Assignment): string {
    a.key + "=" + a.value
  }

  function AssignmentLines(entries: seq<Assignment>): seq<string> {
    if entries == [] then []
    else AssignmentLines(entries[..|entries| - 1]) + [PrintAssignment(entries[|entries| - 1])]
  }

  function PrintedLines(sections: seq<Section>): seq<string> {
    if sections == [] then []
    else
      var s := sections[|sections| - 1];
      PrintedLines(sections[..|sections| - 1]) + (["[" + s.name + "]"] + AssignmentLines(s.entries))
  }

  function Unlines(lines: seq<string>): string {
    if lines == [] then "" else lines[0] + "\n" + Unlines(lines[1..])
  }

  /** The unit as text, one line for each header and each assignment. */
  function Print(u: ParsedUnit): string {
    Unlines(PrintedLines(u.sections))
  }

  predicate PrintableAssignment(a: Assignment) {
    && TidyAssignment(a.key, a.value) && a.key[0] != '#' && a.key[0] != ';' && !Continues(a.value)
    && ParseSectionHeader(PrintAssignment(a)).None?
  }

  predicate PrintableSection(s: Section) {
    TidyName(s.name) && forall a | a in s.entries :: PrintableAssignment(a)
  }

  predicate Printable(u: ParsedUnit) {
    && (forall i, j | 0 <= i < j < |u.sections| :: u.sections[i].name != u.sections[j].name)
    && (forall s | s in u.sections :: PrintableSection(s))
  }

  /** Two backslashes at the end of a value are kept and end the line; one would make it go on. */
  lemma EscapedBackslash(a: Assignment)
    requires PrintableAssignment(a) && a.value != "" && a.value[|a.value| - 1] != '\\'
    ensures PrintableAssignment(a.(value := a.value + "\\\\"))
    ensures !PrintableAssignment(a.(value := a.value + "\\"))
  {
    hide Trim;
    var one, two := a.value + "\\", a.value + "\\\\";
    assert two == one + "\\";
    RunOfBackslashes(a.value);
    RunOfBackslashes(one);
    ContinuesExactly(a.value, TrailingBackslashes(a.value));
    ContinuesExactly(one, TrailingBackslashes(one));
    assert two[0] == a.value[0] && two[|two| - 1] == '\\';
    var line := PrintAssignment(a.(value := two));
    assert line[|line| - 1] == '\\';
  }

  // ---------- Printed lines come back as they are ----------------------------

  predicate PlainLine(l: string) {
    '\n' !in l && DropCr(l) == l && !IsComment(l) && !Continues(l)
  }

  lemma {:induction false} LinesOfUnlines(lines: seq<string>)
    requires forall l | l in lines :: '\n' !in l && DropCr(l) == l
    ensures Lines(Unlines(lines)) == lines
  {
    if lines != [] {
      var line := lines[0];
      assert line in lines;
      assert line + "\n" == line + ['\n'];
      LinesStep(line, Unlines(lines[1..]));
      LinesOfUnlines(lines[1..]);
      assert [line] + lines[1..] == lines;
    }
  }

  lemma {:induction false} PlainLinesStay(lines: seq<string>)
    requires forall l | l in lines :: !IsComment(l) && !Continues(l)
    ensures DropComments(lines) == lines && Glue(lines) == Glued(lines, None)
  {
    if lines != [] {
      assert lines[0] in lines;
      PlainLinesStay(lines[1..]);
      assert [lines[0]] + lines[1..] == lines;
    }
  }

  lemma NoBackslashAtEnd(l: string)
    requires l != "" && l[|l| - 1] != '\\'
    ensures !Continues(l)
  {}

  lemma HeaderLine(n: string)
    requires n != "" && '\n' !in n
    ensures PlainLine("[" + n + "]") && ItemOf("[" + n + "]") == Header(n)
  {
    var l := "[" + n + "]";
    NoBackslashAtEnd(l);
    TrimOfTrimmed(l);
    assert l[1..|l| - 1] == n;
  }

  /** The last character of a printed assignment is that of its value, or the `=`. */
  lemma PrintedShape(a: Assignment)
    requires PlainKey(a.key) && Trimmed(a.value)
    ensures var l := PrintAssignment(a);
      && Trimmed(l) && DropCr(l) == l && Continues(l) == Continues(a.value)
      && AssignmentOf(l) == Assign(a.key, a.value)
      && (a.value != "" ==> l[|l| - 1] == a.value[|a.value| - 1])
  {
    var l := PrintAssignment(a);
    BackslashesAfterOther(a.key + "=", a.value);
    SplitOnceInverse(a.key, '=', a.value);
    TrimOfTrimmed(a.key);
    TrimOfTrimmed(a.value);
    assert a.key + "=" == a.key + ['='];
    if a.value == "" {
      assert l[|l| - 1] == '=';
    } else {
      assert l[|l| - 1] == a.value[|a.value| - 1];
    }
    assert l[0] == a.key[0];
  }

  lemma AssignmentLine(a: Assignment)
    requires PrintableAssignment(a)
    ensures PlainLine(PrintAssignment(a)) && ItemOf(PrintAssignment(a)) == Assign(a.key, a.value)
  {
    PrintedShape(a);
    TrimOfTrimmed(PrintAssignment(a));
    assert PrintAssignment(a)[0] == a.key[0];
  }

  // ---------- Printed items rebuild the unit ---------------------------------

  lemma {:induction false} SectionAtEnd(done: seq<Section>, s: Section)
    requires forall d | d in done :: d.name != s.name
    ensures SectionAt(done + [s], s.name) == |done|
  {
    if done != [] {
      assert done[0] in done && (done + [s])[0] == done[0];
      assert (done + [s])[1..] == done[1..] + [s];
      SectionAtEnd(done[1..], s);
    }
  }

  lemma AssignStep(items: seq<Item>, done: seq<Section>, name: string, entries: seq<Assignment>, a: Assignment)
    requires LastHeader(items, None) == Some(name)
    requires Group(items).sections == done + [Section(name, entries)]
    requires forall s | s in done :: s.name != name
    ensures var more := items + [Assign(a.key, a.value)];
      && LastHeader(more, None) == Some(name)
      && Group(more).sections == done + [Section(name, entries + [a])]
  {
    GroupAssign(items, a.key, a.value);
    EntriesSnoc(items, Assign(a.key, a.value));
    SectionAtEnd(done, Section(name, entries));
  }

  lemma {:induction false} AssignmentsRebuild(before: seq<Item>, done: seq<Section>, name: string, entries: seq<Assignment>)
    requires LastHeader(before, None) == Some(name)
    requires Group(before).sections == done + [Section(name, [])]
    requires forall s | s in done :: s.name != name
    requires forall a | a in entries :: PrintableAssignment(a)
    ensures Group(before + ItemsOf(AssignmentLines(entries))).sections == done + [Section(name, entries)]
    ensures LastHeader(before + ItemsOf(AssignmentLines(entries)), None) == Some(name)
  {
    hide Group, LastHeader, PrintableAssignment, PrintAssignment;
    if entries == [] {
      assert before + ItemsOf(AssignmentLines(entries)) == before;
    } else {
      var n := |entries| - 1;
      var a, lines := entries[n], AssignmentLines(entries[..n]);
      AssignmentsRebuild(before, done, name, entries[..n]);
      AssignmentLine(a);
      ItemsOfSnoc(lines, PrintAssignment(a));
      Assoc(before, ItemsOf(lines), [Assign(a.key, a.value)]);
      AssignStep(before + ItemsOf(lines), done, name, entries[..n], a);
      assert entries[..n] + [a] == entries;
    }
  }

  lemma {:induction false} AssignmentLinesPlain(entries: seq<Assignment>)
    requires forall a | a in entries :: PrintableAssignment(a)
    ensures forall l | l in AssignmentLines(entries) :: PlainLine(l)
  {
    if entries != [] {
      AssignmentLinesPlain(entries[..|entries| - 1]);
      AssignmentLine(entries[|entries| - 1]);
    }
  }

  lemma {:induction false} PrintedLinesPlain(sections: seq<Section>)
    requires forall s | s in sections :: PrintableSection(s)
    ensures forall l | l in PrintedLines(sections) :: PlainLine(l)
  {
    if sections != [] {
      var s := sections[|sections| - 1];
      assert s in sections;
      PrintedLinesPlain(sections[..|sections| - 1]);
      AssignmentLinesPlain(s.entries);
      HeaderLine(s.name);
    }
  }

  lemma HeaderStep(items: seq<Item>, done: seq<Section>, name: string)
    requires Group(items).sections == done
    requires forall s | s in done :: s.name != name
    ensures Group(items + [Header(name)]).sections == done + [Section(name, [])]
    ensures LastHeader(items + [Header(name)], None) == Some(name)
  {
    var names := FirstSeen(HeaderNames(items));
    GroupHeader(items, name);
    EntriesSnoc(items, Header(name));
    FirstSeenIsDistinct(HeaderNames(items));
    forall i | 0 <= i < |names|
      ensures names[i] != name
    {
      assert done[i].name == names[i] && done[i] in done;
    }
  }

  lemma PrintedItemsSnoc(sections: seq<Section>, s: Section)
    requires s.name != "" && '\n' !in s.name
    ensures ItemsOf(PrintedLines(sections + [s]))
      == ItemsOf(PrintedLines(sections)) + [Header(s.name)] + ItemsOf(AssignmentLines(s.entries))
  {
    var header, lines, all := ["[" + s.name + "]"], AssignmentLines(s.entries), sections + [s];
    assert all[..|all| - 1] == sections;
    HeaderLine(s.name);
    ItemsOfConcat(PrintedLines(sections), header + lines);
    ItemsOfConcat(header, lines);
    assert header[1..] == [];
    Assoc(ItemsOf(PrintedLines(sections)), [Header(s.name)], ItemsOf(lines));
  }

  lemma {:induction false} SectionsRebuild(sections: seq<Section>)
    requires Printable(ParsedUnit(sections))
    ensures Group(ItemsOf(PrintedLines(sections))).sections == sections
  {
    if sections != [] {
      var n := |sections| - 1;
      var s, done := sections[n], sections[..n];
      assert s in sections && done + [s] == sections;
      SectionsRebuild(done);
      PrintedItemsSnoc(done, s);
      var before := ItemsOf(PrintedLines(done));
      HeaderStep(before, done, s.name);
      AssignmentsRebuild(before + [Header(s.name)], done, s.name, s.entries);
    }
  }

  /** Printing a printable unit and parsing it returns the same sections, keys, values and order. */
  lemma RoundTrip(u: ParsedUnit)
    requires Printable(u)
    ensures Meaning(Print(u)) == u
  {
    var lines := PrintedLines(u.sections);
    assert ParsedUnit(u.sections) == u;
    SectionsRebuild(u.sections);
    PrintedLinesPlain(u.sections);
    LinesOfUnlines(lines);
    PlainLinesStay(lines);
    assert ItemsOf(lines) + [] == ItemsOf(lines);
  }

  // ---------- ... and only printable units do --------------------------------

  predicate TidySections(sections: seq<Section>) {
    forall s | s in sections :: TidyName(s.name) && forall a | a in s.entries :: TidyAssignment(a.key, a.value)
  }

  lemma {:induction false} TidyLinesShape(sections: seq<Section>)
    requires TidySections(sections)
    ensures forall l | l in PrintedLines(sections) :: '\n' !in l && DropCr(l) == l
    ensures |PrintedLines(sections)| == |sections| + TotalEntries(sections)
  {
    hide DropCr;
    if sections != [] {
      var n := |sections| - 1;
      assert sections[n] in sections;
      TidyLinesShape(sections[..n]);
      TidyAssignmentLines(sections[n].entries);
      TotalEntriesSnoc(sections[..n], sections[n]);
      assert sections[..n] + [sections[n]] == sections;
      HeaderIsOneLine(sections[n].name);
    }
  }

  lemma HeaderIsOneLine(name: string)
    requires '\n' !in name
    ensures '\n' !in "[" + name + "]" && DropCr("[" + name + "]") == "[" + name + "]"
  {
    var header := "[" + name + "]";
    assert header[|header| - 1] == ']';
  }

  lemma {:induction false} TidyAssignmentLines(entries: seq<Assignment>)
    requires forall a | a in entries :: TidyAssignment(a.key, a.value)
    ensures forall l | l in AssignmentLines(entries) :: '\n' !in l && DropCr(l) == l
    ensures |AssignmentLines(entries)| == |entries|
  {
    if entries != [] {
      TidyAssignmentLines(entries[..|entries| - 1]);
      PrintedShape(entries[|entries| - 1]);
    }
  }

  lemma {:induction false} TotalEntriesSnoc(sections: seq<Section>, s: Section)
    ensures TotalEntries(sections + [s]) == TotalEntries(sections) + |s.entries|
  {
    if sections == [] {
      assert [] + [s] == [s] && [s][1..] == [];
      assert TotalEntries([]) == 0;
    } else {
      assert (sections + [s])[1..] == sections[1..] + [s];
      TotalEntriesSnoc(sections[1..], s);
    }
  }

  lemma {:induction false} CommentsShorten(lines: seq<string>)
    ensures |DropComments(lines)| <= |lines|
    ensures |DropComments(lines)| == |lines| ==> DropComments(lines) == lines && forall l | l in lines :: !IsComment(l)
  {
    if lines != [] { CommentsShorten(lines[1..]); }
  }

  function Count(g: Glued): nat {
    |g.done| + if g.open.Some? then 1 else 0
  }

  lemma {:induction false} ContinuationsShorten(lines: seq<string>)
    ensures Count(Glue(lines)) <= |lines|
    ensures Count(Glue(lines)) == |lines| ==> forall i | 0 <= i < |lines| - 1 :: !Continues(lines[i])
  {
    if lines != [] { ContinuationsShorten(lines[1..]); }
  }

  lemma {:induction false} EntriesAndHeadersAreItems(items: seq<Item>, current: Option<string>)
    ensures |Entries(items, current)| + |HeaderNames(items)| <= |items|
  {
    if items != [] {
      EntriesAndHeadersAreItems(items[1..], if items[0].Header? then Some(items[0].name) else current);
    }
  }

  lemma {:induction false} FirstSeenShortens(names: seq<string>)
    ensures |FirstSeen(names)| <= |names|
  {
    if names != [] { FirstSeenShortens(names[..|names| - 1]); }
  }

  lemma {:induction false} ItemsOfLength(logical: seq<string>)
    ensures |ItemsOf(logical)| == |logical|
  {
    if logical != [] { ItemsOfLength(logical[1..]); }
  }

  /** A unit that comes back was written one item a line: no line was taken for a comment, none
      but the last was continued, and there are as many headers as sections. */
  lemma CountLines(sections: seq<Section>)
    requires TidySections(sections)
    requires Meaning(Print(ParsedUnit(sections))) == ParsedUnit(sections)
    ensures var lines := PrintedLines(sections);
      && Lines(Print(ParsedUnit(sections))) == lines && DropComments(lines) == lines
      && (forall l | l in lines :: !IsComment(l))
      && (forall i | 0 <= i < |lines| - 1 :: !Continues(lines[i]))
      && |HeaderNames(Items(lines))| == |sections|
  {
    var lines := PrintedLines(sections);
    var items := Items(lines);
    TidyLinesShape(sections);
    LinesOfUnlines(lines);
    CommentsShorten(lines);
    ContinuationsShorten(DropComments(lines));
    ItemsOfLength(Glue(DropComments(lines)).done);
    EntriesAndHeadersAreItems(items, None);
    FirstSeenShortens(HeaderNames(items));
    FirstSeenIsDistinct(HeaderNames(items));
    EntriesStandUnderHeaders(items, None);
    BucketsCoverEntries(FirstSeen(HeaderNames(items)), Entries(items, None));
  }

  lemma {:induction false} HeadersOfAssignmentLines(entries: seq<Assignment>)
    requires forall a | a in entries :: TidyAssignment(a.key, a.value)
    ensures HeaderNames(ItemsOf(AssignmentLines(entries))) == [] ==>
      forall a | a in entries :: ParseSectionHeader(PrintAssignment(a)).None?
  {
    if entries != [] {
      var n := |entries| - 1;
      var lines, last := AssignmentLines(entries[..n]), PrintAssignment(entries[n]);
      HeadersOfAssignmentLines(entries[..n]);
      ItemsOfSnoc(lines, last);
      EntriesSnoc(ItemsOf(lines), ItemOf(last));
      PrintedShape(entries[n]);
      TrimOfTrimmed(last);
      assert entries[..n] + [entries[n]] == entries;
    }
  }

  /** Each section prints at least its own header; more headers come from assignments that look
      like one. */
  lemma {:induction false} HeadersOfPrintedLines(sections: seq<Section>)
    requires TidySections(sections)
    ensures var names := HeaderNames(ItemsOf(PrintedLines(sections)));
      && |names| >= |sections|
      && (|names| == |sections| ==> forall s | s in sections ::
            forall a | a in s.entries :: ParseSectionHeader(PrintAssignment(a)).None?)
  {
    if sections != [] {
      var n := |sections| - 1;
      var s, done := sections[n], sections[..n];
      assert s in sections && done + [s] == sections;
      HeadersOfPrintedLines(done);
      HeadersOfAssignmentLines(s.entries);
      PrintedItemsSnoc(done, s);
      var before := ItemsOf(PrintedLines(done));
      EntriesSnoc(before, Header(s.name));
      HeaderNamesConcat(before + [Header(s.name)], ItemsOf(AssignmentLines(s.entries)));
    }
  }

  lemma PrintableFromLine(a: Assignment)
    requires TidyAssignment(a.key, a.value)
    requires !IsComment(PrintAssignment(a)) && !Continues(PrintAssignment(a))
    requires ParseSectionHeader(PrintAssignment(a)).None?
    ensures PrintableAssignment(a)
  {
    PrintedShape(a);
    assert PrintAssignment(a)[0] == a.key[0];
  }

  lemma {:induction false} LineOfAssignment(sections: seq<Section>, s: Section, a: Assignment)
    requires s in sections && a in s.entries
    ensures PrintAssignment(a) in PrintedLines(sections)
  {
    var n := |sections| - 1;
    if s == sections[n] {
      LineInBucket(s.entries, a);
    } else {
      LineOfAssignment(sections[..n], s, a);
    }
  }

  lemma {:induction false} LineInBucket(entries: seq<Assignment>, a: Assignment)
    requires a in entries
    ensures PrintAssignment(a) in AssignmentLines(entries)
  {
    var n := |entries| - 1;
    if a != entries[n] { LineInBucket(entries[..n], a); }
  }

  lemma PrintableFromLines(sections: seq<Section>)
    requires TidySections(sections)
    requires forall l | l in PrintedLines(sections) :: !IsComment(l) && !Continues(l)
    requires |HeaderNames(ItemsOf(PrintedLines(sections)))| == |sections|
    ensures forall s | s in sections :: PrintableSection(s)
  {
    HeadersOfPrintedLines(sections);
    forall s | s in sections
      ensures PrintableSection(s)
    {
      forall a | a in s.entries
        ensures PrintableAssignment(a)
      {
        LineOfAssignment(sections, s, a);
        PrintableFromLine(a);
      }
    }
  }

  lemma {:induction false} TrimShortens(s: string)
    ensures |Trim(s)| <= |s|
  {
    TrimStartBare(s);
    TrimEndBare(TrimStart(s));
  }

  lemma AssignmentShrinks(t: string)
    ensures AssignmentOf(t).Assign? ==> |AssignmentOf(t).key| + 1 + |AssignmentOf(t).value| <= |t|
  {
    var split := SplitOnce(t, '=');
    if split.Some? {
      TrimShortens(split.value.0);
      TrimShortens(split.value.1);
    }
  }

  /** A continued last line loses its backslash, so its assignment cannot come back. */
  lemma ContinuedLastLine(a: Assignment)
    requires TidyAssignment(a.key, a.value) && Continues(PrintAssignment(a))
    ensures AssignmentOf(Trim(Piece(PrintAssignment(a)))) != Assign(a.key, a.value)
  {
    var l := PrintAssignment(a);
    var x := l[..|l| - 1];
    assert Piece(l) == x + [' '];
    TrimAppend(x, ' ');
    TrimShortens(x);
    AssignmentShrinks(Trim(x));
  }

  lemma {:induction false} GlueContinuedLast(lines: seq<string>, last: string)
    requires Continues(last)
    requires forall l | l in lines :: !Continues(l)
    ensures Glue(lines + [last]) == Glued(lines, Some(Piece(last)))
  {
    GlueSnoc(lines, last);
    assert "" + Piece(last) == Piece(last);
    GluePlain(lines);
  }

  lemma {:induction false} GluePlain(lines: seq<string>)
    requires forall l | l in lines :: !Continues(l)
    ensures Glue(lines) == Glued(lines, None)
  {
    if lines != [] {
      assert lines[0] in lines;
      GluePlain(lines[1..]);
      assert [lines[0]] + lines[1..] == lines;
    }
  }

  /** Printing and parsing return the unit exactly when it is printable. */
  lemma RoundTripExactly(u: ParsedUnit)
    ensures Meaning(Print(u)) == u <==> Printable(u)
  {
    if Printable(u) {
      RoundTrip(u);
    }
    if Meaning(Print(u)) == u {
      ReturnedIsTidy(u);
      ReturnedIsPrintable(u.sections);
    }
  }

  lemma ReturnedIsTidy(u: ParsedUnit)
    requires Meaning(Print(u)) == u
    ensures TidySections(u.sections)
    ensures forall i, j | 0 <= i < j < |u.sections| :: u.sections[i].name != u.sections[j].name
  {
    var items := Items(Lines(Print(u)));
    ParsedItemsAreTidy(Print(u));
    LoopInvariant(items);
    FirstSeenIsDistinct(HeaderNames(items));
  }

  lemma ReturnedIsPrintable(sections: seq<Section>)
    requires TidySections(sections)
    requires forall i, j | 0 <= i < j < |sections| :: sections[i].name != sections[j].name
    requires Meaning(Print(ParsedUnit(sections))) == ParsedUnit(sections)
    ensures Printable(ParsedUnit(sections))
  {
    hide Meaning, Print, PrintedLines, Continues, TidySections, Glue, ItemsOf;
    var lines := PrintedLines(sections);
    CountLines(sections);
    if lines != [] {
      SomeSection(sections);
      LastLineEnds(sections);
    }
    forall l | l in lines
      ensures !Continues(l)
    {
      var i :| 0 <= i < |lines| && lines[i] == l;
    }
    GluePlain(lines);
    assert ItemsOf(lines) + [] == ItemsOf(lines);
    PrintableFromLines(sections);
  }

  lemma PrintedLinesPop(done: seq<Section>, name: string, entries: seq<Assignment>, a: Assignment)
    ensures PrintedLines(done + [Section(name, entries + [a])])
      == PrintedLines(done + [Section(name, entries)]) + [PrintAssignment(a)]
  {
    var all, shorter := done + [Section(name, entries + [a])], done + [Section(name, entries)];
    assert all[..|all| - 1] == done && shorter[..|shorter| - 1] == done;
    assert (entries + [a])[..|entries + [a]| - 1] == entries;
    var header := ["[" + name + "]"];
    Assoc(header, AssignmentLines(entries), [PrintAssignment(a)]);
    Assoc(PrintedLines(done), header + AssignmentLines(entries), [PrintAssignment(a)]);
  }

  lemma HeaderOnly(done: seq<Section>, name: string)
    ensures PrintedLines(done + [Section(name, [])]) == PrintedLines(done) + ["[" + name + "]"]
  {
    assert (done + [Section(name, [])])[..|done|] == done;
    assert ["[" + name + "]"] + [] == ["[" + name + "]"];
  }

  lemma LastLineEnds(sections: seq<Section>)
    requires TidySections(sections)
    requires forall i, j | 0 <= i < j < |sections| :: sections[i].name != sections[j].name
    requires Meaning(Print(ParsedUnit(sections))) == ParsedUnit(sections)
    requires PrintedLines(sections) != [] && sections != []
    ensures !Continues(PrintedLines(sections)[|PrintedLines(sections)| - 1])
  {
    hide Meaning, Print, Continues, PrintAssignment, AssignmentLines, PrintedLines, TidySections;
    var s, done := sections[|sections| - 1], sections[..|sections| - 1];
    assert done + [s] == sections;
    if s.entries == [] {
      assert s == Section(s.name, []);
      HeaderOnly(done, s.name);
      LastNameIsTidy(sections);
      HeaderLine(s.name);
    } else {
      var a, es := s.entries[|s.entries| - 1], s.entries[..|s.entries| - 1];
      assert es + [a] == s.entries && s == Section(s.name, es + [a]);
      PrintedLinesPop(done, s.name, es, a);
      LastEntryEnds(done, s.name, es, a);
    }
  }

  lemma SomeSection(sections: seq<Section>)
    requires PrintedLines(sections) != []
    ensures sections != []
  {}

  lemma LastNameIsTidy(sections: seq<Section>)
    requires TidySections(sections) && sections != []
    ensures TidyName(sections[|sections| - 1].name)
  {}

  lemma LastEntryEnds(done: seq<Section>, name: string, entries: seq<Assignment>, a: Assignment)
    requires var sections := done + [Section(name, entries + [a])];
      && TidySections(sections)
      && (forall i, j | 0 <= i < j < |sections| :: sections[i].name != sections[j].name)
      && Meaning(Print(ParsedUnit(sections))) == ParsedUnit(sections)
    ensures !Continues(PrintAssignment(a))
  {
    var sections, shorter := done + [Section(name, entries + [a])], done + [Section(name, entries)];
    var before, last := PrintedLines(shorter), PrintAssignment(a);
    if Continues(last) {
      CountLines(sections);
      PrintedLinesPop(done, name, entries, a);
      TidyPop(done, name, entries, a);
      var item := AssignmentOf(Trim(Piece(last)));
      LastItem(before, last);
      EntriesSnoc(ItemsOf(before), item);
      PrintableFromLines(shorter);
      LastEntryDiffers(done, name, entries, a, item);
    }
  }

  lemma TidyPop(done: seq<Section>, name: string, entries: seq<Assignment>, a: Assignment)
    requires var sections := done + [Section(name, entries + [a])];
      TidySections(sections) && (forall i, j | 0 <= i < j < |sections| :: sections[i].name != sections[j].name)
    ensures var shorter := done + [Section(name, entries)];
      TidySections(shorter) && (forall i, j | 0 <= i < j < |shorter| :: shorter[i].name != shorter[j].name)
    ensures TidyAssignment(a.key, a.value)
  {
    var sections, shorter := done + [Section(name, entries + [a])], done + [Section(name, entries)];
    assert forall i | 0 <= i < |shorter| :: shorter[i].name == sections[i].name;
    assert sections[|done|] in sections && a in sections[|done|].entries;
    forall s | s in shorter
      ensures TidyName(s.name) && forall b | b in s.entries :: TidyAssignment(b.key, b.value)
    {
      var i :| 0 <= i < |shorter| && shorter[i] == s;
      assert sections[i] in sections;
      assert forall b | b in s.entries :: b in sections[i].entries;
    }
  }

  lemma LastItem(before: seq<string>, last: string)
    requires Continues(last)
    requires DropComments(before + [last]) == before + [last]
    requires forall i | 0 <= i < |before + [last]| - 1 :: !Continues((before + [last])[i])
    ensures Items(before + [last]) == ItemsOf(before) + [AssignmentOf(Trim(Piece(last)))]
    ensures forall l | l in before :: !Continues(l)
  {
    forall l | l in before
      ensures !Continues(l)
    {
      var i :| 0 <= i < |before| && before[i] == l;
      assert (before + [last])[i] == l;
    }
    GlueContinuedLast(before, last);
  }

  lemma LastEntryDiffers(done: seq<Section>, name: string, entries: seq<Assignment>, a: Assignment, item: Item)
    requires Printable(ParsedUnit(done + [Section(name, entries)]))
    requires TidyAssignment(a.key, a.value) && Continues(PrintAssignment(a))
    requires item == AssignmentOf(Trim(Piece(PrintAssignment(a))))
    ensures Group(ItemsOf(PrintedLines(done + [Section(name, entries)])) + [item]).sections
      != done + [Section(name, entries + [a])]
  {
    var shorter := done + [Section(name, entries)];
    var items := ItemsOf(PrintedLines(shorter));
    SectionsRebuild(shorter);
    LastHeaderOfAssignments(done, name, entries);
    ContinuedLastLine(a);
    forall d | d in done
      ensures d.name != name
    {
      var i :| 0 <= i < |done| && done[i] == d;
      assert shorter[i] == d && shorter[|done|].name == name;
    }
    if item.Assign? {
      var b := Assignment(item.key, item.value);
      AssignStep(items, done, name, entries, b);
      assert (entries + [b])[|entries|] != (entries + [a])[|entries|];
      assert (done + [Section(name, entries + [b])])[|done|] != (done + [Section(name, entries + [a])])[|done|];
    } else {
      GroupNeither(items);
      assert |entries| != |entries + [a]|;
      assert shorter[|done|] != (done + [Section(name, entries + [a])])[|done|];
    }
  }

  lemma LastHeaderOfAssignments(done: seq<Section>, name: string, entries: seq<Assignment>)
    requires Printable(ParsedUnit(done + [Section(name, entries)]))
    ensures LastHeader(ItemsOf(PrintedLines(done + [Section(name, entries)])), None) == Some(name)
  {
    var s := Section(name, entries);
    var all := done + [s];
    assert s in all && all[|done|] == s;
    forall d | d in done
      ensures d.name != name && d in all
    {
      var i :| 0 <= i < |done| && done[i] == d;
      assert all[i] == d;
    }
    assert Printable(ParsedUnit(done)) by { assert forall i | 0 <= i < |done| :: all[i] == done[i]; }
    SectionsRebuild(done);
    PrintedItemsSnoc(done, s);
    HeaderStep(ItemsOf(PrintedLines(done)), done, name);
    AssignmentsRebuild(ItemsOf(PrintedLines(done)) + [Header(name)], done, name, entries);
  }

  // ---------- Merging what was printed ---------------------------------------------------

  /** A printed unit waits for nothing and begins with a header, if it has anything: it can be merged. */
  lemma PrintedCanBeMerged(u: ParsedUnit)
    requires Printable(u)
    ensures !EndsOpen(Print(u)) && OpensWithHeader(Print(u))
  {
    hide IsComment, Continues, DropCr, PrintedLines, Unlines;
    var lines := PrintedLines(u.sections);
    PrintedLinesPlain(u.sections);
    LinesOfUnlines(lines);
    PlainLinesStay(lines);
    LinesOfUnlines([]);
    ClosedByBreak(lines);
    SectionsRebuild(u.sections);
    FirstIsHeader(u.sections);
    assert ItemsOf(lines) + [] == ItemsOf(lines);
  }

  lemma ClosedByBreak(lines: seq<string>)
    requires forall l | l in lines :: PlainLine(l)
    ensures Glue(DropComments(Lines(Unlines(lines) + "\n"))).open.None?
  {
    hide IsComment, Continues, DropCr, Lines, Unlines, Terminated, DropComments;
    LinesOfUnlines(lines);
    TerminatedUnlines(lines);
    LinesConcat(Unlines(lines), "\n");
    assert "" + "\n" == "\n";
    LinesOfLine("");
    EmptyLineIsNothing();
    DropCommentsConcat(lines, [""]);
    PlainLinesStay(lines);
    GlueSnoc(lines, "");
    EmptyKeepsNoCr();
  }

  lemma EmptyKeepsNoCr()
    ensures DropCr("") == ""
  {}

  lemma {:induction false} TerminatedUnlines(lines: seq<string>)
    ensures Terminated(Unlines(lines))
  {
    if lines != [] {
      TerminatedUnlines(lines[1..]);
      var rest := Unlines(lines[1..]);
      assert Unlines(lines)[|Unlines(lines)| - 1] == if rest == "" then '\n' else rest[|rest| - 1];
    }
  }

  lemma {:induction false} FirstIsHeader(sections: seq<Section>)
    requires sections != [] ==> Printable(ParsedUnit(sections))
    ensures HeaderFirst(ItemsOf(PrintedLines(sections)))
  {
    if sections != [] {
      var n := |sections| - 1;
      FirstLineIsHeader(sections);
      var line := PrintedLines(sections)[0];
      assert sections[0] in sections && PrintableSection(sections[0]);
      HeaderLine(sections[0].name);
    }
  }

  lemma {:induction false} FirstLineIsHeader(sections: seq<Section>)
    requires sections != []
    ensures PrintedLines(sections) != [] && PrintedLines(sections)[0] == "[" + sections[0].name + "]"
  {
    if |sections| > 1 { FirstLineIsHeader(sections[..|sections| - 1]); }
  }
}
