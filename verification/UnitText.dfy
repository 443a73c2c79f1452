/** What the unit parser promises its callers: comments are invisible, no assignment is lost,
    pasting template and drop-ins together keeps every value, printing and parsing invert. */
module UnitText {
  import opened Options
  import opened Text
  import opened UnitParser

  // ---------- Comments -------------------------------------------------------

  lemma {:induction false} CommentWithoutCr(c: string)
    requires IsComment(c)
    ensures IsComment(DropCr(c))
  {
    if IsWhitespace(c[0]) && DropCr(c) != c {
      CommentWithoutCr(c[1..]);
      assert DropCr(c)[1..] == DropCr(c[1..]);
    }
  }

  /** A comment line put at any line boundary, even between a continued line and its
      continuation, never changes what the text means. */
  lemma CommentsAreInvisible(before: string, comment: string, after: string)
    requires Terminated(before)
    requires IsComment(comment) && '\n' !in comment
    ensures Meaning(before + (comment + "\n") + after) == Meaning(before + after)
  {
    var line := comment + "\n";
    assert Terminated(before + line);
    LinesConcat(before + line, after);
    LinesConcat(before, line);
    LinesConcat(before, after);
    LinesOfLine(comment);
    CommentWithoutCr(comment);
    DropCommentsConcat(Lines(before), [DropCr(comment)]);
    DropCommentsConcat(Lines(before) + [DropCr(comment)], Lines(after));
    DropCommentsConcat(Lines(before), Lines(after));
    assert DropComments([DropCr(comment)]) == [];
    assert DropComments(Lines(before)) + [] == DropComments(Lines(before));
  }

  // ---------- Nothing is lost ------------------------------------------------

  /** `ParsedUnit::values`. */
  function Values(u: ParsedUnit, section: string, key: string): seq<string>
    decreases |u.sections|
  {
    if u.sections == [] then []
    else
      (if u.sections[0].name == section then Pick(u.sections[0].entries, key) else [])
      + Values(ParsedUnit(u.sections[1..]), section, key)
  }

  function Pick(entries: seq<Assignment>, key: string): seq<string> {
    if entries == [] then []
    else (if entries[0].key == key then [entries[0].value] else []) + Pick(entries[1..], key)
  }

  /** `ParsedUnit::first`. */
  function First(u: ParsedUnit, section: string, key: string): Option<string> {
    var vs := Values(u, section, key);
    if vs == [] then None else Some(vs[0])
  }

  /** The values assigned to `key` while `section` is the section last opened, in source order. */
  function Select(entries: seq<Entry>, section: string, key: string): seq<string> {
    if entries == [] then []
    else
      (if entries[0].section == section && entries[0].key == key then [entries[0].value] else [])
      + Select(entries[1..], section, key)
  }

  lemma {:induction false} PickBucket(entries: seq<Entry>, section: string, key: string)
    ensures Pick(Bucket(entries, section), key) == Select(entries, section, key)
  {
    if entries != [] {
      PickBucket(entries[1..], section, key);
      var first, rest := Assignment(entries[0].key, entries[0].value), Bucket(entries[1..], section);
      assert ([first] + rest)[1..] == rest && [] + rest == rest;
      assert [] + Select(entries[1..], section, key) == Select(entries[1..], section, key);
    }
  }

  lemma {:induction false} NothingSelected(entries: seq<Entry>, section: string, key: string)
    requires forall e | e in entries :: e.section != section
    ensures Select(entries, section, key) == []
  {
    if entries != [] { NothingSelected(entries[1..], section, key); }
  }

  lemma {:induction false} ValuesOfSections(names: seq<string>, entries: seq<Entry>, section: string, key: string)
    requires Distinct(names)
    ensures Values(ParsedUnit(Sections(names, entries)), section, key)
      == if section in names then Select(entries, section, key) else []
  {
    if names != [] {
      assert Sections(names, entries)[1..] == Sections(names[1..], entries);
      ValuesOfSections(names[1..], entries, section, key);
      if names[0] == section { PickBucket(entries, section, key); }
    }
  }

  /** `values` reads off the text's assignments: splitting them over buckets loses none. */
  lemma ValuesOfGroup(items: seq<Item>, section: string, key: string)
    ensures Values(Group(items), section, key) == Select(Entries(items, None), section, key)
  {
    FirstSeenIsDistinct(HeaderNames(items));
    EntriesStandUnderHeaders(items, None);
    ValuesOfSections(FirstSeen(HeaderNames(items)), Entries(items, None), section, key);
    if section !in HeaderNames(items) { NothingSelected(Entries(items, None), section, key); }
  }

  function TotalEntries(sections: seq<Section>): nat {
    if sections == [] then 0 else |sections[0].entries| + TotalEntries(sections[1..])
  }

  lemma {:induction false} NoEntries(names: seq<string>)
    ensures TotalEntries(Sections(names, [])) == 0
  {
    if names != [] {
      assert Sections(names, [])[1..] == Sections(names[1..], []);
      NoEntries(names[1..]);
    }
  }

  lemma {:induction false} OneMoreEntry(names: seq<string>, e: Entry, rest: seq<Entry>)
    requires Distinct(names)
    ensures TotalEntries(Sections(names, [e] + rest))
      == TotalEntries(Sections(names, rest)) + if e.section in names then 1 else 0
  {
    if names != [] {
      assert Sections(names, [e] + rest)[1..] == Sections(names[1..], [e] + rest);
      assert Sections(names, rest)[1..] == Sections(names[1..], rest);
      assert ([e] + rest)[1..] == rest;
      OneMoreEntry(names[1..], e, rest);
    }
  }

  lemma {:induction false} BucketsCoverEntries(names: seq<string>, entries: seq<Entry>)
    requires Distinct(names) && forall e | e in entries :: e.section in names
    ensures TotalEntries(Sections(names, entries)) == |entries|
  {
    if entries == [] {
      NoEntries(names);
    } else {
      assert entries == [entries[0]] + entries[1..];
      OneMoreEntry(names, entries[0], entries[1..]);
      BucketsCoverEntries(names, entries[1..]);
    }
  }

  predicate PlainKey(k: string) {
    k != "" && Trimmed(k) && '=' !in k
  }

  predicate TidyName(n: string) {
    n != "" && '\n' !in n
  }

  predicate TidyAssignment(key: string, value: string) {
    PlainKey(key) && '\n' !in key && Trimmed(value) && '\n' !in value
  }

  predicate ItemsAreTidy(items: seq<Item>) {
    forall it | it in items ::
      (it.Header? ==> TidyName(it.name)) && (it.Assign? ==> TidyAssignment(it.key, it.value))
  }

  lemma AssignmentIsTidy(l: string)
    requires '\n' !in l
    ensures ItemsAreTidy([AssignmentOf(l)])
  {
    var split := SplitOnce(l, '=');
    if split.Some? {
      TrimIsTrimmed(split.value.0);
      TrimIsTrimmed(split.value.1);
    }
  }

  lemma ItemIsTidy(logical: string)
    requires '\n' !in logical
    ensures ItemsAreTidy([ItemOf(logical)])
  {
    TrimIsTrimmed(logical);
    AssignmentIsTidy(Trim(logical));
  }

  lemma {:induction false} ItemsOfAreTidy(logical: seq<string>)
    requires forall l | l in logical :: '\n' !in l
    ensures ItemsAreTidy(ItemsOf(logical))
  {
    if logical != [] {
      assert logical[0] in logical;
      ItemIsTidy(logical[0]);
      assert ItemOf(logical[0]) in [ItemOf(logical[0])];
      ItemsOfAreTidy(logical[1..]);
    }
  }

  lemma {:induction false} GlueAddsNoBreak(lines: seq<string>)
    requires forall l | l in lines :: '\n' !in l
    ensures forall l | l in Glue(lines).done :: '\n' !in l
    ensures Glue(lines).open.Some? ==> '\n' !in Glue(lines).open.value
  {
    if lines != [] {
      assert lines[0] in lines;
      GlueAddsNoBreak(lines[1..]);
      var rest := Glue(lines[1..]);
      if rest.done != [] { assert rest.done[0] in rest.done; }
    }
  }

  lemma {:induction false} DropCommentsAddsNothing(lines: seq<string>)
    ensures forall l | l in DropComments(lines) :: l in lines
  {
    if lines != [] { DropCommentsAddsNothing(lines[1..]); }
  }

  lemma {:induction false} EntriesAreTidy(items: seq<Item>, current: Option<string>)
    requires ItemsAreTidy(items)
    ensures forall e | e in Entries(items, current) :: TidyAssignment(e.key, e.value)
    ensures forall n | n in HeaderNames(items) :: TidyName(n)
  {
    if items != [] {
      assert items[0] in items;
      assert forall it | it in items[1..] :: it in items;
      EntriesAreTidy(items[1..], if items[0].Header? then Some(items[0].name) else current);
    }
  }

  lemma {:induction false} BucketKeepsOrder(entries: seq<Entry>, section: string)
    ensures forall a | a in Bucket(entries, section) :: Entry(section, a.key, a.value) in entries
  {
    if entries != [] { BucketKeepsOrder(entries[1..], section); }
  }

  /** What holds of the sections after any number of lines: names are distinct and non-empty, keys
      non-empty and trimmed, values trimmed, the section being filled has a bucket, and the buckets
      together hold every assignment made inside a section. */
  lemma LoopInvariant(items: seq<Item>)
    requires ItemsAreTidy(items)
    ensures var u := Group(items);
      && Distinct(seq(|u.sections|, i requires 0 <= i < |u.sections| => u.sections[i].name))
      && (forall s | s in u.sections :: TidyName(s.name)
            && forall a | a in s.entries :: TidyAssignment(a.key, a.value))
      && (LastHeader(items, None).Some? ==>
            exists s :: s in u.sections && s.name == LastHeader(items, None).value)
      && TotalEntries(u.sections) == |Entries(items, None)|
  {
    hide TidyName, TidyAssignment, Bucket, FirstSeen, HeaderNames, Entries, TotalEntries, LastHeader, ItemsAreTidy;
    var names, entries := FirstSeen(HeaderNames(items)), Entries(items, None);
    var u := Group(items);
    FirstSeenIsDistinct(HeaderNames(items));
    EntriesStandUnderHeaders(items, None);
    BucketsCoverEntries(names, entries);
    SectionsAreTidy(items);
    var last := LastHeader(items, None);
    if last.Some? {
      var i :| 0 <= i < |names| && names[i] == last.value;
      assert u.sections[i] in u.sections;
    }
  }

  lemma SectionsAreTidy(items: seq<Item>)
    requires ItemsAreTidy(items)
    ensures forall s | s in Group(items).sections ::
      TidyName(s.name) && forall a | a in s.entries :: TidyAssignment(a.key, a.value)
  {
    hide TidyName, TidyAssignment, Bucket, Entries;
    var names, entries := FirstSeen(HeaderNames(items)), Entries(items, None);
    var u := Group(items);
    FirstSeenIsDistinct(HeaderNames(items));
    EntriesAreTidy(items, None);
    forall s | s in u.sections
      ensures TidyName(s.name) && forall a | a in s.entries :: TidyAssignment(a.key, a.value)
    {
      var i :| 0 <= i < |names| && u.sections[i] == s;
      BucketKeepsOrder(entries, names[i]);
      assert names[i] in HeaderNames(items);
    }
  }

  /** ... and therefore of every parsed text. */
  lemma ParsedItemsAreTidy(text: string)
    ensures ItemsAreTidy(Items(Lines(text)))
  {
    var g := Glue(DropComments(Lines(text)));
    LinesHaveNoBreak(text);
    DropCommentsAddsNothing(Lines(text));
    GlueAddsNoBreak(DropComments(Lines(text)));
    ItemsOfAreTidy(g.done);
    if g.open.Some? {
      TrimIsTrimmed(g.open.value);
      AssignmentIsTidy(Trim(g.open.value));
    }
  }

  // ---------- Pasting template and drop-ins together -------------------------

  /** The text leaves a continued line waiting, as it stands or once a line break closes it
      (which turns a final backslash followed by '\r' into a continuation). */
  predicate EndsOpen(part: string) {
    Glue(DropComments(Lines(part))).open.Some? || Glue(DropComments(Lines(part + "\n"))).open.Some?
  }

  /** Whatever comes before it, a last line that is no comment leaves the text open exactly if it ends in an
      odd number of backslashes: one that ends in two does not swallow the next line. */
  lemma OpenByParity(text: string, line: string, n: nat)
    requires '\n' !in line && DropCr(line) == line && line != "" && !IsComment(line) && EndsInBackslashes(line, n)
    ensures EndsOpen(text + "\n" + line) <==> n % 2 == 1
    ensures n % 2 == 0 ==>
      forall body :: Items(Lines(text + "\n" + line + "\n" + body)) == Items(Lines(text + "\n" + line + "\n")) + Items(Lines(body))
  {
    hide Continues, DropCr, IsComment, EndsInBackslashes, ItemsOf;
    ContinuesExactly(line, n);
    var before := Lines(text + "\n");
    LinesConcat(text + "\n", line);
    LinesConcat(text + "\n", line + "\n");
    Assoc(text + "\n", line, "\n");
    LinesOfOpenLine(line);
    LinesOfLine(line);
    OpenByLastLine(before, line);
    if n % 2 == 0 {
      forall body
        ensures Items(Lines(text + "\n" + line + "\n" + body)) == Items(Lines(text + "\n" + line + "\n")) + Items(Lines(body))
      {
        LinesConcat(text + "\n" + line + "\n", body);
        ItemsConcat(before + [line], Lines(body));
      }
    }
  }

  lemma OpenByLastLine(lines: seq<string>, line: string)
    requires !IsComment(line)
    ensures Glue(DropComments(lines + [line])).open.Some? <==> Continues(line)
  {
    hide Continues, IsComment, GlueFirst;
    DropCommentsConcat(lines, [line]);
    assert [line][1..] == [] && DropComments([line]) == [line];
    GlueSnoc(DropComments(lines), line);
  }

  /** Some header stands before the first assignment. */
  predicate OpensWithHeader(body: string) {
    HeaderFirst(Items(Lines(body)))
  }

  predicate HeaderFirst(items: seq<Item>) {
    items != [] && !items[0].Header? ==> items[0].Neither? && HeaderFirst(items[1..])
  }

  lemma {:induction false} HeaderFirstForgets(items: seq<Item>, current: Option<string>)
    requires HeaderFirst(items)
    ensures Entries(items, current) == Entries(items, None)
  {
    if items != [] && !items[0].Header? { HeaderFirstForgets(items[1..], current); }
  }

  lemma {:induction false} GlueConcat(a: seq<string>, b: seq<string>)
    requires Glue(a).open.None?
    ensures Glue(a + b) == Glued(Glue(a).done + Glue(b).done, Glue(b).open)
  {
    hide Continues;
    if a == [] {
      assert a + b == b;
      assert [] + Glue(b).done == Glue(b).done;
    } else {
      assert (a + b)[1..] == a[1..] + b;
      GlueConcat(a[1..], b);
      var g, h := Glue(a[1..]), Glue(b);
      if !Continues(a[0]) {
        Assoc([a[0]], g.done, h.done);
      } else {
        assert g.done != [];
        assert (g.done + h.done)[1..] == g.done[1..] + h.done;
        Assoc([Piece(a[0]) + g.done[0]], g.done[1..], h.done);
      }
    }
  }

  /** Closed lines followed by others: the items follow each other. */
  lemma ItemsConcat(a: seq<string>, b: seq<string>)
    requires Glue(DropComments(a)).open.None?
    ensures Items(a + b) == Items(a) + Items(b)
    ensures Glue(DropComments(a + b)).open == Glue(DropComments(b)).open
  {
    DropCommentsConcat(a, b);
    GlueConcat(DropComments(a), DropComments(b));
    var g, h := Glue(DropComments(a)), Glue(DropComments(b));
    ItemsOfConcat(g.done, h.done);
    assert ItemsOf(g.done) + [] == ItemsOf(g.done);
    Assoc(ItemsOf(g.done), ItemsOf(h.done), OpenItem(h.open));
  }

  lemma LastLine(t: string) returns (a: string, last: string)
    ensures t == a + last && Terminated(a) && '\n' !in last
    ensures Lines(t) == Lines(a) + (if last == "" then [] else [last])
    ensures Lines(t + "\n") == Lines(a) + [DropCr(last)]
  {
    var i := FindLast(t, '\n');
    a, last := t[..i], t[i..];
    assert t == a + last;
    LinesConcat(a, last);
    LinesConcat(a, last + "\n");
    Assoc(a, last, "\n");
    LinesOfLine(last);
    if last != "" { LinesOfOpenLine(last); }
  }

  lemma LinesOfOpenLine(line: string)
    requires line != "" && '\n' !in line
    ensures Lines(line) == [line]
  {}

  lemma CommentWithCr(c: string)
    requires IsComment(DropCr(c))
    ensures IsComment(c)
    decreases |c|
  {
    if DropCr(c) != c && IsWhitespace(c[0]) {
      assert DropCr(c)[1..] == DropCr(c[1..]);
      CommentWithCr(c[1..]);
    }
  }

  /** A last line with and without its '\r' finish the same logical line. */
  lemma SameItem(buffer: string, last: string)
    ensures ItemOf(buffer + last) == ItemOf(buffer + DropCr(last))
  {
    if DropCr(last) != last {
      Assoc(buffer, DropCr(last), "\r");
      assert buffer + last == (buffer + DropCr(last)) + ['\r'];
      TrimAppend(buffer + DropCr(last), '\r');
    }
  }

  lemma EmptyLineIsNothing()
    ensures DropComments([""]) == [""] && !Continues("") && ItemOf("") == Neither
  {
    assert [""][1..] == [];
    assert TrimStart("") == "";
    assert Trim("") == "";
  }

  lemma ItemsOfClosed(lines: seq<string>, logicals: seq<string>, logical: string)
    requires Glue(DropComments(lines)) == Glued(logicals + [logical], None)
    ensures Items(lines) == ItemsOf(logicals) + [ItemOf(logical)]
  {
    ItemsOfSnoc(logicals, logical);
    assert Items(lines) == ItemsOf(logicals + [logical]) + [];
  }

  /** A last line that closes the text: with or without its '\r', the items are the same. */
  lemma ClosingLastLine(lines: seq<string>, last: string)
    requires Glue(DropComments(lines + [last])).open.None?
    requires Glue(DropComments(lines + [DropCr(last)])).open.None?
    ensures Items(lines + [last]) == Items(lines + [DropCr(last)])
  {
    hide Glue, DropComments, ItemOf, ItemsOf, IsComment, Continues, DropCr;
    var x := DropCr(last);
    var with, without := lines + [last], lines + [x];
    var g := Glue(DropComments(lines));
    var buffer := if g.open.Some? then g.open.value else "";
    assert with[..|lines|] == lines && with[..|lines| + 1] == with;
    assert without[..|lines|] == lines && without[..|lines| + 1] == without;
    GlueNextLine(with, |lines|);
    GlueNextLine(without, |lines|);
    if IsComment(last) {
      CommentWithoutCr(last);
    } else {
      if IsComment(x) { CommentWithCr(last); }
      assert "" + last == last && "" + x == x;
      SameItem(buffer, last);
      ItemsOfClosed(with, g.done, buffer + last);
      ItemsOfClosed(without, g.done, buffer + x);
    }
  }

  lemma ClosingEmptyLine(lines: seq<string>)
    requires Glue(DropComments(lines)).open.None?
    ensures Items(lines + [""]) == Items(lines) + [Neither]
  {
    var all := lines + [""];
    assert all[..|lines|] == lines && all[..|lines| + 1] == all;
    GlueNextLine(all, |lines|);
    EmptyLineIsNothing();
    ItemsOfClosed(all, Glue(DropComments(lines)).done, "");
    assert Items(lines) == ItemsOf(Glue(DropComments(lines)).done) + [];
  }

  /** Closing a text that does not end open with a line break keeps its headers and assignments. */
  lemma ClosingLine(t: string)
    requires !EndsOpen(t)
    ensures Entries(Items(Lines(t + "\n")), None) == Entries(Items(Lines(t)), None)
    ensures HeaderFirst(Items(Lines(t + "\n"))) == HeaderFirst(Items(Lines(t)))
  {
    var a, last := LastLine(t);
    if last == "" {
      assert Lines(a) + [] == Lines(a);
      ClosingEmptyLine(Lines(a));
      EntriesSnoc(Items(Lines(a)), Neither);
      assert Entries(Items(Lines(a)), None) + [] == Entries(Items(Lines(a)), None);
      HeaderFirstSnoc(Items(Lines(a)));
    } else {
      ClosingLastLine(Lines(a), last);
    }
  }

  lemma {:induction false} HeaderFirstSnoc(items: seq<Item>)
    ensures HeaderFirst(items + [Neither]) == HeaderFirst(items)
  {
    if items == [] {
      assert [Neither][1..] == [];
    } else {
      assert (items + [Neither])[1..] == items[1..] + [Neither];
      HeaderFirstSnoc(items[1..]);
    }
  }

  /** Template, then each body after a line break. */
  function Merged(template: string, bodies: seq<string>): string {
    if bodies == [] then template
    else Merged(template, bodies[..|bodies| - 1]) + "\n" + bodies[|bodies| - 1]
  }

  /** `rendered_runner_unit` (with the drop-in bodies in basename order) and, with one body,
      `rendered_cache_unit`. */
  /** One more body is one more line break and the body. */
  lemma MergedMore(template: string, bodies: seq<string>, body: string)
    ensures Merged(template, []) == template
    ensures Merged(template, bodies + [body]) == Merged(template, bodies) + "\n" + body
  {
    assert (bodies + [body])[..|bodies|] == bodies;
  }

  method RenderMerged(template: string, bodies: seq<string>) returns (merged: string)
    ensures merged == Merged(template, bodies)
  {
    merged := template;
    for i := 0 to |bodies|
      invariant merged == Merged(template, bodies[..i])
    {
      assert bodies[..i + 1][..i] == bodies[..i];
      merged := merged + "\n";
      merged := merged + bodies[i];
    }
    assert bodies[..|bodies|] == bodies;
  }

  function SelectAll(bodies: seq<string>, section: string, key: string): seq<string> {
    if bodies == [] then []
    else SelectAll(bodies[..|bodies| - 1], section, key) + Values(Meaning(bodies[|bodies| - 1]), section, key)
  }

  lemma {:induction false} SelectConcat(a: seq<Entry>, b: seq<Entry>, section: string, key: string)
    ensures Select(a + b, section, key) == Select(a, section, key) + Select(b, section, key)
  {
    if a == [] {
      assert a + b == b;
    } else {
      assert (a + b)[1..] == a[1..] + b;
      SelectConcat(a[1..], b, section, key);
    }
  }

  /** Pasting one more part after a closed text. */
  lemma PasteOne(text: string, body: string, section: string, key: string)
    requires !EndsOpen(text) && OpensWithHeader(body)
    ensures Values(Meaning(text + "\n" + body), section, key)
      == Values(Meaning(text), section, key) + Values(Meaning(body), section, key)
    ensures !EndsOpen(body) ==> !EndsOpen(text + "\n" + body)
  {
    var closed := Lines(text + "\n");
    LinesConcat(text + "\n", body);
    LinesConcat(text + "\n", body + "\n");
    Assoc(text + "\n", body, "\n");
    ItemsConcat(closed, Lines(body));
    ItemsConcat(closed, Lines(body + "\n"));
    ClosingLine(text);
    EntriesConcat(Items(closed), Items(Lines(body)), None);
    HeaderFirstForgets(Items(Lines(body)), LastHeader(Items(closed), None));
    SelectConcat(Entries(Items(closed), None), Entries(Items(Lines(body)), None), section, key);
    ValuesOfGroup(Items(Lines(text)), section, key);
    ValuesOfGroup(Items(Lines(body)), section, key);
    ValuesOfGroup(Items(Lines(text + "\n" + body)), section, key);
  }

  /** Merging preserves meaning: every key of every section has, in the merged text, the values of
      the parts in template-then-basename order. Only the last part may end in a continued line. */
  lemma {:induction false} MergePreservesValues(template: string, bodies: seq<string>, section: string, key: string)
    requires bodies != [] ==> !EndsOpen(template)
    requires forall i | 0 <= i < |bodies| :: OpensWithHeader(bodies[i])
    requires forall i | 0 <= i < |bodies| - 1 :: !EndsOpen(bodies[i])
    ensures Values(Meaning(Merged(template, bodies)), section, key)
      == Values(Meaning(template), section, key) + SelectAll(bodies, section, key)
    ensures !EndsOpen(template) && (forall i | 0 <= i < |bodies| :: !EndsOpen(bodies[i]))
      ==> !EndsOpen(Merged(template, bodies))
  {
    hide Meaning, Values, EndsOpen, OpensWithHeader;
    if bodies != [] {
      var n := |bodies| - 1;
      MergePreservesValues(template, bodies[..n], section, key);
      PasteOne(Merged(template, bodies[..n]), bodies[n], section, key);
      Assoc(Values(Meaning(template), section, key), SelectAll(bodies[..n], section, key),
            Values(Meaning(bodies[n]), section, key));
    } else {
      assert Values(Meaning(template), section, key) + [] == Values(Meaning(template), section, key);
    }
  }
}
