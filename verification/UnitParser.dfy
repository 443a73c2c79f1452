/** The minimal systemd unit parser of src/state.rs: the line loop, and a declarative reading
    of unit text that it is proved equal to. */
module UnitParser {
  import opened Options
  import opened Text

  datatype Assignment = Assignment(key: string, value: string)

  datatype Section = Section(name: string, entries: seq<Assignment>)

  datatype ParsedUnit = ParsedUnit(sections: seq<Section>)

  // ---------- Declarative reading -------------------------------------------

  /** First non-blank character is `#` or `;`. */
  predicate IsComment(line: string) {
    var t := TrimStart(line);
    t != "" && (t[0] == '#' || t[0] == ';')
  }

  function TrailingBackslashes(s: string): nat {
    if s != "" && s[|s| - 1] == '\\' then 1 + TrailingBackslashes(s[..|s| - 1]) else 0
  }

  /** An odd run of trailing backslashes: the line goes on. */
  predicate Continues(line: string) {
    TrailingBackslashes(line) % 2 == 1
  }

  function DropComments(lines: seq<string>): seq<string> {
    if lines == [] then []
    else (if IsComment(lines[0]) then [] else [lines[0]]) + DropComments(lines[1..])
  }

  /** Finished logical lines, and the one still waiting for its end. */
  datatype Glued = Glued(done: seq<string>, open: Option<string>)

  /** A continued raw line contributes its text with the last backslash turned into a blank. */
  function Piece(line: string): string
    requires Continues(line)
  {
    line[..|line| - 1] + " "
  }

  /** One raw line before lines already grouped. */
  function GlueFirst(line: string, rest: Glued): Glued {
    if !Continues(line) then Glued([line] + rest.done, rest.open)
    else if rest.done != [] then Glued([Piece(line) + rest.done[0]] + rest.done[1..], rest.open)
    else Glued([], Some(Piece(line) + if rest.open.Some? then rest.open.value else ""))
  }

  /** Group raw lines into logical lines: whether a line continues depends on that raw line alone. */
  function Glue(lines: seq<string>): Glued {
    if lines == [] then Glued([], None) else GlueFirst(lines[0], Glue(lines[1..]))
  }

  datatype Item = Header(name: string) | Assign(key: string, value: string) | Neither

  function ParseSectionHeader(line: string): Option<string> {
    if |line| > 2 && line[0] == '[' && line[|line| - 1] == ']' then Some(line[1..|line| - 1]) else None
  }

  function AssignmentOf(trimmed: string): Item {
    match SplitOnce(trimmed, '=')
    case None => Neither
    case Some((k, v)) => if Trim(k) == "" then Neither else Assign(Trim(k), Trim(v))
  }

  function ItemOf(logical: string): Item {
    var t := Trim(logical);
    match ParseSectionHeader(t)
    case Some(n) => Header(n)
    case None => AssignmentOf(t)
  }

  function ItemsOf(logical: seq<string>): seq<Item> {
    if logical == [] then [] else [ItemOf(logical[0])] + ItemsOf(logical[1..])
  }

  /** A logical line left open at the end of the text is only tried as an assignment. */
  function OpenItem(open: Option<string>): seq<Item> {
    match open
    case None => []
    case Some(l) => [AssignmentOf(Trim(l))]
  }

  function Items(lines: seq<string>): seq<Item> {
    var g := Glue(DropComments(lines));
    ItemsOf(g.done) + OpenItem(g.open)
  }

  /** An assignment together with the section it stands in. */
  datatype Entry = Entry(section: string, key: string, value: string)

  function LastHeader(items: seq<Item>, current: Option<string>): Option<string> {
    if items == [] then current
    else LastHeader(items[1..], if items[0].Header? then Some(items[0].name) else current)
  }

  /** Assignments before the first header are lost. */
  function Entries(items: seq<Item>, current: Option<string>): seq<Entry> {
    if items == [] then []
    else
      match items[0]
      case Header(n) => Entries(items[1..], Some(n))
      case Assign(k, v) =>
        (if current.Some? then [Entry(current.value, k, v)] else []) + Entries(items[1..], current)
      case Neither => Entries(items[1..], current)
  }

  function HeaderNames(items: seq<Item>): seq<string> {
    if items == [] then []
    else (if items[0].Header? then [items[0].name] else []) + HeaderNames(items[1..])
  }

  /** Distinct names in order of first appearance. */
  function FirstSeen(names: seq<string>): seq<string> {
    if names == [] then []
    else
      var before := FirstSeen(names[..|names| - 1]);
      if names[|names| - 1] in before then before else before + [names[|names| - 1]]
  }

  function Bucket(entries: seq<Entry>, section: string): seq<Assignment> {
    if entries == [] then []
    else
      (if entries[0].section == section then [Assignment(entries[0].key, entries[0].value)] else [])
      + Bucket(entries[1..], section)
  }

  function Sections(names: seq<string>, entries: seq<Entry>): (r: seq<Section>)
    ensures |r| == |names|
    ensures forall i | 0 <= i < |r| :: r[i] == Section(names[i], Bucket(entries, names[i]))
  {
    if names == [] then [] else [Section(names[0], Bucket(entries, names[0]))] + Sections(names[1..], entries)
  }

  /** One section for each distinct header, holding that section's assignments in source order. */
  function Group(items: seq<Item>): ParsedUnit {
    ParsedUnit(Sections(FirstSeen(HeaderNames(items)), Entries(items, None)))
  }

  /** What a unit text means. */
  function Meaning(text: string): ParsedUnit {
    Group(Items(Lines(text)))
  }

  // ---------- Continuation ---------------------------------------------------

  /** The line ends in exactly `n` backslashes. */
  predicate EndsInBackslashes(line: string, n: nat) {
    && n <= |line| && (forall i | |line| - n <= i < |line| :: line[i] == '\\')
    && (n < |line| ==> line[|line| - n - 1] != '\\')
  }

  lemma {:induction false} RunOfBackslashes(line: string)
    ensures EndsInBackslashes(line, TrailingBackslashes(line))
    ensures forall n | EndsInBackslashes(line, n) :: n == TrailingBackslashes(line)
  {
    if line != "" && line[|line| - 1] == '\\' {
      var shorter := line[..|line| - 1];
      RunOfBackslashes(shorter);
      forall n: nat | EndsInBackslashes(line, n)
        ensures n == TrailingBackslashes(line)
      {
        assert n > 0 && EndsInBackslashes(shorter, n - 1);
      }
    }
  }

  /** A line goes on exactly if it ends in an odd number of backslashes; one backslash more turns that
      around. */
  lemma ContinuesExactly(line: string, n: nat)
    requires EndsInBackslashes(line, n)
    ensures Continues(line) <==> n % 2 == 1
    ensures Continues(line + "\\") <==> !Continues(line)
    ensures line == "" || line[|line| - 1] != '\\' ==> !Continues(line)
  {
    RunOfBackslashes(line);
    assert (line + "\\")[..|line|] == line;
  }

  lemma {:induction false} BackslashesAfterOther(prev: string, raw: string)
    requires prev != "" && prev[|prev| - 1] != '\\'
    ensures TrailingBackslashes(prev + raw) == TrailingBackslashes(raw)
  {
    if raw == "" {
      assert prev + raw == prev;
    } else if raw[|raw| - 1] == '\\' {
      assert (prev + raw)[..|prev + raw| - 1] == prev + raw[..|raw| - 1];
      BackslashesAfterOther(prev, raw[..|raw| - 1]);
    }
  }

  /** Whether a glued buffer continues depends only on its last raw line. */
  lemma ContinuesLastLine(prev: string, raw: string)
    requires prev != "" && prev[|prev| - 1] == ' '
    ensures Continues(prev + raw) == Continues(raw)
    ensures Continues(raw) ==> (prev + raw)[..|prev + raw| - 1] + " " == prev + Piece(raw)
  {
    BackslashesAfterOther(prev, raw);
  }

  lemma {:induction false} OpenEndsInBlank(lines: seq<string>)
    ensures var g := Glue(lines);
      g.open.Some? ==> g.open.value != "" && g.open.value[|g.open.value| - 1] == ' '
  {
    if lines != [] { OpenEndsInBlank(lines[1..]); }
  }

  /** One raw line after lines already grouped. */
  function GlueLast(g: Glued, raw: string): Glued {
    var buffer := if g.open.Some? then g.open.value else "";
    if Continues(raw) then Glued(g.done, Some(buffer + Piece(raw))) else Glued(g.done + [buffer + raw], None)
  }

  /** Effect of one more raw line on the grouping. */
  lemma {:induction false} GlueSnoc(lines: seq<string>, raw: string)
    ensures Glue(lines + [raw]) == GlueLast(Glue(lines), raw)
  {
    hide GlueFirst, GlueLast;
    if lines == [] {
      assert lines + [raw] == [raw] && [raw][1..] == [];
      GlueOne(raw);
    } else {
      var all := lines + [raw];
      assert all[0] == lines[0] && all[1..] == lines[1..] + [raw];
      GlueSnoc(lines[1..], raw);
      BothEnds(lines[0], Glue(lines[1..]), raw);
    }
  }

  lemma GlueOne(raw: string)
    ensures GlueFirst(raw, Glued([], None)) == GlueLast(Glued([], None), raw)
  {
    if Continues(raw) {
      assert Piece(raw) + "" == Piece(raw) == "" + Piece(raw);
    } else {
      assert [raw] + [] == [raw] && "" + raw == raw;
    }
  }

  lemma BothEnds(first: string, g: Glued, raw: string)
    ensures GlueFirst(first, GlueLast(g, raw)) == GlueLast(GlueFirst(first, g), raw)
  {
    hide Continues, Piece;
    var buffer := if g.open.Some? then g.open.value else "";
    if Continues(first) {
      if Continues(raw) {
        Assoc(Piece(first), buffer, Piece(raw));
      } else {
        Assoc(Piece(first), buffer, raw);
      }
    }
  }

  lemma {:induction false} DropCommentsConcat(a: seq<string>, b: seq<string>)
    ensures DropComments(a + b) == DropComments(a) + DropComments(b)
  {
    if a == [] {
      assert a + b == b;
    } else {
      assert (a + b)[1..] == a[1..] + b;
      DropCommentsConcat(a[1..], b);
    }
  }

  /** Effect of the next source line, comments included, in the terms of the loop. */
  lemma GlueNextLine(lines: seq<string>, n: nat)
    requires n < |lines|
    ensures var g, h := Glue(DropComments(lines[..n])), Glue(DropComments(lines[..n + 1]));
      var logical := if g.open.Some? then g.open.value + lines[n] else lines[n];
      if IsComment(lines[n]) then h == g
      else if Continues(logical) then h == Glued(g.done, Some(logical[..|logical| - 1] + " "))
      else h == Glued(g.done + [logical], None)
  {
    var before, raw := DropComments(lines[..n]), lines[n];
    assert lines[..n + 1] == lines[..n] + [raw];
    DropCommentsConcat(lines[..n], [raw]);
    assert DropComments([raw]) == if IsComment(raw) then [] else [raw];
    if IsComment(raw) {
      assert before + [] == before;
    } else {
      GlueSnoc(before, raw);
      OpenEndsInBlank(before);
      var g := Glue(before);
      if g.open.Some? {
        ContinuesLastLine(g.open.value, raw);
      } else {
        assert "" + raw == raw;
        if Continues(raw) { assert "" + Piece(raw) == Piece(raw); }
      }
    }
  }

  // ---------- Grouping -------------------------------------------------------

  lemma {:induction false} ItemsOfConcat(a: seq<string>, b: seq<string>)
    ensures ItemsOf(a + b) == ItemsOf(a) + ItemsOf(b)
  {
    if a == [] {
      assert a + b == b;
    } else {
      assert (a + b)[1..] == a[1..] + b;
      ItemsOfConcat(a[1..], b);
    }
  }

  lemma ItemsOfSnoc(a: seq<string>, logical: string)
    ensures ItemsOf(a + [logical]) == ItemsOf(a) + [ItemOf(logical)]
  {
    ItemsOfConcat(a, [logical]);
    assert [logical][1..] == [];
  }

  lemma {:induction false} EntriesConcat(a: seq<Item>, b: seq<Item>, current: Option<string>)
    ensures Entries(a + b, current) == Entries(a, current) + Entries(b, LastHeader(a, current))
    ensures LastHeader(a + b, current) == LastHeader(b, LastHeader(a, current))
  {
    if a == [] {
      assert a + b == b;
    } else {
      assert (a + b)[1..] == a[1..] + b;
      var next := if a[0].Header? then Some(a[0].name) else current;
      EntriesConcat(a[1..], b, next);
      var first := if a[0].Assign? && current.Some? then [Entry(current.value, a[0].key, a[0].value)] else [];
      assert first == [] ==> first + Entries(a[1..], next) == Entries(a[1..], next);
      Assoc(first, Entries(a[1..], next), Entries(b, LastHeader(a, current)));
    }
  }

  lemma {:induction false} HeaderNamesConcat(a: seq<Item>, b: seq<Item>)
    ensures HeaderNames(a + b) == HeaderNames(a) + HeaderNames(b)
  {
    if a == [] {
      assert a + b == b;
    } else {
      assert (a + b)[1..] == a[1..] + b;
      HeaderNamesConcat(a[1..], b);
      Assoc(if a[0].Header? then [a[0].name] else [], HeaderNames(a[1..]), HeaderNames(b));
    }
  }

  lemma {:induction false} BucketConcat(a: seq<Entry>, b: seq<Entry>, section: string)
    ensures Bucket(a + b, section) == Bucket(a, section) + Bucket(b, section)
  {
    if a == [] {
      assert a + b == b;
    } else {
      assert (a + b)[1..] == a[1..] + b;
      BucketConcat(a[1..], b, section);
      var first := if a[0].section == section then [Assignment(a[0].key, a[0].value)] else [];
      Assoc(first, Bucket(a[1..], section), Bucket(b, section));
    }
  }

  lemma BucketSnoc(entries: seq<Entry>, e: Entry, section: string)
    ensures Bucket(entries + [e], section)
      == if e.section == section then Bucket(entries, section) + [Assignment(e.key, e.value)] else Bucket(entries, section)
  {
    BucketConcat(entries, [e], section);
    assert [e][1..] == [];
  }

  lemma EntriesSnoc(items: seq<Item>, item: Item)
    ensures var current := LastHeader(items, None);
      Entries(items + [item], None) == Entries(items, None)
        + if item.Assign? && current.Some? then [Entry(current.value, item.key, item.value)] else []
    ensures LastHeader(items + [item], None) == if item.Header? then Some(item.name) else LastHeader(items, None)
    ensures HeaderNames(items + [item]) == HeaderNames(items) + if item.Header? then [item.name] else []
  {
    EntriesConcat(items, [item], None);
    HeaderNamesConcat(items, [item]);
    assert [item][1..] == [];
  }

  lemma {:induction false} FirstSeenIsDistinct(names: seq<string>)
    ensures Distinct(FirstSeen(names))
    ensures forall n :: n in FirstSeen(names) <==> n in names
  {
    if names != [] {
      FirstSeenIsDistinct(names[..|names| - 1]);
      assert names == names[..|names| - 1] + [names[|names| - 1]];
    }
  }

  lemma {:induction false} EntriesStandUnderHeaders(items: seq<Item>, current: Option<string>)
    ensures forall e | e in Entries(items, current) ::
      e.section in HeaderNames(items) || current == Some(e.section)
    ensures LastHeader(items, current) == current
      || (LastHeader(items, current).Some? && LastHeader(items, current).value in HeaderNames(items))
  {
    if items != [] {
      EntriesStandUnderHeaders(items[1..], if items[0].Header? then Some(items[0].name) else current);
    }
  }

  lemma {:induction false} EmptyBucket(entries: seq<Entry>, section: string)
    requires forall e | e in entries :: e.section != section
    ensures Bucket(entries, section) == []
  {
    if entries != [] { EmptyBucket(entries[1..], section); }
  }

  /** One more header registers its section once. */
  lemma GroupHeader(items: seq<Item>, n: string)
    ensures var was := Group(items).sections;
      Group(items + [Header(n)]).sections ==
      if n in HeaderNames(items) then was else was + [Section(n, [])]
  {
    var names := HeaderNames(items);
    EntriesSnoc(items, Header(n));
    assert (names + [n])[..|names + [n]| - 1] == names;
    FirstSeenIsDistinct(names);
    EntriesStandUnderHeaders(items, None);
    assert Entries(items, None) + [] == Entries(items, None);
    if n !in names { EmptyBucket(Entries(items, None), n); }
  }

  /** Position of the first section called `name`, or |sections|. */
  function SectionAt(sections: seq<Section>, name: string): (i: nat)
    ensures i <= |sections| && (i < |sections| ==> sections[i].name == name)
    ensures forall j | 0 <= j < i :: sections[j].name != name
  {
    if sections == [] || sections[0].name == name then 0 else 1 + SectionAt(sections[1..], name)
  }

  /** One more assignment lands at the end of the current section's bucket, or nowhere. */
  lemma GroupAssign(items: seq<Item>, k: string, v: string)
    ensures var was, now, last := Group(items).sections, Group(items + [Assign(k, v)]).sections, LastHeader(items, None);
      if last.None? then now == was
      else
        var i := SectionAt(was, last.value);
        i < |was| && now == was[i := Section(last.value, was[i].entries + [Assignment(k, v)])]
  {
    var names, entries := FirstSeen(HeaderNames(items)), Entries(items, None);
    EntriesSnoc(items, Assign(k, v));
    EntriesStandUnderHeaders(items, None);
    FirstSeenIsDistinct(HeaderNames(items));
    var last := LastHeader(items, None);
    assert HeaderNames(items) + [] == HeaderNames(items);
    assert entries + [] == entries;
    if last.Some? {
      SectionsExtend(names, entries, Entry(last.value, k, v));
    }
  }

  lemma SectionsExtend(names: seq<string>, entries: seq<Entry>, e: Entry)
    requires Distinct(names) && e.section in names
    ensures var was, now := Sections(names, entries), Sections(names, entries + [e]);
      var i := SectionAt(was, e.section);
      i < |was| && now == was[i := Section(e.section, was[i].entries + [Assignment(e.key, e.value)])]
  {
    hide Bucket, Sections, SectionAt;
    var was, now := Sections(names, entries), Sections(names, entries + [e]);
    var i := SectionAt(was, e.section);
    var k :| 0 <= k < |names| && names[k] == e.section;
    assert was[k].name == e.section;
    forall j | 0 <= j < |names|
      ensures now[j] == if j == i then Section(e.section, was[j].entries + [Assignment(e.key, e.value)]) else was[j]
    {
      BucketSnoc(entries, e, names[j]);
    }
  }

  lemma GroupNeither(items: seq<Item>)
    ensures Group(items + [Neither]) == Group(items)
    ensures LastHeader(items + [Neither], None) == LastHeader(items, None)
  {
    EntriesSnoc(items, Neither);
    assert HeaderNames(items) + [] == HeaderNames(items);
    assert Entries(items, None) + [] == Entries(items, None);
  }

  // ---------- The parser loop ------------------------------------------------

  method HasUnescapedTrailingBackslash(line: string) returns (b: bool)
    ensures b == Continues(line)
    ensures forall n | EndsInBackslashes(line, n) :: b <==> n % 2 == 1
    ensures exists n :: EndsInBackslashes(line, n)
  {
    RunOfBackslashes(line);
    if line == "" || line[|line| - 1] != '\\' {
      return false;
    }
    var n, i := 0, |line|;
    assert line[..|line|] == line;
    while i > 0 && line[i - 1] == '\\'
      invariant 0 <= i <= |line|
      invariant TrailingBackslashes(line) == n + TrailingBackslashes(line[..i])
    {
      assert line[..i][..i - 1] == line[..i - 1];
      n, i := n + 1, i - 1;
    }
    return n % 2 == 1;
  }

  /** Append to the bucket of the current section, if there is one. */
  method Append(sections: seq<Section>, current: Option<string>, trimmed: string, ghost items: seq<Item>)
      returns (out: seq<Section>)
    requires sections == Group(items).sections && current == LastHeader(items, None)
    ensures out == Group(items + [AssignmentOf(trimmed)]).sections
    ensures current == LastHeader(items + [AssignmentOf(trimmed)], None)
  {
    out := sections;
    var split := SplitOnce(trimmed, '=');
    EntriesSnoc(items, AssignmentOf(trimmed));
    if split.Some? && Trim(split.value.0) != "" {
      var key, value := Trim(split.value.0), Trim(split.value.1);
      GroupAssign(items, key, value);
      if current.Some? {
        var i := SectionAt(sections, current.value);
        if i < |sections| {
          out := sections[i := Section(current.value, sections[i].entries + [Assignment(key, value)])];
        }
      }
    } else {
      GroupNeither(items);
    }
  }

  /** A section is found exactly if its header was seen. */
  lemma SectionSeen(items: seq<Item>, name: string)
    ensures var sections := Group(items).sections;
      SectionAt(sections, name) == |sections| <==> name !in HeaderNames(items)
  {
    FirstSeenIsDistinct(HeaderNames(items));
    var names, sections := FirstSeen(HeaderNames(items)), Group(items).sections;
    assert |sections| == |names| && forall j | 0 <= j < |names| :: sections[j].name == names[j];
  }

  lemma NothingToAssign()
    ensures ParseSectionHeader("") == None && AssignmentOf("") == Neither
  {}

  /** One finished logical line: blank, header or assignment. */
  method Interpret(sections: seq<Section>, current: Option<string>, logical: string, ghost items: seq<Item>)
      returns (out: seq<Section>, next: Option<string>)
    requires sections == Group(items).sections && current == LastHeader(items, None)
    ensures out == Group(items + [ItemOf(logical)]).sections
    ensures next == LastHeader(items + [ItemOf(logical)], None)
  {
    hide Bucket, Entries, AssignmentOf, LastHeader, Trim, Group, HeaderNames, SectionAt, ParseSectionHeader;
    out, next := sections, current;
    var l := Trim(logical);
    if l == "" {
      NothingToAssign();
      GroupNeither(items);
      return;
    }
    var header := ParseSectionHeader(l);
    if header.Some? {
      GroupHeader(items, header.value);
      EntriesSnoc(items, Header(header.value));
      SectionSeen(items, header.value);
      next := header;
      if SectionAt(sections, header.value) == |sections| {
        out := sections + [Section(header.value, [])];
      }
    } else {
      out := Append(sections, current, l, items);
    }
  }

  lemma OnlySections(items: seq<Item>)
    ensures Group(items) == ParsedUnit(Group(items).sections)
  {}

  lemma NothingRead()
    ensures Glue(DropComments([])) == Glued([], None)
    ensures Group(ItemsOf([])).sections == [] && LastHeader(ItemsOf([]), None) == None
  {}

  /** `ParsedUnit::from_text`. */
  method FromText(text: string) returns (out: ParsedUnit)
    ensures out == Meaning(text)
  {
    hide Glue, DropComments, Group, ItemsOf, LastHeader, IsComment, ItemOf, Trim, Lines, AssignmentOf;
    NothingRead();
    var sections: seq<Section> := [];
    var current: Option<string> := None;
    var continuation: Option<string> := None;
    var lines := Lines(text);
    ghost var logicals: seq<string> := [];
    for n := 0 to |lines|
      invariant Glue(DropComments(lines[..n])) == Glued(logicals, continuation)
      invariant sections == Group(ItemsOf(logicals)).sections
      invariant current == LastHeader(ItemsOf(logicals), None)
    {
      var raw := lines[n];
      GlueNextLine(lines, n);
      if IsComment(raw) {
        continue;
      }
      var logical := if continuation.Some? then continuation.value + raw else raw;
      continuation := None;
      var goesOn := HasUnescapedTrailingBackslash(logical);
      if goesOn {
        continuation := Some(logical[..|logical| - 1] + " ");
        continue;
      }
      sections, current := Interpret(sections, current, logical, ItemsOf(logicals));
      ItemsOfSnoc(logicals, logical);
      logicals := logicals + [logical];
    }
    assert lines[..|lines|] == lines;
    OnlySections(Items(lines));
    if continuation.Some? {
      sections := Append(sections, current, Trim(continuation.value), ItemsOf(logicals));
    } else {
      assert ItemsOf(logicals) + [] == ItemsOf(logicals);
    }
    out := ParsedUnit(sections);
  }
}
