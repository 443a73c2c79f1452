/** What discovery makes of what is written in unit files and of what systemd answers. */
module DiscoverTexts {
  import opened Options
  import opened Text
  import opened SortedNames
  import opened UnitParser
  import opened UnitText
  import opened UnitPrint
  import opened Discover

  // ---------- The first value of a key ------------------------------------------------

  /** The key is nowhere in these assignments. */
  predicate Lacks(entries: seq<Assignment>, key: string) {
    forall n | 0 <= n < |entries| :: entries[n].key != key
  }

  lemma {:induction false} PickNothing(entries: seq<Assignment>, key: string)
    requires Lacks(entries, key)
    ensures Pick(entries, key) == []
  {
    if entries != [] { PickNothing(entries[1..], key); }
  }

  lemma {:induction false} PickFirst(before: seq<Assignment>, a: Assignment, after: seq<Assignment>)
    requires Lacks(before, a.key)
    ensures Pick(before + [a] + after, a.key) != [] && Pick(before + [a] + after, a.key)[0] == a.value
  {
    if before == [] {
      assert before + [a] + after == [a] + after;
    } else {
      assert (before + [a] + after)[1..] == before[1..] + [a] + after;
      PickFirst(before[1..], a, after);
    }
  }

  /** A unit whose `[Unit]` section, the first one, holds this assignment before any other of its key. */
  predicate Says(u: ParsedUnit, a: Assignment, before: seq<Assignment>, after: seq<Assignment>) {
    Printable(u) && u.sections != [] && u.sections[0] == Section("Unit", before + [a] + after) && Lacks(before, a.key)
  }

  /** A unit none of whose `[Unit]` sections holds the key. */
  predicate Silent(u: ParsedUnit, key: string) {
    Printable(u) && forall n | 0 <= n < |u.sections| && u.sections[n].name == "Unit" :: Lacks(u.sections[n].entries, key)
  }

  lemma FirstSaid(u: ParsedUnit, a: Assignment, before: seq<Assignment>, after: seq<Assignment>)
    requires Says(u, a, before, after)
    ensures First(Meaning(Print(u)), "Unit", a.key) == Some(a.value)
  {
    hide Printable, Print, Meaning;
    RoundTrip(u);
    PickFirst(before, a, after);
  }

  lemma {:induction false} NoValues(sections: seq<Section>, key: string)
    requires forall n | 0 <= n < |sections| && sections[n].name == "Unit" :: Lacks(sections[n].entries, key)
    ensures Values(ParsedUnit(sections), "Unit", key) == []
  {
    if sections != [] {
      if sections[0].name == "Unit" { PickNothing(sections[0].entries, key); }
      NoValues(sections[1..], key);
    }
  }

  lemma FirstUnsaid(u: ParsedUnit, key: string)
    requires Silent(u, key)
    ensures First(Meaning(Print(u)), "Unit", key) == None
  {
    hide Printable, Print, Meaning, Lacks;
    RoundTrip(u);
    NoValues(u.sections, key);
    assert ParsedUnit(u.sections) == u;
  }

  // ---------- Whose a unit is -----------------------------------------------------------

  /** A unit that says `X-Ghars-Managed=true` is a runner, one that says anything else is external. */
  lemma OursBySaying(s: State, dir: Dir, template: string, properties: Properties, name: string, u: ParsedUnit, value: string,
                     before: seq<Assignment>, after: seq<Assignment>)
    requires Snapshot(s, dir, template, properties) && IsInstance(RunnerUnit, dir, name)
    requires dir[FileName(RunnerUnit, name)].text == Some(Print(u))
    requires Says(u, Assignment("X-Ghars-Managed", value), before, after)
    ensures name in s.runners <==> value == "true"
    ensures name in s.external <==> value != "true"
  {
    hide Print, Meaning, First, DescribesRunner, PoolsFound, FileName, Says, Sorted;
    FirstSaid(u, Assignment("X-Ghars-Managed", value), before, after);
    NamesAreInstances(RunnerUnit, dir, name);
    assert name in s.external <==> name in Elements(s.external);
  }

  /** One that does not say it is external. */
  lemma ForeignBySilence(s: State, dir: Dir, template: string, properties: Properties, name: string, u: ParsedUnit)
    requires Snapshot(s, dir, template, properties) && IsInstance(RunnerUnit, dir, name)
    requires dir[FileName(RunnerUnit, name)].text == Some(Print(u)) && Silent(u, "X-Ghars-Managed")
    ensures name !in s.runners && name in s.external
  {
    hide Print, Meaning, First, DescribesRunner, PoolsFound, FileName, Silent, Sorted;
    FirstUnsaid(u, "X-Ghars-Managed");
    NamesAreInstances(RunnerUnit, dir, name);
    assert name in s.external <==> name in Elements(s.external);
  }

  // ---------- What is found of it --------------------------------------------------------

  /** Whoever is found has the hash its `00-ghars.conf` says, if there is one and it says any. */
  lemma HashBySaying(found: Found, kind: Kind, dir: Dir, name: string, drift: Drift, properties: Properties, u: ParsedUnit,
                     value: string, before: seq<Assignment>, after: seq<Assignment>)
    requires Describes(found, kind, dir, name, drift, properties)
    ensures "00-ghars.conf" !in found.dropIns.body ==> found.specHash == ""
    ensures "00-ghars.conf" in found.dropIns.body && found.dropIns.body["00-ghars.conf"] == Print(u) ==>
      && (Says(u, Assignment("X-Ghars-Spec-Hash", value), before, after) ==> found.specHash == value)
      && (Silent(u, "X-Ghars-Spec-Hash") ==> found.specHash == "")
  {
    hide Print, Meaning, First, Says, Silent, InstanceDropIns, IsRunning, IsEnabled;
    if Says(u, Assignment("X-Ghars-Spec-Hash", value), before, after) {
      FirstSaid(u, Assignment("X-Ghars-Spec-Hash", value), before, after);
    }
    if Silent(u, "X-Ghars-Spec-Hash") { FirstUnsaid(u, "X-Ghars-Spec-Hash"); }
  }

  /** An answer that is this word, between blanks. */
  ghost predicate Answered(answer: Option<string>, word: string) {
    answer.Some? && exists a, b :: Blank(a) && Blank(b) && answer.value == a + word + b
  }

  lemma AnsweredIsTrimmed(answer: Option<string>, word: string)
    requires Trimmed(word)
    ensures Answered(answer, word) <==> answer.Some? && Trim(answer.value) == word
  {
    hide Trim, Blank, Trimmed;
    if answer.Some? {
      if Answered(answer, word) {
        var a, b :| Blank(a) && Blank(b) && answer.value == a + word + b;
        TrimPads(a, word, b);
      }
      if Trim(answer.value) == word {
        var a, b := TrimSplits(answer.value);
      }
    }
  }

  /** It runs exactly if systemd answers `active`, and is enabled exactly if it answers `enabled` or
      `enabled-runtime`; the unit asked about is the runner's or the pool's own. */
  lemma FoundByAnswers(found: Found, kind: Kind, dir: Dir, name: string, drift: Drift, properties: Properties)
    requires Describes(found, kind, dir, name, drift, properties)
    ensures var answers :=
        properties(if kind.RunnerUnit? then "ghars-runner@" + name + ".service" else "ghars-cache@" + name + ".service");
      && (found.running <==> Answered(answers.0, "active"))
      && (found.enabled <==> Answered(answers.1, "enabled") || Answered(answers.1, "enabled-runtime"))
  {
    hide InstanceDropIns, SpecHash, Answered, Trim;
    var answers := properties(UnitName(kind, name));
    AnsweredIsTrimmed(answers.0, "active");
    AnsweredIsTrimmed(answers.1, "enabled");
    AnsweredIsTrimmed(answers.1, "enabled-runtime");
  }

  // ---------- Drop-ins ---------------------------------------------------------------------

  /** Where the drop-ins of a runner or of a pool are. */
  function DropInsOf(kind: Kind, name: string): string {
    if kind.RunnerUnit? then "ghars-runner@" + name + ".service.d" else "ghars-cache@" + name + ".service.d"
  }

  lemma DropInsAreThere(kind: Kind, name: string)
    ensures DropInDir(kind, name) == DropInsOf(kind, name)
  {
    assert ".service" + ".d" == ".service.d";
    Assoc("ghars-runner@" + name, ".service", ".d");
  }

  /** What is found there: a symbolic link is followed. */
  function Followed(e: Discover.Entry): Option<Discover.Entry> {
    if e.Alias? then e.target else Some(e)
  }

  /** The drop-ins found are exactly the regular files with a `conf` extension, each with its text; none if
      there is no folder. */
  lemma DropInsFound(found: Found, kind: Kind, dir: Dir, name: string, drift: Drift, properties: Properties)
    requires Describes(found, kind, dir, name, drift, properties)
    ensures var d := DropInsOf(kind, name);
      && (d !in dir || Followed(dir[d]).None? ==> found.dropIns.body == map[])
      && (d in dir && Followed(dir[d]).Some? ==>
            var e := Followed(dir[d]).value;
            && e.Folder?
            && (forall n :: n in found.dropIns.body <==> n in e.entries && e.entries[n].Plain? && IsConf(n))
            && (forall n | n in found.dropIns.body :: e.entries[n].text == Some(found.dropIns.body[n])))
  {
    hide IsConf, SpecHash, IsRunning, IsEnabled, DropInDir, SortedMap.Valid;
    DropInsAreThere(kind, name);
    assert Some(found.dropIns.body) == DropInsAt(dir, DropInsOf(kind, name));
    assert forall n, entries: map<string, Leaf> {:trigger IsDropIn(entries, n)} ::
      IsDropIn(entries, n) <==> n in entries && entries[n].Plain? && IsConf(n);
  }

  /** Something is where the drop-ins should be that is no readable folder, or a drop-in in it cannot be read. */
  ghost predicate Blocked(dir: Dir, d: string) {
    d in dir && Followed(dir[d]).Some? &&
    var e := Followed(dir[d]).value;
    e.Folder? ==> exists n | n in e.entries :: e.entries[n].Plain? && IsConf(n) && e.entries[n].text.None?
  }

  /** What makes a discovery fail: a runner's unit file that cannot be read, or blocked drop-ins of a pool or of
      a runner that is ours; those of a foreign unit do not matter. */
  lemma UnreadableExactly(kind: Kind, dir: Dir, name: string)
    requires IsInstance(kind, dir, name)
    ensures var text := if kind.RunnerUnit? then dir["ghars-runner@" + name + ".service"].text else None;
      !Readable(kind, dir, name) <==>
        || (kind.RunnerUnit? && text.None?)
        || ((kind.PoolFolder? || First(Meaning(text.value), "Unit", "X-Ghars-Managed") == Some("true"))
            && Blocked(dir, DropInsOf(kind, name)))
  {
    hide IsConf, First, Meaning, DropInDir;
    DropInsAreThere(kind, name);
    BlockedMeans(dir, DropInsOf(kind, name));
  }

  lemma BlockedMeans(dir: Dir, d: string)
    ensures Blocked(dir, d) <==> DropInsAt(dir, d).None?
  {
    hide IsConf;
  }
}
