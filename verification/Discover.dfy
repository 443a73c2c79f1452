/** Discovering what exists: which unit files and drop-in folders count, whose they are, how they have
    drifted. */
module Discover {
  import opened Options
  import opened Text
  import opened SortedNames
  import opened UnitParser
  import opened UnitText

  /** A file is regular, with its text if that can be read, or something that is skipped. */
  datatype Leaf = Plain(text: Option<string>) | OtherLeaf

  /** A folder may be unreadable; a symbolic link leads to some entry or to nothing. */
  datatype Entry =
    | Regular(text: Option<string>)
    | Folder(entries: map<string, Leaf>)
    | SealedFolder
    | Alias(target: Option<Entry>)
    | OtherEntry

  type Dir = map<string, Entry>

  /** The unit directory: not there, not to be opened or listed to its end, or listed. */
  datatype UnitDir = Missing | Unreadable | Listed(dir: Dir)

  /** `BTreeMap<String, String>`: the keys iterate in order. */
  datatype SortedMap = SortedMap(keys: seq<string>, body: map<string, string>) {
    predicate Valid() {
      Sorted(keys) && Elements(keys) == body.Keys
    }
  }

  /** One listing of a directory, in whatever order. */
  predicate Enumerates(order: seq<string>, names: set<string>) {
    Distinct(order) && Elements(order) == names
  }

  lemma EnumeratesMeans(order: seq<string>, names: set<string>)
    requires Enumerates(order, names)
    ensures forall n :: n in order <==> n in names
  {
    assert forall n :: n in order <==> n in Elements(order);
  }

  // ---------- Drop-ins ---------------------------------------------------------

  function Lower(c: char): char {
    if 'A' <= c <= 'Z' then (c as int + 32) as char else c
  }

  /** The extension is `conf`, whatever its case; a name that only starts with a dot has none. */
  predicate IsConf(name: string) {
    var parts := RSplitOnce(name, '.');
    && parts.Some? && parts.value.0 != ""
    && |parts.value.1| == 4 && forall k | 0 <= k < 4 :: Lower(parts.value.1[k]) == "conf"[k]
  }

  /** A drop-in has a name before its last dot and `conf` after it, in any case. */
  lemma ConfExactly(name: string)
    ensures IsConf(name) <==> exists stem, ext ::
      && name == stem + "." + ext && stem != "" && |ext| == 4
      && ext[0] in {'c', 'C'} && ext[1] in {'o', 'O'} && ext[2] in {'n', 'N'} && ext[3] in {'f', 'F'}
  {
    hide RSplitOnce;
    var parts := RSplitOnce(name, '.');
    if IsConf(name) {
      var stem, ext := parts.value.0, parts.value.1;
      RSplitOnceJoins(name, '.');
      forall k | 0 <= k < 4
        ensures Lower(ext[k]) == "conf"[k]
      {}
      assert Lower(ext[0]) == 'c' && Lower(ext[1]) == 'o' && Lower(ext[2]) == 'n' && Lower(ext[3]) == 'f';
      assert name == stem + "." + ext;
    }
    if stem, ext :| name == stem + "." + ext && stem != "" && |ext| == 4
                    && ext[0] in {'c', 'C'} && ext[1] in {'o', 'O'} && ext[2] in {'n', 'N'} && ext[3] in {'f', 'F'} {
      assert '.' !in ext;
      assert name == stem + ['.'] + ext;
      RSplitOnceInverse(stem, '.', ext);
    }
  }

  predicate IsDropIn(entries: map<string, Leaf>, name: string) {
    name in entries && entries[name].Plain? && IsConf(name)
  }

  /** The drop-ins, if all of them can be read. */
  function DropInBodies(entries: map<string, Leaf>): Option<map<string, string>> {
    if exists n | n in entries :: IsDropIn(entries, n) && entries[n].text.None? then None
    else Some(map n | n in entries && IsDropIn(entries, n) :: if entries[n].text.Some? then entries[n].text.value else "")
  }

  function Insert(m: SortedMap, key: string, value: string): SortedMap {
    SortedMap(if key in m.body then m.keys else Place(m.keys, key), m.body[key := value])
  }

  lemma EmptyIsValid()
    ensures SortedMap([], map[]).Valid()
  {}

  lemma InsertIsValid(m: SortedMap, key: string, value: string)
    requires m.Valid()
    ensures Insert(m, key, value).Valid() && Insert(m, key, value).body == m.body[key := value]
  {
    hide Sorted;
    if key !in m.body {
      assert key !in Elements(m.keys);
      PlaceSorts(m.keys, key);
      PlaceAdds(m.keys, key);
    }
  }

  /** `read_drop_ins` on a directory that is there. */
  method ReadDropIns(entries: map<string, Leaf>, order: seq<string>) returns (r: Option<SortedMap>)
    requires Enumerates(order, entries.Keys)
    ensures r.Some? <==> DropInBodies(entries).Some?
    ensures r.Some? ==> r.value.Valid() && r.value.body == DropInBodies(entries).value
  {
    hide IsConf, SortedMap.Valid, Insert, Enumerates;
    var m := SortedMap([], map[]);
    EmptyIsValid();
    EnumeratesMeans(order, entries.Keys);
    for k := 0 to |order|
      invariant m.Valid()
      invariant forall n :: n in m.body <==> n in order[..k] && IsDropIn(entries, n)
      invariant forall n | n in m.body :: entries[n].text == Some(m.body[n])
    {
      var name := order[k];
      assert order[..k + 1] == order[..k] + [name];
      if entries[name].Plain? && IsConf(name) {
        if entries[name].text.None? {
          assert IsDropIn(entries, name);
          return None;
        }
        InsertIsValid(m, name, entries[name].text.value);
        m := Insert(m, name, entries[name].text.value);
      }
    }
    assert order[..|order|] == order;
    return Some(m);
  }

  // ---------- Drift --------------------------------------------------------------

  const MANAGED_DROP_INS: seq<string> := [
    "00-ghars.conf", "10-memory.conf", "15-resolv.conf", "20-hardening.conf", "30-cache-pool.conf",
    "40-network.conf", "50-numa.conf", "60-proxy.conf", "70-hooks.conf", "80-lognamespace.conf"]

  const MANAGED_CACHE_DROP_INS: seq<string> := ["00-ghars.conf"]

  datatype Drift = InSync | UnitEdited | DropInsModified(names: seq<string>) | Both(names: seq<string>)

  function Unmanaged(keys: seq<string>, managed: seq<string>): seq<string> {
    if keys == [] then []
    else (if keys[0] in managed then [] else [keys[0]]) + Unmanaged(keys[1..], managed)
  }

  /** `classify_drift`. */
  function ClassifyDrift(text: string, template: string, dropIns: SortedMap): Drift {
    var unmanaged := Unmanaged(dropIns.keys, MANAGED_DROP_INS);
    if text == template then
      if unmanaged == [] then InSync else DropInsModified(unmanaged)
    else
      if unmanaged == [] then UnitEdited else Both(unmanaged)
  }

  /** `classify_cache_pool_drift`. */
  function ClassifyCachePoolDrift(dropIns: SortedMap): Drift {
    var unmanaged := Unmanaged(dropIns.keys, MANAGED_CACHE_DROP_INS);
    if unmanaged == [] then InSync else DropInsModified(unmanaged)
  }

  lemma {:induction false} UnmanagedIsExact(keys: seq<string>, managed: seq<string>)
    requires Sorted(keys)
    ensures Sorted(Unmanaged(keys, managed))
    ensures Elements(Unmanaged(keys, managed)) == Elements(keys) - Elements(managed)
  {
    hide Sorted, Less;
    if keys != [] {
      var rest := Unmanaged(keys[1..], managed);
      TailIsIn(keys);
      TailIsSorted(keys);
      UnmanagedIsExact(keys[1..], managed);
      assert keys == [keys[0]] + keys[1..];
      ToSetCons(keys[0], keys[1..]);
      ToSetCons(keys[0], rest);
      SortedCons(keys[0], rest);
      assert [] + rest == rest;
    }
  }

  lemma TailIsSorted(keys: seq<string>)
    requires Sorted(keys) && keys != []
    ensures Sorted(keys[1..])
  {
    hide Less;
  }

  /** The drift names the unmanaged drop-ins, each once and in order, and only if there are any. */
  predicate Names(d: Drift, unmanaged: set<string>) {
    if unmanaged == {} then d.InSync? || d.UnitEdited?
    else (d.DropInsModified? || d.Both?) && d.names != [] && Sorted(d.names) && Elements(d.names) == unmanaged
  }

  lemma ManagedNames()
    ensures Elements(MANAGED_DROP_INS) == {
      "00-ghars.conf", "10-memory.conf", "15-resolv.conf", "20-hardening.conf", "30-cache-pool.conf",
      "40-network.conf", "50-numa.conf", "60-proxy.conf", "70-hooks.conf", "80-lognamespace.conf"}
    ensures Elements(MANAGED_CACHE_DROP_INS) == {"00-ghars.conf"}
  {}

  lemma DriftMeans(text: string, template: string, dropIns: SortedMap)
    requires dropIns.Valid()
    ensures var d := ClassifyDrift(text, template, dropIns);
      && Names(d, dropIns.body.Keys - {
           "00-ghars.conf", "10-memory.conf", "15-resolv.conf", "20-hardening.conf", "30-cache-pool.conf",
           "40-network.conf", "50-numa.conf", "60-proxy.conf", "70-hooks.conf", "80-lognamespace.conf"})
      && (text == template <==> d.InSync? || d.DropInsModified?)
    ensures var d := ClassifyCachePoolDrift(dropIns);
      Names(d, dropIns.body.Keys - {"00-ghars.conf"}) && !d.UnitEdited? && !d.Both?
  {
    hide Sorted, Elements;
    ManagedNames();
    UnmanagedIsExact(dropIns.keys, MANAGED_DROP_INS);
    UnmanagedIsExact(dropIns.keys, MANAGED_CACHE_DROP_INS);
    EmptyIsEmpty(Unmanaged(dropIns.keys, MANAGED_DROP_INS));
    EmptyIsEmpty(Unmanaged(dropIns.keys, MANAGED_CACHE_DROP_INS));
  }

  // ---------- Which entries are whose -----------------------------------------------

  /** What stands for a runner or for a cache pool: the unit file of the one, the drop-in folder of the
      other. */
  datatype Kind = RunnerUnit | PoolFolder

  function Prefix(kind: Kind): string {
    if kind.RunnerUnit? then "ghars-runner@" else "ghars-cache@"
  }

  function Suffix(kind: Kind): string {
    if kind.RunnerUnit? then ".service" else ".service.d"
  }

  function FileName(kind: Kind, name: string): string {
    Prefix(kind) + name + Suffix(kind)
  }

  /** `parse_runner_unit_name`, `parse_cache_pool_drop_in_dir_name`. */
  function ParseName(kind: Kind, file: string): Option<string> {
    match StripPrefix(file, Prefix(kind))
    case None => None
    case Some(rest) =>
      match StripSuffix(rest, Suffix(kind))
      case None => None
      case Some(instance) => if instance == "" then None else Some(instance)
  }

  lemma NameParses(kind: Kind, file: string, name: string)
    ensures ParseName(kind, file) == Some(name) <==> file == FileName(kind, name) && name != ""
  {
    hide Prefix, Suffix, StripPrefix, StripSuffix;
    Stripped(Prefix(kind), name, Suffix(kind));
    if ParseName(kind, file) == Some(name) {
      StrippedIs(file, Prefix(kind), name, Suffix(kind));
    }
  }

  lemma Stripped(a: string, name: string, z: string)
    ensures StripPrefix(a + name + z, a) == Some(name + z) && StripSuffix(name + z, z) == Some(name)
  {
    assert (a + name + z)[..|a|] == a && (a + name + z)[|a|..] == name + z;
    assert (name + z)[|name|..] == z && (name + z)[..|name|] == name;
  }

  lemma StrippedIs(file: string, a: string, name: string, z: string)
    requires StripPrefix(file, a).Some? && StripSuffix(StripPrefix(file, a).value, z) == Some(name)
    ensures file == a + name + z
  {
    var rest := file[|a|..];
    assert file == a + rest && rest == name + z;
    Assoc(a, name, z);
  }

  /** Runner units are regular files, pool folders real folders; symbolic links are neither. */
  predicate Fits(kind: Kind, e: Entry) {
    if kind.RunnerUnit? then e.Regular? else e.Folder? || e.SealedFolder?
  }

  /** One that discovery looks at. */
  predicate IsInstance(kind: Kind, dir: Dir, name: string) {
    name != "" && FileName(kind, name) in dir && Fits(kind, dir[FileName(kind, name)])
  }

  function Files(kind: Kind, dir: Dir): set<string> {
    set f | f in dir && Fits(kind, dir[f]) && ParseName(kind, f).Some?
  }

  function NamesIn(kind: Kind, dir: Dir): set<string> {
    set f | f in Files(kind, dir) :: ParseName(kind, f).value
  }

  lemma NamesAreInstances(kind: Kind, dir: Dir, name: string)
    ensures name in NamesIn(kind, dir) <==> IsInstance(kind, dir, name)
  {
    hide ParseName, FileName, Fits;
    NameParses(kind, FileName(kind, name), name);
    if name in NamesIn(kind, dir) {
      var f :| f in Files(kind, dir) && ParseName(kind, f).value == name;
      NameParses(kind, f, name);
    }
    if IsInstance(kind, dir, name) {
      assert FileName(kind, name) in Files(kind, dir);
    }
  }

  /** `is_ghars_managed`. */
  predicate IsManaged(text: string) {
    First(Meaning(text), "Unit", "X-Ghars-Managed") == Some("true")
  }

  function SpecHash(bodies: map<string, string>): string {
    if "00-ghars.conf" !in bodies then ""
    else
      match First(Meaning(bodies["00-ghars.conf"]), "Unit", "X-Ghars-Spec-Hash")
      case None => ""
      case Some(v) => v
  }

  /** The drop-ins found at an entry of the unit directory: none where nothing is. A symbolic link is
      followed here. */
  function DropInsAt(dir: Dir, d: string): Option<map<string, string>> {
    if d !in dir || dir[d] == Alias(None) then Some(map[])
    else
      var e := if dir[d].Alias? then dir[d].target.value else dir[d];
      if e.Folder? then DropInBodies(e.entries) else None
  }

  /** Where the drop-ins of one instance are. */
  function DropInDir(kind: Kind, name: string): string {
    if kind.RunnerUnit? then FileName(kind, name) + ".d" else FileName(kind, name)
  }

  function InstanceDropIns(kind: Kind, dir: Dir, name: string): Option<map<string, string>> {
    DropInsAt(dir, DropInDir(kind, name))
  }

  predicate ManagedUnit(dir: Dir, name: string) {
    IsInstance(RunnerUnit, dir, name)
    && dir[FileName(RunnerUnit, name)].text.Some? && IsManaged(dir[FileName(RunnerUnit, name)].text.value)
  }

  /** Everything discovery has to read of this one can be read. */
  predicate Readable(kind: Kind, dir: Dir, name: string)
    requires IsInstance(kind, dir, name)
  {
    && (kind.RunnerUnit? ==> dir[FileName(kind, name)].text.Some?)
    && (kind.PoolFolder? || ManagedUnit(dir, name) ==> InstanceDropIns(kind, dir, name).Some?)
  }

  /** What systemd says of a unit: ActiveState and UnitFileState, if it answers. */
  type Properties = string -> (Option<string>, Option<string>)

  /** What is found out about a runner or a pool alike. */
  datatype Found = Found(name: string, specHash: string, dropIns: SortedMap, running: bool, enabled: bool, drift: Drift)

  datatype Runner = Runner(found: Found, text: string)

  predicate IsRunning(p: (Option<string>, Option<string>)) {
    p.0.Some? && Trim(p.0.value) == "active"
  }

  predicate IsEnabled(p: (Option<string>, Option<string>)) {
    p.1.Some? && Trim(p.1.value) in {"enabled", "enabled-runtime"}
  }

  /** The unit systemd is asked about. */
  function UnitName(kind: Kind, name: string): string {
    Prefix(kind) + name + ".service"
  }

  /** It is found as it stands on disk. */
  predicate Describes(found: Found, kind: Kind, dir: Dir, name: string, drift: Drift, properties: Properties) {
    && found.name == name && found.drift == drift
    && found.dropIns.Valid() && Some(found.dropIns.body) == InstanceDropIns(kind, dir, name)
    && found.specHash == SpecHash(found.dropIns.body)
    && found.running == IsRunning(properties(UnitName(kind, name)))
    && found.enabled == IsEnabled(properties(UnitName(kind, name)))
  }

  predicate DescribesRunner(r: Runner, dir: Dir, name: string, template: string, properties: Properties)
    requires IsInstance(RunnerUnit, dir, name)
  {
    && dir[FileName(RunnerUnit, name)].text == Some(r.text)
    && Describes(r.found, RunnerUnit, dir, name, ClassifyDrift(r.text, template, r.found.dropIns), properties)
  }

  predicate DescribesPool(found: Found, dir: Dir, name: string, properties: Properties) {
    Describes(found, PoolFolder, dir, name, ClassifyCachePoolDrift(found.dropIns), properties)
  }

  datatype State = State(runners: map<string, Runner>, external: seq<string>, pools: map<string, Found>)

  const NOTHING := State(map[], [], map[])

  /** The runners among `names` are described, the others listed in order. */
  ghost predicate RunnersFound(s: State, dir: Dir, names: set<string>, template: string, properties: Properties) {
    && (forall n :: n in s.runners <==> n in names && ManagedUnit(dir, n))
    && (forall n | n in s.runners :: DescribesRunner(s.runners[n], dir, n, template, properties))
    && Sorted(s.external) && (forall n :: n in Elements(s.external) <==> n in names && !ManagedUnit(dir, n))
  }

  /** The pools among `names` are described. */
  predicate PoolsFound(pools: map<string, Found>, dir: Dir, names: set<string>, properties: Properties) {
    pools.Keys == names && forall n | n in pools :: DescribesPool(pools[n], dir, n, properties)
  }

  /** All there is, as it stands on disk. */
  ghost predicate Snapshot(s: State, dir: Dir, template: string, properties: Properties) {
    && RunnersFound(s, dir, NamesIn(RunnerUnit, dir), template, properties)
    && PoolsFound(s.pools, dir, NamesIn(PoolFolder, dir), properties)
  }

  lemma FoundIsUnique(a: Found, b: Found, kind: Kind, dir: Dir, name: string, da: Drift, db: Drift, properties: Properties)
    requires Describes(a, kind, dir, name, da, properties) && Describes(b, kind, dir, name, db, properties)
    ensures a.dropIns == b.dropIns && (da == db ==> a == b)
  {
    hide Sorted, Elements, InstanceDropIns, SpecHash, IsRunning, IsEnabled, UnitName;
    SortedIsUnique(a.dropIns.keys, b.dropIns.keys);
  }

  lemma RunnerIsUnique(a: Runner, b: Runner, dir: Dir, name: string, template: string, properties: Properties)
    requires IsInstance(RunnerUnit, dir, name)
    requires DescribesRunner(a, dir, name, template, properties) && DescribesRunner(b, dir, name, template, properties)
    ensures a == b
  {
    hide Describes, ClassifyDrift, IsInstance, FileName;
    FoundIsUnique(a.found, b.found, RunnerUnit, dir, name, ClassifyDrift(a.text, template, a.found.dropIns),
                  ClassifyDrift(b.text, template, b.found.dropIns), properties);
  }

  lemma PoolIsUnique(a: Found, b: Found, dir: Dir, name: string, properties: Properties)
    requires DescribesPool(a, dir, name, properties) && DescribesPool(b, dir, name, properties)
    ensures a == b
  {
    hide Describes, ClassifyCachePoolDrift;
    FoundIsUnique(a, b, PoolFolder, dir, name, ClassifyCachePoolDrift(a.dropIns), ClassifyCachePoolDrift(b.dropIns), properties);
  }

  /** There is only one snapshot of a directory: the order in which it was listed is gone. */
  lemma SnapshotIsUnique(s: State, t: State, dir: Dir, template: string, properties: Properties)
    requires Snapshot(s, dir, template, properties) && Snapshot(t, dir, template, properties)
    ensures s == t
  {
    hide Sorted, Elements, ManagedUnit, IsInstance, DescribesRunner, DescribesPool, NamesIn;
    assert Elements(s.external) == Elements(t.external);
    SortedIsUnique(s.external, t.external);
    forall n | n in s.runners
      ensures n in t.runners && s.runners[n] == t.runners[n]
    {
      ManagedIsInstance(dir, n);
      RunnerIsUnique(s.runners[n], t.runners[n], dir, n, template, properties);
    }
    assert s.runners.Keys == t.runners.Keys;
    forall n | n in s.pools
      ensures s.pools[n] == t.pools[n]
    {
      assert n in s.pools.Keys;
      PoolIsUnique(s.pools[n], t.pools[n], dir, n, properties);
    }
  }

  lemma ManagedIsInstance(dir: Dir, name: string)
    ensures ManagedUnit(dir, name) ==> IsInstance(RunnerUnit, dir, name)
  {}

  /** Every regular `ghars-runner@NAME.service` with a name is in exactly one of the two, and nothing else
      is; every folder `ghars-cache@POOL.service.d` with a name is a pool, and nothing else is. */
  lemma SnapshotPartitions(s: State, dir: Dir, template: string, properties: Properties, name: string)
    requires Snapshot(s, dir, template, properties)
    ensures var unit := "ghars-runner@" + name + ".service";
      name != "" && unit in dir && dir[unit].Regular? <==> (name in s.runners) != (name in s.external)
    ensures !(name in s.runners && name in s.external)
    ensures var folder := "ghars-cache@" + name + ".service.d";
      name != "" && folder in dir && (dir[folder].Folder? || dir[folder].SealedFolder?) <==> name in s.pools
  {
    hide NamesIn, ManagedUnit, DescribesRunner, DescribesPool;
    NamesAreInstances(RunnerUnit, dir, name);
    NamesAreInstances(PoolFolder, dir, name);
    assert name in s.external <==> name in Elements(s.external);
    assert name in s.pools <==> name in s.pools.Keys;
  }

  // ---------- The discovery loops ----------------------------------------------------

  /** `list_runner_unit_files`, `list_cache_pool_drop_in_dirs`: the instances in name order, whatever
      order the directory is listed in. */
  method ListInstances(kind: Kind, dir: Dir, order: seq<string>) returns (names: seq<string>)
    requires Enumerates(order, dir.Keys)
    ensures Sorted(names) && Elements(names) == NamesIn(kind, dir)
  {
    hide ParseName, Less, FileName, Fits;
    var out: seq<string> := [];
    for k := 0 to |order|
      invariant forall n :: n in out <==> IsInstance(kind, dir, n) && FileName(kind, n) in order[..k]
      invariant Distinct(out)
    {
      var file := order[k];
      assert file in Elements(order);
      assert order[..k + 1] == order[..k] + [file];
      if Fits(kind, dir[file]) {
        var name := ParseName(kind, file);
        if name.Some? {
          NameParses(kind, file, name.value);
          assert file !in order[..k];
          out := out + [name.value];
        }
      }
      forall n | FileName(kind, n) == file && n != ""
        ensures ParseName(kind, file) == Some(n)
      {
        NameParses(kind, file, n);
      }
    }
    assert order[..|order|] == order;
    SortNamesSorts(out);
    names := SortNames(out);
    forall n
      ensures n in Elements(names) <==> n in NamesIn(kind, dir)
    {
      NamesAreInstances(kind, dir, n);
      assert n in out <==> n in Elements(out);
      assert FileName(kind, n) in dir ==> FileName(kind, n) in Elements(order);
    }
  }

  /** Any order of listing the folder found at an entry. */
  predicate ListsAt(dir: Dir, d: string, order: seq<string>) {
    d in dir ==>
      var e := if dir[d].Alias? && dir[d].target.Some? then dir[d].target.value else dir[d];
      e.Folder? ==> Enumerates(order, e.entries.Keys)
  }

  /** `read_drop_ins`. */
  method ReadDropInsAt(dir: Dir, d: string, order: seq<string>) returns (r: Option<SortedMap>)
    requires ListsAt(dir, d, order)
    ensures r.Some? <==> DropInsAt(dir, d).Some?
    ensures r.Some? ==> r.value.Valid() && r.value.body == DropInsAt(dir, d).value
  {
    hide DropInBodies;
    if d !in dir {
      return Some(SortedMap([], map[]));
    }
    var e := dir[d];
    if e.Alias? {
      if e.target.None? {
        return Some(SortedMap([], map[]));
      }
      e := e.target.value;
    }
    if !e.Folder? {
      return None;
    }
    r := ReadDropIns(e.entries, order);
  }

  /** What is found out from the drop-ins and from systemd. */
  method DescribeInstance(kind: Kind, ghost dir: Dir, name: string, dropIns: SortedMap, drift: Drift, properties: Properties)
      returns (found: Found)
    requires dropIns.Valid() && Some(dropIns.body) == InstanceDropIns(kind, dir, name)
    ensures Describes(found, kind, dir, name, drift, properties) && found.dropIns == dropIns
  {
    hide UnitName, InstanceDropIns, Meaning, First, Trim, Sorted, Elements;
    var hash := "";
    if "00-ghars.conf" in dropIns.body {
      var parsed := FromText(dropIns.body["00-ghars.conf"]);
      var first := First(parsed, "Unit", "X-Ghars-Spec-Hash");
      hash := if first.Some? then first.value else "";
    }
    var p := properties(UnitName(kind, name));
    found := Found(name, hash, dropIns, IsRunning(p), IsEnabled(p), drift);
  }

  ghost predicate DropInOrders(dir: Dir, orders: string -> seq<string>) {
    forall d | d in dir :: ListsAt(dir, d, orders(d))
  }

  /** One runner unit: None when something cannot be read, Some(None) when it is not ours. */
  method DiscoverRunner(dir: Dir, name: string, orders: string -> seq<string>, template: string, properties: Properties)
      returns (r: Option<Option<Runner>>)
    requires IsInstance(RunnerUnit, dir, name) && DropInOrders(dir, orders)
    ensures r.Some? <==> Readable(RunnerUnit, dir, name)
    ensures r.Some? ==> (r.value.Some? <==> ManagedUnit(dir, name))
    ensures r.Some? && r.value.Some? ==> DescribesRunner(r.value.value, dir, name, template, properties)
  {
    hide FileName, DropInsAt, Enumerates, Meaning, First, Describes, ClassifyDrift, ListsAt;
    var text := dir[FileName(RunnerUnit, name)].text;
    if text.None? {
      return None;
    }
    var parsed := FromText(text.value);
    if First(parsed, "Unit", "X-Ghars-Managed") != Some("true") {
      return Some(None);
    }
    var d := FileName(RunnerUnit, name) + ".d";
    ListsNothing(dir, d, orders(d));
    var dropIns := ReadDropInsAt(dir, d, orders(d));
    if dropIns.None? {
      return None;
    }
    var found := DescribeInstance(RunnerUnit, dir, name, dropIns.value, ClassifyDrift(text.value, template, dropIns.value), properties);
    return Some(Some(Runner(found, text.value)));
  }

  lemma ListsNothing(dir: Dir, d: string, order: seq<string>)
    ensures d !in dir ==> ListsAt(dir, d, order)
  {}

  /** The runner pass. */
  method DiscoverRunners(dir: Dir, order: seq<string>, orders: string -> seq<string>, template: string, properties: Properties)
      returns (r: Option<State>)
    requires Enumerates(order, dir.Keys) && DropInOrders(dir, orders)
    ensures r.Some? <==> forall n | IsInstance(RunnerUnit, dir, n) :: Readable(RunnerUnit, dir, n)
    ensures r.Some? ==> r.value.pools == map[] && RunnersFound(r.value, dir, NamesIn(RunnerUnit, dir), template, properties)
  {
    hide FileName, Less, DescribesRunner, ManagedUnit, Enumerates, NamesIn, Sorted, RunnersFound, Readable, IsInstance, DropInOrders;
    var names := ListInstances(RunnerUnit, dir, order);
    var state := NOTHING;
    NoRunnersYet(dir, template, properties);
    for k := 0 to |names|
      invariant state.pools == map[] && RunnersFound(state, dir, Elements(names[..k]), template, properties)
      invariant forall n | n in Elements(names[..k]) :: IsInstance(RunnerUnit, dir, n) && Readable(RunnerUnit, dir, n)
    {
      var name := names[k];
      assert name in Elements(names);
      NamesAreInstances(RunnerUnit, dir, name);
      ElementsSnoc(names, k);
      var one := DiscoverRunner(dir, name, orders, template, properties);
      if one.None? {
        return None;
      }
      OneMoreRunner(state, dir, names, k, template, properties, one.value);
      state := if one.value.Some? then state.(runners := state.runners[name := one.value.value])
               else state.(external := state.external + [name]);
    }
    assert names[..|names|] == names;
    forall n | IsInstance(RunnerUnit, dir, n)
      ensures Readable(RunnerUnit, dir, n)
    {
      NamesAreInstances(RunnerUnit, dir, n);
    }
    return Some(state);
  }

  /** The cache-pool pass: every pool folder counts, whoever made it. */
  method DiscoverPools(dir: Dir, order: seq<string>, orders: string -> seq<string>, properties: Properties)
      returns (r: Option<map<string, Found>>)
    requires Enumerates(order, dir.Keys) && DropInOrders(dir, orders)
    ensures r.Some? <==> forall n | IsInstance(PoolFolder, dir, n) :: Readable(PoolFolder, dir, n)
    ensures r.Some? ==> PoolsFound(r.value, dir, NamesIn(PoolFolder, dir), properties)
  {
    hide FileName, Less, DescribesPool, Enumerates, NamesIn, Sorted, Readable, IsInstance, DropInOrders;
    var names := ListInstances(PoolFolder, dir, order);
    var pools: map<string, Found> := map[];
    for k := 0 to |names|
      invariant PoolsFound(pools, dir, Elements(names[..k]), properties)
      invariant forall n | n in Elements(names[..k]) :: IsInstance(PoolFolder, dir, n) && Readable(PoolFolder, dir, n)
    {
      var name := names[k];
      assert name in Elements(names);
      NamesAreInstances(PoolFolder, dir, name);
      ElementsSnoc(names, k);
      var found := DiscoverPool(dir, name, orders, properties);
      if found.None? {
        return None;
      }
      pools := pools[name := found.value];
    }
    assert names[..|names|] == names;
    forall n | IsInstance(PoolFolder, dir, n)
      ensures Readable(PoolFolder, dir, n)
    {
      NamesAreInstances(PoolFolder, dir, n);
    }
    return Some(pools);
  }

  method DiscoverPool(dir: Dir, name: string, orders: string -> seq<string>, properties: Properties) returns (r: Option<Found>)
    requires IsInstance(PoolFolder, dir, name) && DropInOrders(dir, orders)
    ensures r.Some? <==> Readable(PoolFolder, dir, name)
    ensures r.Some? ==> DescribesPool(r.value, dir, name, properties)
  {
    hide FileName, DropInsAt, Enumerates, Describes, ClassifyCachePoolDrift, ListsAt;
    var dropIns := ReadDropInsAt(dir, FileName(PoolFolder, name), orders(FileName(PoolFolder, name)));
    if dropIns.None? {
      return None;
    }
    var found := DescribeInstance(PoolFolder, dir, name, dropIns.value, ClassifyCachePoolDrift(dropIns.value), properties);
    return Some(found);
  }

  /** `discover`: a missing unit directory is an empty state, an unreadable one an error; every directory may
      be listed in any order, the unit directory in a different one in each of the two passes. */
  method DiscoverState(unitDir: UnitDir, order: seq<string>, again: seq<string>, orders: string -> seq<string>,
                       template: string, properties: Properties) returns (r: Option<State>)
    requires unitDir.Listed? ==>
      Enumerates(order, unitDir.dir.Keys) && Enumerates(again, unitDir.dir.Keys) && DropInOrders(unitDir.dir, orders)
    ensures unitDir.Missing? ==> r == Some(NOTHING)
    ensures unitDir.Unreadable? ==> r == None
    ensures unitDir.Listed? ==>
      (r.Some? <==> forall kind, n | IsInstance(kind, unitDir.dir, n) :: Readable(kind, unitDir.dir, n))
    ensures unitDir.Listed? && r.Some? ==> Snapshot(r.value, unitDir.dir, template, properties)
  {
    hide Enumerates, DropInOrders, RunnersFound, PoolsFound, NamesIn, IsInstance, Readable;
    match unitDir {
      case Missing => return Some(NOTHING);
      case Unreadable => return None;
      case Listed(dir) =>
        r := DiscoverRunners(dir, order, orders, template, properties);
        if r.None? {
          return;
        }
        var pools := DiscoverPools(dir, again, orders, properties);
        if pools.None? {
          return None;
        }
        forall kind, n | IsInstance(kind, dir, n)
          ensures Readable(kind, dir, n)
        {
          assert kind == RunnerUnit || kind == PoolFolder;
        }
        SameRunners(r.value, pools.value, dir, template, properties);
        return Some(r.value.(pools := pools.value));
    }
  }

  lemma SameRunners(s: State, pools: map<string, Found>, dir: Dir, template: string, properties: Properties)
    requires RunnersFound(s, dir, NamesIn(RunnerUnit, dir), template, properties)
    ensures RunnersFound(s.(pools := pools), dir, NamesIn(RunnerUnit, dir), template, properties)
  {
    hide NamesIn, DescribesRunner, ManagedUnit, Sorted;
  }

  lemma ElementsSnoc(names: seq<string>, k: nat)
    requires k < |names|
    ensures Elements(names[..k + 1]) == Elements(names[..k]) + {names[k]}
  {
    assert names[..k + 1] == names[..k] + [names[k]];
  }

  lemma NoRunnersYet(dir: Dir, template: string, properties: Properties)
    ensures forall names: seq<string> :: RunnersFound(NOTHING, dir, Elements(names[..0]), template, properties)
  {}

  lemma OneMoreRunner(s: State, dir: Dir, names: seq<string>, k: nat, template: string, properties: Properties,
                      found: Option<Runner>)
    requires Sorted(names) && k < |names| && IsInstance(RunnerUnit, dir, names[k])
    requires RunnersFound(s, dir, Elements(names[..k]), template, properties)
    requires found.Some? <==> ManagedUnit(dir, names[k])
    requires found.Some? ==> DescribesRunner(found.value, dir, names[k], template, properties)
    ensures RunnersFound(if found.Some? then s.(runners := s.runners[names[k] := found.value])
                         else s.(external := s.external + [names[k]]),
                         dir, Elements(names[..k + 1]), template, properties)
  {
    hide Less, DescribesRunner, ManagedUnit, IsInstance, FileName;
    ElementsSnoc(names, k);
    if found.None? {
      forall j | 0 <= j < |s.external|
        ensures Less(s.external[j], names[k])
      {
        assert s.external[j] in Elements(s.external);
        var i :| 0 <= i < k && names[i] == s.external[j];
      }
      var longer := s.external + [names[k]];
      assert Elements(longer) == Elements(s.external) + {names[k]};
    }
  }
}
