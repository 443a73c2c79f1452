/** A crate that keeps to all that is assumed of one: it makes directories, files and symbolic links, and
    looks where a member's parent really is before it writes. */
module PlainCrate {
  import opened Options
  import opened Text
  import opened FileTree
  import opened SafePaths
  import opened DiskModel
  import opened Extraction
  import opened InstallLayout
  import opened Install

  const DIR_MODE: nat := 0x1ED // 0o755
  const FILE_MODE: nat := 0x1A4 // 0o644

  /** What a member is to become; hard links and devices are not made. */
  function NodeOf(m: Member): Option<Inode> {
    match m.kind
    case Directory => Some(Dir(DIR_MODE))
    case Regular => Some(File("", FILE_MODE))
    case OtherKind => Some(File("", FILE_MODE))
    case Symlink => if m.link.Some? then Some(Link(m.link.value)) else None
    case _ => None
  }

  /** The member's parent, as the kernel sees it. */
  function ParentOf(fs: Fs, dest: Path, m: Member): Option<Path>
    requires MemberNames(m) != []
  {
    var names := MemberNames(m);
    Resolve(fs, [], dest + names[..|names| - 1], MAX_SYMLINKS)
  }

  /** A place a node may be put: nothing is there, or a file that is not to become a directory. */
  predicate Open(fs: Fs, place: Path, node: Inode) {
    place !in fs || (fs[place].File? && !node.Dir?)
  }

  /** Put the member where its parent is; a directory that is there already will do. */
  function Put(fs: Fs, place: Path, node: Inode): TarStep {
    if place in fs && fs[place].Dir? && node.Dir? then TarStep([], fs, Unpacked)
    else if Open(fs, place, node) then TarStep([], fs[place := node], Unpacked)
    else TarStep([], fs, Failed)
  }

  function PlainTar(fs: Fs, dest: Path, m: Member): TarStep {
    var names := MemberNames(m);
    if names == [] then TarStep([], fs, Unpacked)
    else
      var parent := ParentOf(fs, dest, m);
      if parent.None? || parent.value !in fs || !fs[parent.value].Dir? || NodeOf(m).None? then TarStep([], fs, Failed)
      else if !(dest <= parent.value) then TarStep([], fs, Refused)
      else Put(fs, parent.value + [names[|names| - 1]], NodeOf(m).value)
  }

  /** It makes what the member says where its parent is, if nothing is there or a file to overwrite; and it refuses a member whose
      parent is elsewhere, writing nothing. */
  lemma PlainTarMakes(fs: Fs, dest: Path, m: Member, parent: Path)
    requires MemberNames(m) != [] && ParentOf(fs, dest, m) == Some(parent) && parent in fs && fs[parent].Dir?
    requires m.kind.Directory? || m.kind.Regular? || (m.kind.Symlink? && m.link.Some?)
    ensures var name := MemberNames(m)[|MemberNames(m)| - 1];
      if !(dest <= parent) then PlainTar(fs, dest, m) == TarStep([], fs, Refused)
      else parent + [name] !in fs || (fs[parent + [name]].File? && !m.kind.Directory?) ==>
        PlainTar(fs, dest, m) == TarStep([], fs[parent + [name] := match m.kind
          case Directory => Dir(0x1ED)
          case Regular => File("", 0x1A4)
          case _ => Link(m.link.value)], Unpacked)
  {
    hide MemberNames, ParentOf;
  }

  /** New entries do not change where a path to a directory leads. */
  lemma {:induction false} StillLeads(fs: Fs, place: Path, node: Inode, at: Path, parts: seq<string>, links: nat)
    requires Resolve(fs, at, parts, links).Some? && Open(fs, place, node)
    requires var p := Resolve(fs, at, parts, links).value; p in fs && fs[p].Dir?
    ensures Resolve(fs[place := node], at, parts, links) == Resolve(fs, at, parts, links)
    decreases links, |parts|
  {
    hide Split;
    if parts == [] {
    } else if Step(parts[0]) == 0 {
      StillLeads(fs, place, node, at, parts[1..], links);
    } else if parts[0] == ".." {
      StillLeads(fs, place, node, if at == [] then [] else at[..|at| - 1], parts[1..], links);
    } else {
      var next := at + [parts[0]];
      match fs[next] {
        case Dir(_) => StillLeads(fs, place, node, next, parts[1..], links);
        case File(_, _) =>
        case Link(target) =>
          StillLeads(fs, place, node, if target != "" && target[0] == '/' then [] else at, Split(target, '/') + parts[1..], links - 1);
      }
    }
  }

  /** A new entry in a directory of a tree. */
  lemma TreeGrows(t: Tree, parent: Path, name: Name, node: Inode)
    requires parent in t && t[parent].Dir? && Open(t, parent + [name], node)
    requires node.Dir? ==> node.mode < PERMISSION_BITS
    requires IsDirectory(t) && WellFormed(t) && MaskedModes(t)
    ensures var u := t[parent + [name] := node]; IsDirectory(u) && WellFormed(u) && MaskedModes(u)
  {
    var r := parent + [name];
    var u := t[r := node];
    assert r[..|r| - 1] == parent;
    forall q | q in u && q != []
      ensures q[..|q| - 1] in u && u[q[..|q| - 1]].Dir?
    {
      if q != r {
        assert q in t && t[q[..|q| - 1]].Dir?;
      }
    }
  }

  /** A change below `dest` is a change of its tree. */
  lemma PutInTree(fs: Fs, dest: Path, r: Path, node: Inode)
    ensures var after := fs[dest + r := node];
      TreeAt(after, dest) == TreeAt(fs, dest)[r := node] && Without(after, dest) == Without(fs, dest)
  {
    var after := fs[dest + r := node];
    var t, u := TreeAt(fs, dest)[r := node], TreeAt(after, dest);
    forall q
      ensures q in t <==> q in u
      ensures q in t ==> t[q] == u[q]
    {
      assert (dest + q)[|dest|..] == q && (dest + r)[|dest|..] == r;
    }
    assert dest <= dest + r;
  }

  /** A new entry below `dest`. */
  lemma PutIsLocal(fs: Fs, dest: Path, parent: Path, name: Name, node: Inode)
    requires dest <= parent && parent in fs && fs[parent].Dir? && Open(fs, parent + [name], node)
    requires node.Dir? ==> node.mode < PERMISSION_BITS
    requires IsDirectory(TreeAt(fs, dest)) && WellFormed(TreeAt(fs, dest)) && MaskedModes(TreeAt(fs, dest))
    ensures var after := fs[parent + [name] := node];
      && LocalTo(fs, after, dest) && IsDirectory(TreeAt(after, dest))
      && WellFormed(TreeAt(after, dest)) && MaskedModes(TreeAt(after, dest))
  {
    hide Without, WellFormed, MaskedModes;
    var p := parent[|dest|..];
    assert dest + p == parent && dest + (p + [name]) == parent + [name];
    PutInTree(fs, dest, p + [name], node);
    TreeGrows(TreeAt(fs, dest), p, name, node);
  }

  lemma PlainStepInside(fs: Fs, dest: Path, m: Member)
    requires IsDirectory(TreeAt(fs, dest)) && WellFormed(TreeAt(fs, dest)) && MaskedModes(TreeAt(fs, dest))
    ensures StepInside(fs, dest, m, PlainTar)
  {
    hide TreeAt, Resolve, MemberNames, LocalTo, WellFormed, MaskedModes, IsDirectory;
    LocalToSelf(fs, dest);
    var step, names := PlainTar(fs, dest, m), MemberNames(m);
    if names != [] && step.outcome == Unpacked {
      var parent, node := ParentOf(fs, dest, m).value, NodeOf(m).value;
      var place := parent + [names[|names| - 1]];
      if Open(fs, place, node) {
        PutIsLocal(fs, dest, parent, names[|names| - 1], node);
        StillLeads(fs, place, node, [], dest + names[..|names| - 1], MAX_SYMLINKS);
      }
    }
  }

  lemma {:induction false} PlainIsTidy(entries: seq<TarEntry>, n: nat, fs: Fs, dest: Path)
    requires Fresh(fs, dest) && n <= |entries| && DoneBefore(entries, n, PlainTar, fs, dest, dest)
    ensures Tidied(fs, UnpackAll(fs, AcceptedMembers(entries[..n]), PlainTar, dest), dest)
    ensures forall s | s in Trace(fs, AcceptedMembers(entries[..n]), PlainTar, dest) :: LocalTo(fs, s, dest)
  {
    hide LocalTo, Tidied, EntryDone, Fresh, StepInside, Accepted, PlainTar;
    if n == 0 {
      FreshIsTidy(fs, dest);
      assert entries[..0] == [];
    } else {
      PlainIsTidy(entries, n - 1, fs, dest);
      TidyStepInside(fs, UnpackAll(fs, AcceptedMembers(entries[..n - 1]), PlainTar, dest), dest, entries[n - 1]);
      OneMoreIsTidy(entries, n - 1, PlainTar, fs, dest);
    }
  }

  lemma TidyStepInside(fs0: Fs, fs: Fs, dest: Path, e: TarEntry)
    requires Tidied(fs0, fs, dest)
    ensures e.Entry? ==> StepInside(fs, dest, e.member, PlainTar)
  {
    hide TreeAt, LocalTo, DirPath, StepInside, PlainTar, WellFormed, MaskedModes, IsDirectory;
    if e.Entry? { PlainStepInside(fs, dest, e.member); }
  }

  /** It works inside any directory, whatever the tarball, links that lead out of the tree included. */
  lemma PlainTarIsContained(entries: seq<TarEntry>, dest: Path)
    ensures Contained(entries, PlainTar, dest)
  {
    hide TreeAt, LocalTo, Fresh, StepInside, PlainTar, DoneBefore, UnpackAll, AcceptedMembers, Tidied, Accepted;
    forall fs, n | 0 <= n < |entries| && Fresh(fs, dest) && DoneBefore(entries, n, PlainTar, fs, dest, dest)
      ensures entries[n].Entry? && Accepted(entries[n].member) ==>
        StepInside(UnpackAll(fs, AcceptedMembers(entries[..n]), PlainTar, dest), dest, entries[n].member, PlainTar)
    {
      PlainIsTidy(entries, n, fs, dest);
      TidyStepInside(fs, UnpackAll(fs, AcceptedMembers(entries[..n]), PlainTar, dest), dest, entries[n]);
    }
  }

  // ---------- Which tarballs it unpacks alike everywhere -----------------------------

  /** The walk through the tree never steps above its root and follows no absolute link. */
  predicate StaysHome(t: Tree, at: Path, parts: seq<string>, links: nat)
    decreases links, |parts|
  {
    if parts == [] then true
    else if Step(parts[0]) == 0 then StaysHome(t, at, parts[1..], links)
    else if parts[0] == ".." then at != [] && StaysHome(t, at[..|at| - 1], parts[1..], links)
    else
      var next := at + [parts[0]];
      next in t ==>
        match t[next]
        case Dir(_) => StaysHome(t, next, parts[1..], links)
        case File(_, _) => true
        case Link(target) =>
          links > 0 ==>
            !(target != "" && target[0] == '/') && StaysHome(t, at, Split(target, '/') + parts[1..], links - 1)
  }

  function Below(dest: Path, p: Option<Path>): Option<Path> {
    if p.Some? then Some(dest + p.value) else None
  }

  /** Such a walk leads to the same place wherever the tree is. */
  lemma {:induction false} LeadsAlike(fs: Fs, dest: Path, at: Path, parts: seq<string>, links: nat)
    requires StaysHome(TreeAt(fs, dest), at, parts, links)
    ensures Resolve(fs, dest + at, parts, links) == Below(dest, Resolve(TreeAt(fs, dest), at, parts, links))
    decreases links, |parts|
  {
    hide Split;
    var t := TreeAt(fs, dest);
    if parts == [] {
    } else if Step(parts[0]) == 0 {
      LeadsAlike(fs, dest, at, parts[1..], links);
    } else if parts[0] == ".." {
      assert (dest + at)[..|dest + at| - 1] == dest + at[..|at| - 1];
      LeadsAlike(fs, dest, at[..|at| - 1], parts[1..], links);
    } else {
      var next := at + [parts[0]];
      assert dest + at + [parts[0]] == dest + next;
      assert next in t <==> dest + next in fs;
      if next in t {
        match t[next] {
          case Dir(_) => LeadsAlike(fs, dest, next, parts[1..], links);
          case File(_, _) =>
          case Link(target) =>
            if links > 0 { LeadsAlike(fs, dest, at, Split(target, '/') + parts[1..], links - 1); }
        }
      }
    }
  }

  /** Down a path of real directories first. */
  lemma {:induction false} ThroughDirs(fs: Fs, p: Path, n: nat, rest: seq<string>, links: nat)
    requires n <= |p| && DirPath(fs, p) && PlainNames(p)
    ensures Resolve(fs, p[..n], p[n..] + rest, links) == Resolve(fs, p, rest, links)
    decreases |p| - n
  {
    if n == |p| {
      assert p[..n] == p && p[n..] + rest == rest;
    } else {
      var parts := p[n..] + rest;
      assert parts[0] == p[n] && parts[1..] == p[n + 1..] + rest;
      assert p[..n] + [p[n]] == Prefix(p, n + 1) && p[n] in p;
      ThroughDirs(fs, p, n + 1, rest, links);
    }
  }

  /** The member's parent, in the tree itself. */
  function ParentAtHome(t: Tree, m: Member): Option<Path>
    requires MemberNames(m) != []
  {
    var names := MemberNames(m);
    Resolve(t, [], names[..|names| - 1], MAX_SYMLINKS)
  }

  predicate ParentStaysHome(t: Tree, m: Member) {
    var names := MemberNames(m);
    names != [] ==> StaysHome(t, [], names[..|names| - 1], MAX_SYMLINKS)
  }

  lemma ParentAlike(fs: Fs, dest: Path, m: Member)
    requires DirPath(fs, dest) && PlainNames(dest) && ParentStaysHome(TreeAt(fs, dest), m) && MemberNames(m) != []
    ensures ParentOf(fs, dest, m) == Below(dest, ParentOf(TreeAt(fs, dest), [], m))
  {
    hide TreeAt, Resolve, StaysHome, MemberNames;
    var names := MemberNames(m);
    var up := names[..|names| - 1];
    ThroughDirs(fs, dest, 0, up, MAX_SYMLINKS);
    assert dest[..0] == [] && dest[0..] == dest && [] + up == up && dest + [] == dest;
    LeadsAlike(fs, dest, [], up, MAX_SYMLINKS);
  }

  /** One step is alike wherever the tree is, and what is unpacked then has its parent inside. */
  lemma StepAlike(fs: Fs, dest: Path, m: Member)
    requires DirPath(fs, dest) && PlainNames(dest) && ParentStaysHome(TreeAt(fs, dest), m) && IsDirectory(TreeAt(fs, dest))
    ensures var here, home := PlainTar(fs, dest, m), PlainTar(TreeAt(fs, dest), [], m);
      && (here.outcome == Unpacked <==> home.outcome == Unpacked)
      && (here.outcome == Unpacked ==>
            && TreeAt(here.after, dest) == home.after
            && ParentInside(here.after, dest, m, dest) && ParentInside(home.after, [], m, []))
  {
    hide TreeAt, Resolve, MemberNames, ParentStaysHome, DirPath, IsDirectory;
    var names, t := MemberNames(m), TreeAt(fs, dest);
    if names != [] {
      ParentAlike(fs, dest, m);
      var there := ParentOf(t, [], m);
      if there.Some? && NodeOf(m).Some? {
        var p, name, node := there.value, names[|names| - 1], NodeOf(m).value;
        assert dest + p + [name] == dest + (p + [name]) && dest <= dest + p;
        assert p in t <==> dest + p in fs;
        assert p + [name] in t <==> dest + (p + [name]) in fs;
        PutInTree(fs, dest, p + [name], node);
        if p in t && t[p].Dir? {
          ParentStays(fs, dest, m, dest + p, node);
          ParentStays(t, [], m, p, node);
        }
      }
    }
  }

  /** Putting the member leaves its parent where it was. */
  lemma ParentStays(fs: Fs, dest: Path, m: Member, parent: Path, node: Inode)
    requires MemberNames(m) != [] && ParentOf(fs, dest, m) == Some(parent) && parent in fs && fs[parent].Dir? && dest <= parent
    ensures var names := MemberNames(m);
      var step := Put(fs, parent + [names[|names| - 1]], node);
      step.outcome == Unpacked ==> ParentInside(step.after, dest, m, dest)
  {
    hide Resolve, MemberNames;
    var names := MemberNames(m);
    var place := parent + [names[|names| - 1]];
    if Open(fs, place, node) { StillLeads(fs, place, node, [], dest + names[..|names| - 1], MAX_SYMLINKS); }
  }

  /** Unpacked into an empty directory that is all of the disk, no member's parent is reached through a link
      that leads out of the tree. */
  predicate Tame(entries: seq<TarEntry>) {
    forall n | 0 <= n < |entries| && entries[n].Entry? ::
      ParentStaysHome(UnpackAll(EMPTY_DIR, AcceptedMembers(entries[..n]), PlainTar, []), entries[n].member)
  }

  /** Tame tarballs are unpacked alike everywhere. */
  lemma PlainTarIsPortable(entries: seq<TarEntry>, dest: Path)
    requires PlainNames(dest) && Tame(entries)
    ensures Portable(entries, PlainTar, dest)
  {
    hide TreeAt, Fresh, PlainTar, DoneBefore, UnpackAll, AcceptedMembers, EntryDone, Tidied, TarTree, ParentStaysHome;
    forall fs, n | 0 <= n < |entries| && Fresh(fs, dest) && DoneBefore(entries, n, PlainTar, fs, dest, dest)
      ensures TarTree(entries[..n], PlainTar, fs, dest) == TarTree(entries[..n], PlainTar, EMPTY_DIR, []) ==>
        SameAtHome(entries, n, PlainTar, fs, dest)
    {
      if TarTree(entries[..n], PlainTar, fs, dest) == TarTree(entries[..n], PlainTar, EMPTY_DIR, []) {
        PlainIsTidy(entries, n, fs, dest);
        EntryAlike(entries, n, fs, dest);
      }
    }
  }

  lemma MemberAlike(fs0: Fs, fs: Fs, dest: Path, m: Member)
    requires PlainNames(dest) && Tidied(fs0, fs, dest) && ParentStaysHome(TreeAt(fs, dest), m)
    ensures var home := TreeAt(fs, dest);
      && (MemberDone(fs, m, PlainTar, dest, dest) <==> MemberDone(home, m, PlainTar, [], []))
      && (MemberDone(fs, m, PlainTar, dest, dest) ==> TreeAt(PlainTar(fs, dest, m).after, dest) == PlainTar(home, [], m).after)
  {
    hide TreeAt, PlainTar, ParentStaysHome, ParentInside, LocalTo, WellFormed, MaskedModes, DirPath, PlainNames, IsDirectory;
    StepAlike(fs, dest, m);
  }

  lemma EntryAlike(entries: seq<TarEntry>, n: nat, fs: Fs, dest: Path)
    requires PlainNames(dest) && Tame(entries) && n < |entries|
    requires Tidied(fs, UnpackAll(fs, AcceptedMembers(entries[..n]), PlainTar, dest), dest)
    requires TarTree(entries[..n], PlainTar, fs, dest) == TarTree(entries[..n], PlainTar, EMPTY_DIR, [])
    ensures SameAtHome(entries, n, PlainTar, fs, dest)
  {
    hide TreeAt, PlainTar, UnpackAll, AcceptedMembers, ParentStaysHome, MemberDone, Accepted, Tidied, PlainNames, Bad, TarTree;
    var here, home := UnpackAll(fs, AcceptedMembers(entries[..n]), PlainTar, dest), TarTree(entries[..n], PlainTar, EMPTY_DIR, []);
    TarTreeMeans(entries[..n], fs, dest);
    TarTreeMeans(entries[..n], EMPTY_DIR, []);
    TreeAtHome(UnpackAll(EMPTY_DIR, AcceptedMembers(entries[..n]), PlainTar, []));
    TarTreeSnoc(entries, n, PlainTar, fs, dest);
    TarTreeSnoc(entries, n, PlainTar, EMPTY_DIR, []);
    BadNeedsAcceptance(entries[n]);
    if entries[n].Entry? && Accepted(entries[n].member) {
      MemberAlike(fs, here, dest, entries[n].member);
      TreeAtHome(PlainTar(home, [], entries[n].member).after);
    }
  }

  lemma TarTreeMeans(entries: seq<TarEntry>, fs: Fs, dest: Path)
    ensures TarTree(entries, PlainTar, fs, dest) == TreeAt(UnpackAll(fs, AcceptedMembers(entries), PlainTar, dest), dest)
  {
    hide TreeAt, UnpackAll, PlainTar;
  }

  lemma BadNeedsAcceptance(e: TarEntry)
    ensures !Bad(e) ==> e.Entry?
  {}

  // ---------- Tarballs without symbolic links ---------------------------------------------

  predicate NoLinks(t: Tree) {
    forall r | r in t :: !t[r].Link?
  }

  lemma {:induction false} NamesStayHome(t: Tree, at: Path, names: seq<string>, links: nat)
    requires NoLinks(t) && forall i | 0 <= i < |names| :: names[i] != ".."
    ensures StaysHome(t, at, names, links)
    decreases |names|
  {
    if names != [] {
      NamesStayHome(t, at, names[1..], links);
      NamesStayHome(t, at + [names[0]], names[1..], links);
    }
  }

  lemma {:induction false} NamesAreNoDots(parts: seq<string>)
    ensures forall i | 0 <= i < |PlainParts(parts)| :: PlainParts(parts)[i] != ".."
  {
    if parts != [] { NamesAreNoDots(parts[1..]); }
  }

  lemma NoLinkPut(fs: Fs, dest: Path, m: Member)
    requires NoLinks(fs) && !m.kind.Symlink?
    ensures NoLinks(PlainTar(fs, dest, m).after)
  {
    hide MemberNames, ParentOf;
  }

  lemma {:induction false} NoLinksMade(entries: seq<TarEntry>, n: nat)
    requires n <= |entries| && forall k | 0 <= k < n && entries[k].Entry? :: !entries[k].member.kind.Symlink?
    ensures NoLinks(UnpackAll(EMPTY_DIR, AcceptedMembers(entries[..n]), PlainTar, []))
  {
    hide Accepted, PlainTar, NoLinks, AcceptedMembers, UnpackAll;
    if n == 0 {
      NoLinksAtFirst(entries[..0]);
    } else {
      NoLinksMade(entries, n - 1);
      AcceptedSnoc(entries, n - 1);
      var members := AcceptedMembers(entries[..n - 1]);
      if entries[n - 1].Entry? && Accepted(entries[n - 1].member) {
        TraceSnoc(EMPTY_DIR, members, entries[n - 1].member, PlainTar, []);
        NoLinkPut(UnpackAll(EMPTY_DIR, members, PlainTar, []), [], entries[n - 1].member);
      } else {
        assert members + [] == members;
      }
    }
  }

  lemma NoLinksAtFirst(entries: seq<TarEntry>)
    requires entries == []
    ensures NoLinks(UnpackAll(EMPTY_DIR, AcceptedMembers(entries), PlainTar, []))
  {}

  /** A tarball without symbolic links is unpacked alike everywhere. */
  lemma LinklessIsPortable(entries: seq<TarEntry>, dest: Path)
    requires PlainNames(dest) && forall k | 0 <= k < |entries| && entries[k].Entry? :: !entries[k].member.kind.Symlink?
    ensures Portable(entries, PlainTar, dest)
  {
    hide PlainTar, UnpackAll, AcceptedMembers, StaysHome, MemberNames, Portable, NoLinks, PlainNames;
    forall n | 0 <= n < |entries| && entries[n].Entry?
      ensures ParentStaysHome(UnpackAll(EMPTY_DIR, AcceptedMembers(entries[..n]), PlainTar, []), entries[n].member)
    {
      NoLinksMade(entries, n);
      PathNames(entries[n].member);
      NamesAreNoDots(Split(entries[n].member.path, '/'));
      var names := MemberNames(entries[n].member);
      if names != [] {
        NamesStayHome(UnpackAll(EMPTY_DIR, AcceptedMembers(entries[..n]), PlainTar, []), [], names[..|names| - 1], MAX_SYMLINKS);
      }
    }
    PlainTarIsPortable(entries, dest);
  }

  /** It will do for every install in the default place, whatever the tarball. */
  lemma PlainTarInstalls(entries: seq<TarEntry>, zone: Name, runner: Name, version: Name, entry: Name)
    requires entry != "" && entry != "." && entry != ".."
    ensures TarWorks(entries, PlainTar, DefaultLayout(zone, runner, version, entry))
  {
    hide Contained;
    var l := DefaultLayout(zone, runner, version, entry);
    PlainNamesExactly(l.Staging());
    PlainTarIsContained(entries, l.Staging());
  }
}
