/** The extraction loop: filter each member, let the tar crate unpack it, then check where its
    parent directory really is. The tar crate is a parameter; nothing is assumed of it unless a
    contract says so. */
module Extraction {
  import opened Options
  import opened Text
  import opened FileTree
  import opened SafePaths
  import opened DiskModel

  datatype TarEntry = Broken | Entry(member: Member)

  datatype Outcome = Unpacked | Refused | Failed

  /** The states the disk passes through, the one it ends in, and what the crate reports. */
  datatype TarStep = TarStep(passing: seq<Fs>, after: Fs, outcome: Outcome)

  /** `tar::Entry::unpack_in`: any change to the disk, any outcome. */
  type Tar = (Fs, Path, Member) -> TarStep

  predicate Accepted(m: Member) {
    && !IsExtension(m.kind) && !m.kind.Char? && !m.kind.Block? && !m.kind.Fifo?
    && IsSafeRelativePath(m.path)
    && (m.kind.Symlink? || m.kind.HardLink? ==> IsSafeLink(m))
  }

  /** An entry that stops the extraction before anything is written for it. */
  predicate Bad(e: TarEntry) {
    e.Broken? || (!IsExtension(e.member.kind) && !Accepted(e.member))
  }

  function AcceptedMembers(entries: seq<TarEntry>): seq<Member> {
    if entries == [] then []
    else
      var e := entries[|entries| - 1];
      AcceptedMembers(entries[..|entries| - 1])
      + if e.Entry? && Accepted(e.member) then [e.member] else []
  }

  function MemberNames(m: Member): seq<string> {
    Normals(Components(m.path))
  }

  /** The names of its path, whatever `.` and slashes stand between them. */
  lemma PathNames(m: Member)
    ensures MemberNames(m) == PlainParts(Split(m.path, '/'))
  {
    hide Split;
    NormalsOfParts(Split(m.path, '/'), true);
    var cs := ComponentsOf(Split(m.path, '/'), true);
    assert Components(m.path) == cs || Components(m.path)[1..] == cs;
  }

  /** The member's parent directory, resolved in this state, is `root` or lies under it. */
  predicate ParentInside(fs: Fs, dest: Path, m: Member, root: Path) {
    var names := MemberNames(m);
    names != [] ==>
      var parent := Resolve(fs, [], dest + names[..|names| - 1], MAX_SYMLINKS);
      parent.Some? && root <= parent.value
  }

  /** Every state on disk while these members are unpacked in order, starting from `fs`. */
  function Trace(fs: Fs, members: seq<Member>, tar: Tar, dest: Path): seq<Fs> {
    if members == [] then []
    else
      var n := |members| - 1;
      var step := tar(UnpackAll(fs, members[..n], tar, dest), dest, members[n]);
      Trace(fs, members[..n], tar, dest) + step.passing + [step.after]
  }

  function UnpackAll(fs: Fs, members: seq<Member>, tar: Tar, dest: Path): Fs {
    if members == [] then fs
    else
      var n := |members| - 1;
      tar(UnpackAll(fs, members[..n], tar, dest), dest, members[n]).after
  }

  /** A file, a link or an empty directory: what `remove_file` or `remove_dir` takes. */
  predicate Removable(fs: Fs, p: Path) {
    p in fs && (fs[p].Dir? ==> forall q | q in fs && p <= q :: q == p)
  }

  /** Best-effort removal of an entry that escaped. */
  method RemoveEscaped(disk: Disk, p: Path)
    requires disk.Valid()
    modifies disk
    ensures disk.Valid() && disk.faults >= old(disk.faults)
    ensures disk.history == old(disk.history) || disk.history == old(disk.history) + [old(disk.fs) - {p}]
    ensures if Removable(old(disk.fs), p) then disk.faults == old(disk.faults) ==> p !in disk.fs
      else disk.history == old(disk.history)
  {
    if Removable(disk.fs, p) {
      var e := disk.Fault();
      if e == OK {
        disk.Commit(disk.fs - {p});
      }
    }
  }

  /** The member's parent resolves, but not under `root`. */
  predicate Escaped(fs: Fs, dest: Path, m: Member, root: Path) {
    var names := MemberNames(m);
    && names != []
    && var parent := Resolve(fs, [], dest + names[..|names| - 1], MAX_SYMLINKS);
    parent.Some? && !(root <= parent.value)
  }

  /** Where an escaped member really is. */
  function EscapedPath(fs: Fs, dest: Path, m: Member, root: Path): Path
    requires Escaped(fs, dest, m, root)
  {
    var names := MemberNames(m);
    Resolve(fs, [], dest + names[..|names| - 1], MAX_SYMLINKS).value + [names[|names| - 1]]
  }

  /** `verify_extracted_inside_dest`: what escaped is removed, if it can be, and nothing else. */
  method VerifyExtractedInsideDest(disk: Disk, canonDest: Path, dest: Path, m: Member) returns (e: Errno)
    requires disk.Valid()
    modifies disk
    ensures disk.Valid() && disk.faults >= old(disk.faults)
    ensures disk.history == old(disk.history) || (Escaped(old(disk.fs), dest, m, canonDest)
      && Removable(old(disk.fs), EscapedPath(old(disk.fs), dest, m, canonDest))
      && disk.history == old(disk.history) + [old(disk.fs) - {EscapedPath(old(disk.fs), dest, m, canonDest)}])
    ensures ParentDir !in Components(m.path) && Escaped(old(disk.fs), dest, m, canonDest)
      && Removable(old(disk.fs), EscapedPath(old(disk.fs), dest, m, canonDest)) && disk.faults == old(disk.faults)
      ==> EscapedPath(old(disk.fs), dest, m, canonDest) !in disk.fs
    ensures e == OK ==>
      disk.fs == old(disk.fs) && disk.history == old(disk.history) && disk.faults == old(disk.faults)
    ensures e == OK || e == EBADMSG
    ensures e == OK <==>
      ParentInside(old(disk.fs), dest, m, canonDest) && (MemberNames(m) == [] || ParentDir !in Components(m.path))
  {
    var names := MemberNames(m);
    if names == [] {
      return OK;
    }
    if ParentDir in Components(m.path) {
      return EBADMSG;
    }
    var parent := Resolve(disk.fs, [], dest + names[..|names| - 1], MAX_SYMLINKS);
    if parent.None? {
      return EBADMSG;
    }
    if !(canonDest <= parent.value) {
      RemoveEscaped(disk, parent.value + [names[|names| - 1]]);
      return EBADMSG;
    }
    return OK;
  }

  /** No name is empty, `.` or `..`. */
  predicate PlainNames(p: Path) {
    forall n | n in p :: Step(n) == 1
  }

  lemma PlainNamesExactly(p: Path)
    ensures PlainNames(p) <==> forall i | 0 <= i < |p| :: p[i] != "" && p[i] != "." && p[i] != ".."
  {
    if forall i | 0 <= i < |p| :: p[i] != "" && p[i] != "." && p[i] != ".." {
      forall n | n in p
        ensures Step(n) == 1
      {
        var i :| 0 <= i < |p| && p[i] == n;
      }
    }
    assert forall i | 0 <= i < |p| :: p[i] in p;
  }

  lemma {:induction false} ResolveRealPath(fs: Fs, p: Path, n: nat, links: nat)
    requires n <= |p| && DirPath(fs, p) && PlainNames(p)
    ensures Resolve(fs, p[..n], p[n..], links) == Some(p)
    decreases |p| - n
  {
    if n == |p| {
      assert p[..n] == p;
    } else {
      assert p[n..][0] == p[n] && p[n..][1..] == p[n + 1..];
      assert p[..n] + [p[n]] == Prefix(p, n + 1) && p[n] in p;
      ResolveRealPath(fs, p, n + 1, links);
    }
  }

  /** A path of real directories is its own canonical form. */
  lemma RealPathIsCanonical(fs: Fs, p: Path)
    requires DirPath(fs, p) && PlainNames(p)
    ensures Resolve(fs, [], p, MAX_SYMLINKS) == Some(p)
  {
    ResolveRealPath(fs, p, 0, MAX_SYMLINKS);
    assert p[..0] == [] && p[0..] == p;
  }

  lemma LocalKeepsPath(before: Fs, after: Fs, p: Path)
    requires LocalTo(before, after, p) && DirPath(before, p) && IsDirectory(TreeAt(after, p))
    ensures DirPath(after, p)
  {
    hide TreeAt, Without;
    assert p + [] == p;
    assert p in after && after[p] == TreeAt(after, p)[[]];
    forall n | 1 <= n <= |p|
      ensures Prefix(p, n) in after && after[Prefix(p, n)].Dir?
    {
      if n < |p| {
        assert Prefix(p, n) in Without(before, p) && Prefix(p, n) in Without(after, p);
      } else {
        assert Prefix(p, n) == p;
      }
    }
  }

  lemma AcceptedSnoc(entries: seq<TarEntry>, n: nat)
    requires n < |entries|
    ensures AcceptedMembers(entries[..n + 1]) == AcceptedMembers(entries[..n])
      + if entries[n].Entry? && Accepted(entries[n].member) then [entries[n].member] else []
  {
    assert entries[..n + 1][..n] == entries[..n];
  }

  // ---------- The extraction loop --------------------------------------------------

  /** The member is unpacked, and its parent is then where it should be. */
  predicate MemberDone(fs: Fs, m: Member, tar: Tar, dest: Path, root: Path) {
    var step := tar(fs, dest, m);
    step.outcome == Unpacked && ParentInside(step.after, dest, m, root)
  }

  /** Unpack one accepted member and check where it landed. */
  method UnpackMember(disk: Disk, m: Member, tar: Tar, dest: Path, canon: Path) returns (e: Errno, ghost extra: seq<Fs>)
    requires disk.Valid() && Accepted(m)
    modifies disk
    ensures disk.Valid() && disk.faults >= old(disk.faults) && disk.history == old(disk.history) + extra
    ensures e == OK <==> MemberDone(old(disk.fs), m, tar, dest, canon)
    ensures var step := tar(old(disk.fs), dest, m);
      if e == OK then extra == step.passing + [step.after] && disk.fs == step.after && disk.faults == old(disk.faults)
      else Leftover(old(disk.fs), Entry(m), tar, dest, canon, extra)
    ensures disk.faults == old(disk.faults) ==> TakenBack(old(disk.fs), Entry(m), tar, dest, canon, extra)
  {
    hide ParentInside, Resolve, Components, Accepted, Escaped, EscapedPath, Removable;
    ghost var before := disk.history;
    var step := tar(disk.fs, dest, m);
    disk.Rewrite(step.passing, step.after);
    extra := step.passing + [step.after];
    assert disk.history == before + extra;
    AcceptedIsNotBad(m);
    if step.outcome != Unpacked {
      return EBADMSG, extra;
    }
    AcceptedMeansAllowed(m);
    SafePathHasNoParent(m.path);
    EscapedIsOutside(step.after, dest, m, canon);
    ghost var unpacked := disk.history;
    e := VerifyExtractedInsideDest(disk, canon, dest, m);
    if disk.history != unpacked {
      ghost var p := EscapedPath(step.after, dest, m, canon);
      assert before + extra + [step.after - {p}] == before + (extra + [step.after - {p}]);
      extra := extra + [step.after - {p}];
    }
  }

  lemma EscapedIsOutside(fs: Fs, dest: Path, m: Member, root: Path)
    ensures Escaped(fs, dest, m, root) ==> !ParentInside(fs, dest, m, root)
    ensures Escaped(fs, dest, m, root) && Removable(fs, EscapedPath(fs, dest, m, root)) ==> EscapedPath(fs, dest, m, root) in fs
  {}

  lemma AcceptedIsNotBad(m: Member)
    requires Accepted(m)
    ensures !Bad(Entry(m))
  {}

  /** What an entry that is not done leaves on disk: nothing if it is bad, else the crate's own states and
      perhaps the removal of the member where it escaped to. */
  predicate Leftover(fs: Fs, e: TarEntry, tar: Tar, dest: Path, root: Path, extra: seq<Fs>) {
    if Bad(e) then extra == []
    else
      var step := tar(fs, dest, e.member);
      || extra == step.passing + [step.after]
      || (step.outcome == Unpacked && Escaped(step.after, dest, e.member, root)
          && Removable(step.after, EscapedPath(step.after, dest, e.member, root))
          && extra == step.passing + [step.after] + [step.after - {EscapedPath(step.after, dest, e.member, root)}])
  }

  /** An escaped member that can be removed is not left where it escaped to. */
  predicate TakenBack(fs: Fs, e: TarEntry, tar: Tar, dest: Path, root: Path, extra: seq<Fs>) {
    !Bad(e) ==>
      var step := tar(fs, dest, e.member);
      step.outcome == Unpacked && Escaped(step.after, dest, e.member, root) ==>
        var p := EscapedPath(step.after, dest, e.member, root);
        Removable(step.after, p) ==> extra == step.passing + [step.after] + [step.after - {p}]
  }

  /** What an extraction has done: the directories made first, how many entries were done, where the root
      really is, whether it stopped at the next entry, and what that left. */
  datatype Run = Run(made: seq<Fs>, done: nat, root: Path, stopped: bool, extra: seq<Fs>)

  /** The disk extraction starts from. */
  function Start(before: seq<Fs>, run: Run): Fs {
    var states := before + run.made;
    if states == [] then map[] else states[|states| - 1]
  }

  predicate EntryDone(entries: seq<TarEntry>, n: nat, tar: Tar, fs: Fs, dest: Path, root: Path)
    requires n < |entries|
  {
    && !Bad(entries[n])
    && (Accepted(entries[n].member) ==>
          MemberDone(UnpackAll(fs, AcceptedMembers(entries[..n]), tar, dest), entries[n].member, tar, dest, root))
  }

  /** Nothing to refuse, and the crate unpacks every accepted member after those before it, each with its
      parent then under `root`. */
  predicate GoodTarball(entries: seq<TarEntry>, tar: Tar, fs: Fs, dest: Path, root: Path) {
    forall n | 0 <= n < |entries| :: EntryDone(entries, n, tar, fs, dest, root)
  }

  /** The directories made before extraction begins. */
  ghost predicate Making(before: seq<Fs>, dest: Path, made: seq<Fs>) {
    before != [] && forall s | s in made :: MkdirsOf(before[|before| - 1], s, dest)
  }

  /** The states on disk since `before` are exactly: the directories made, the states of unpacking the
      accepted members among the done entries in order, and what the entry it stopped at left. The root
      is the canonical one. */
  ghost predicate Extracting(before: seq<Fs>, history: seq<Fs>, entries: seq<TarEntry>, tar: Tar, dest: Path, run: Run) {
    && Making(before, dest, run.made) && run.done <= |entries|
    && var fs, members := Start(before, run), AcceptedMembers(entries[..run.done]);
    && Resolve(fs, [], dest, MAX_SYMLINKS) == Some(run.root)
    && (forall n | 0 <= n < run.done :: EntryDone(entries, n, tar, fs, dest, run.root))
    && history == before + run.made + Trace(fs, members, tar, dest) + run.extra
    && if run.stopped then
         && run.done < |entries| && !EntryDone(entries, run.done, tar, fs, dest, run.root)
         && Leftover(UnpackAll(fs, members, tar, dest), entries[run.done], tar, dest, run.root, run.extra)
       else run.extra == []
  }

  lemma TraceSnoc(fs: Fs, members: seq<Member>, m: Member, tar: Tar, dest: Path)
    ensures var step := tar(UnpackAll(fs, members, tar, dest), dest, m);
      && Trace(fs, members + [m], tar, dest) == Trace(fs, members, tar, dest) + step.passing + [step.after]
      && UnpackAll(fs, members + [m], tar, dest) == step.after
  {
    assert (members + [m])[..|members|] == members;
  }

  lemma ExtractingBegins(before: seq<Fs>, history: seq<Fs>, entries: seq<TarEntry>, tar: Tar, dest: Path, root: Path)
      returns (run: Run)
    requires before != [] && before <= history
    requires forall i | |before| <= i < |history| :: MkdirsOf(before[|before| - 1], history[i], dest)
    requires Resolve(history[|history| - 1], [], dest, MAX_SYMLINKS) == Some(root)
    ensures Extracting(before, history, entries, tar, dest, run)
    ensures run == Run(history[|before|..], 0, root, false, [])
  {
    hide MkdirsOf, Resolve;
    run := Run(history[|before|..], 0, root, false, []);
    assert entries[..0] == [];
    assert before + run.made == history;
    assert history == before + run.made + Trace(Start(before, run), [], tar, dest) + [];
  }

  lemma ExtractingSkips(before: seq<Fs>, history: seq<Fs>, entries: seq<TarEntry>, tar: Tar, dest: Path, run: Run)
    requires Extracting(before, history, entries, tar, dest, run) && !run.stopped && run.done < |entries|
    requires entries[run.done].Entry? && IsExtension(entries[run.done].member.kind)
    ensures Extracting(before, history, entries, tar, dest, run.(done := run.done + 1))
  {
    hide Trace, Making, Resolve, MemberDone, UnpackAll, Leftover;
    AcceptedSnoc(entries, run.done);
    var members := AcceptedMembers(entries[..run.done]);
    assert members + [] == members;
  }

  lemma ExtractingUnpacks(before: seq<Fs>, history: seq<Fs>, entries: seq<TarEntry>, tar: Tar, dest: Path, run: Run)
    requires Extracting(before, history, entries, tar, dest, run) && !run.stopped && run.done < |entries|
    requires entries[run.done].Entry? && Accepted(entries[run.done].member)
    requires EntryDone(entries, run.done, tar, Start(before, run), dest, run.root)
    ensures var step := tar(UnpackAll(Start(before, run), AcceptedMembers(entries[..run.done]), tar, dest), dest, entries[run.done].member);
      Extracting(before, history + (step.passing + [step.after]), entries, tar, dest, run.(done := run.done + 1))
  {
    hide Trace, Making, Resolve, MemberDone, UnpackAll, Leftover, Accepted, Bad;
    var fs, members := Start(before, run), AcceptedMembers(entries[..run.done]);
    AcceptedSnoc(entries, run.done);
    TraceSnoc(fs, members, entries[run.done].member, tar, dest);
    var step := tar(UnpackAll(fs, members, tar, dest), dest, entries[run.done].member);
    var base, trace := before + run.made, Trace(fs, members, tar, dest);
    assert base + (trace + step.passing + [step.after]) + [] == base + trace + [] + (step.passing + [step.after]);
  }

  lemma ExtractingStops(before: seq<Fs>, history: seq<Fs>, entries: seq<TarEntry>, tar: Tar, dest: Path, run: Run, extra: seq<Fs>)
    requires Extracting(before, history, entries, tar, dest, run) && !run.stopped && run.done < |entries|
    requires !EntryDone(entries, run.done, tar, Start(before, run), dest, run.root)
    requires Leftover(UnpackAll(Start(before, run), AcceptedMembers(entries[..run.done]), tar, dest), entries[run.done],
                      tar, dest, run.root, extra)
    ensures Extracting(before, history + extra, entries, tar, dest, run.(stopped := true, extra := extra))
  {
    hide Trace, Making, Resolve, EntryDone, UnpackAll, Leftover, AcceptedMembers;
    var base := before + run.made + Trace(Start(before, run), AcceptedMembers(entries[..run.done]), tar, dest);
    assert base + [] == base;
  }

  lemma {:induction false} LastOfTrace(fs: Fs, members: seq<Member>, tar: Tar, dest: Path)
    ensures ([fs] + Trace(fs, members, tar, dest))[|Trace(fs, members, tar, dest)|] == UnpackAll(fs, members, tar, dest)
  {}

  lemma ExtractingEndsAt(before: seq<Fs>, history: seq<Fs>, entries: seq<TarEntry>, tar: Tar, dest: Path, run: Run)
    requires Extracting(before, history, entries, tar, dest, run) && !run.stopped
    ensures history != []
      && history[|history| - 1] == UnpackAll(Start(before, run), AcceptedMembers(entries[..run.done]), tar, dest)
  {
    hide Resolve, EntryDone, Leftover;
    LastOfTrace(Start(before, run), AcceptedMembers(entries[..run.done]), tar, dest);
  }

  /** One turn of the extraction loop. */
  method ExtractEntry(disk: Disk, entries: seq<TarEntry>, tar: Tar, dest: Path, canon: Path, ghost before: seq<Fs>,
                      n: nat, ghost run: Run) returns (e: Errno, ghost after: Run)
    requires disk.Valid() && run.done == n < |entries| && run.root == canon && !run.stopped
    requires Extracting(before, disk.history, entries, tar, dest, run)
    modifies disk
    ensures disk.Valid() && disk.faults >= old(disk.faults) && old(disk.history) <= disk.history
    ensures after.made == run.made && after.root == canon && (after.stopped <==> e != OK)
    ensures Extracting(before, disk.history, entries, tar, dest, after)
    ensures e == OK ==> after.done == n + 1 && disk.faults == old(disk.faults)
    ensures e != OK ==> after.done == n
    ensures e != OK && disk.faults == old(disk.faults) ==>
      TakenBack(UnpackAll(Start(before, run), AcceptedMembers(entries[..n]), tar, dest), entries[n], tar, dest, canon, after.extra)
  {
    hide Accepted, Components, Extracting, UnpackAll, Trace, MemberDone, Leftover, TakenBack;
    ExtractingEndsAt(before, disk.history, entries, tar, dest, run);
    ghost var states, fs := disk.history, disk.fs;
    BadLeavesNothing(fs, entries, n, tar, Start(before, run), dest, canon);
    if entries[n].Broken? {
      ExtractingStops(before, states, entries, tar, dest, run, []);
      assert states + [] == states;
      return EIO, run.(stopped := true, extra := []);
    }
    var m := entries[n].member;
    var d := SafeMemberFilter(m);
    AcceptedMeansAllowed(m);
    match d {
      case Reject =>
        ExtractingStops(before, states, entries, tar, dest, run, []);
        assert states + [] == states;
        return EBADMSG, run.(stopped := true, extra := []);
      case Skip =>
        ExtractingSkips(before, states, entries, tar, dest, run);
        return OK, run.(done := n + 1);
      case Allow =>
        ghost var extra := [];
        e, extra := UnpackMember(disk, m, tar, dest, canon);
        AcceptedIsNotBad(m);
        if e == OK {
          ExtractingUnpacks(before, states, entries, tar, dest, run);
          after := run.(done := n + 1);
        } else {
          ExtractingStops(before, states, entries, tar, dest, run, extra);
          after := run.(stopped := true, extra := extra);
        }
    }
  }

  lemma BadLeavesNothing(fs: Fs, entries: seq<TarEntry>, n: nat, tar: Tar, start: Fs, dest: Path, root: Path)
    requires n < |entries|
    ensures Bad(entries[n]) ==> Leftover(fs, entries[n], tar, dest, root, []) && !EntryDone(entries, n, tar, start, dest, root)
    ensures Bad(entries[n]) ==> TakenBack(fs, entries[n], tar, dest, root, [])
  {
    hide Accepted;
  }

  /** Extraction has not begun: the directory could not be made, or not be resolved. */
  ghost predicate NotBegun(before: seq<Fs>, history: seq<Fs>, dest: Path, run: Run) {
    Making(before, dest, run.made) && history == before + run.made
  }

  /** `extract_tarball_from_file`. On success every entry was done: none bad, each accepted member unpacked
      and its parent then under the canonical root. On failure it has not begun, or it stopped at an entry
      that was not done, and nothing of any later entry is on disk. */
  method ExtractTarball(disk: Disk, entries: seq<TarEntry>, tar: Tar, dest: Path) returns (e: Errno, ghost run: Run)
    requires disk.Valid()
    modifies disk
    ensures disk.Valid() && disk.faults >= old(disk.faults) && old(disk.history) <= disk.history
    ensures DirPath(old(disk.fs), dest) ==> run.made == []
    ensures e == OK ==>
      && Extracting(old(disk.history), disk.history, entries, tar, dest, run) && run.done == |entries| && !run.stopped
      && disk.fs == UnpackAll(Start(old(disk.history), run), AcceptedMembers(entries), tar, dest)
      && GoodTarball(entries, tar, Start(old(disk.history), run), dest, run.root)
    ensures e != OK ==>
      || (Extracting(old(disk.history), disk.history, entries, tar, dest, run) && run.stopped)
      || (NotBegun(old(disk.history), disk.history, dest, run)
          && (disk.faults > old(disk.faults) || !OnlyDirs(old(disk.fs), dest)
              || Resolve(disk.fs, [], dest, MAX_SYMLINKS).None?))
    ensures e == OK || run.stopped ==> DirPath(Start(old(disk.history), run), dest)
    ensures e == OK ==> disk.faults == old(disk.faults)
    ensures run.stopped && run.done < |entries| && disk.faults == old(disk.faults) ==>
      TakenBack(UnpackAll(Start(old(disk.history), run), AcceptedMembers(entries[..run.done]), tar, dest), entries[run.done],
                tar, dest, run.root, run.extra)
  {
    hide Resolve, Accepted, DirPath, OnlyDirs, Components, Extracting, MkdirsOf, UnpackAll, Trace, EntryDone, GoodTarball, TakenBack;
    ghost var before := disk.history;
    e := disk.CreateDirAll(dest);
    ghost var made := disk.history[|before|..];
    assert before + made == disk.history;
    run := Run(made, 0, [], false, []);
    if e != OK {
      return;
    }
    var canon := Resolve(disk.fs, [], dest, MAX_SYMLINKS);
    if canon.None? {
      return EBADMSG, run;
    }
    run := ExtractingBegins(before, disk.history, entries, tar, dest, canon.value);
    for n := 0 to |entries|
      invariant disk.Valid() && disk.faults == old(disk.faults) && before <= disk.history
      invariant DirPath(Start(before, run), dest)
      invariant run.done == n && run.root == canon.value && !run.stopped && run.made == made
      invariant Extracting(before, disk.history, entries, tar, dest, run)
    {
      e, run := ExtractEntry(disk, entries, tar, dest, canon.value, before, n, run);
      if e != OK {
        return;
      }
    }
    ExtractingEndsAt(before, disk.history, entries, tar, dest, run);
    AllDoneIsGood(before, disk.history, entries, tar, dest, run);
    assert entries[..|entries|] == entries;
    return OK, run;
  }

  lemma AllDoneIsGood(before: seq<Fs>, history: seq<Fs>, entries: seq<TarEntry>, tar: Tar, dest: Path, run: Run)
    requires Extracting(before, history, entries, tar, dest, run) && run.done == |entries|
    ensures GoodTarball(entries, tar, Start(before, run), dest, run.root)
  {
    hide Resolve, Trace, UnpackAll, AcceptedMembers, Making, Leftover, EntryDone;
  }

  /** Nothing is written for a bad entry nor for any entry after it: the states on disk are those of the
      members of done entries before it, and perhaps of one failing member before it. */
  lemma NothingAfterBad(before: seq<Fs>, history: seq<Fs>, entries: seq<TarEntry>, tar: Tar, dest: Path, run: Run, bad: nat)
    requires Extracting(before, history, entries, tar, dest, run) && bad < |entries| && Bad(entries[bad])
    ensures run.done <= bad && (run.done == bad ==> run.extra == [])
    ensures run.extra != [] ==>
      && run.done < bad
      && Leftover(UnpackAll(Start(before, run), AcceptedMembers(entries[..run.done]), tar, dest), entries[run.done],
                  tar, dest, run.root, run.extra)
    ensures history == before + run.made + Trace(Start(before, run), AcceptedMembers(entries[..run.done]), tar, dest) + run.extra
  {
    hide Resolve, Trace, UnpackAll, AcceptedMembers, Making, MemberDone, Accepted;
    assert run.done > bad ==> EntryDone(entries, bad, tar, Start(before, run), dest, run.root);
  }

  /** On success every accepted member had its parent, resolved right after it was written, under the
      canonical extraction root. */
  lemma EveryParentInside(before: seq<Fs>, history: seq<Fs>, entries: seq<TarEntry>, tar: Tar, dest: Path, run: Run, n: nat)
    requires Extracting(before, history, entries, tar, dest, run) && n < run.done
    requires entries[n].Entry? && Accepted(entries[n].member)
    ensures var fs := Start(before, run);
      && Resolve(fs, [], dest, MAX_SYMLINKS) == Some(run.root)
      && var names := PlainParts(Split(entries[n].member.path, '/'));
      names != [] ==>
        var now := UnpackAll(fs, AcceptedMembers(entries[..n + 1]), tar, dest);
        var parent := Resolve(now, [], dest + names[..|names| - 1], MAX_SYMLINKS);
        parent.Some? && run.root <= parent.value
  {
    hide Resolve, Trace, Making, Leftover, Accepted, Bad, Split;
    PathNames(entries[n].member);
    var fs := Start(before, run);
    assert EntryDone(entries, n, tar, fs, dest, run.root);
    AcceptedSnoc(entries, n);
    TraceSnoc(fs, AcceptedMembers(entries[..n]), entries[n].member, tar, dest);
  }

  // ---------- Into an empty directory ----------------------------------------------

  const PRIVATE_DIR_MODE: nat := 0x1C0 // 0o700

  const EMPTY_DIR: Tree := map[[] := Dir(PRIVATE_DIR_MODE)]

  /** An empty private directory at `dest`, on whatever disk. */
  predicate Fresh(fs: Fs, dest: Path) {
    DirPath(fs, dest) && TreeAt(fs, dest) == EMPTY_DIR
  }

  /** The tree this tarball makes at `dest`. */
  function TarTree(entries: seq<TarEntry>, tar: Tar, fs: Fs, dest: Path): Tree {
    TreeAt(UnpackAll(fs, AcceptedMembers(entries), tar, dest), dest)
  }

  predicate DoneBefore(entries: seq<TarEntry>, n: nat, tar: Tar, fs: Fs, dest: Path, root: Path)
    requires n <= |entries|
  {
    forall k | 0 <= k < n :: EntryDone(entries, k, tar, fs, dest, root)
  }

  /** The crate works under `dest` only and keeps the directory; a success leaves a well-formed tree with
      masked modes, and the member's parent not elsewhere. */
  predicate StepInside(fs: Fs, dest: Path, m: Member, tar: Tar) {
    var step := tar(fs, dest, m);
    && (forall s | s in step.passing :: LocalTo(fs, s, dest))
    && LocalTo(fs, step.after, dest) && IsDirectory(TreeAt(step.after, dest))
    && (step.outcome == Unpacked ==>
          && WellFormed(TreeAt(step.after, dest)) && MaskedModes(TreeAt(step.after, dest))
          && !Escaped(step.after, dest, m, dest))
  }

  /** All that is ever assumed of the crate, and of this tarball only: begun in an empty private directory,
      whatever else is on the disk, and as long as every entry was done, it unpacks the next member inside. */
  ghost predicate Contained(entries: seq<TarEntry>, tar: Tar, dest: Path) {
    forall fs, n | 0 <= n < |entries| && Fresh(fs, dest) && DoneBefore(entries, n, tar, fs, dest, dest) ::
      entries[n].Entry? && Accepted(entries[n].member) ==>
        StepInside(UnpackAll(fs, AcceptedMembers(entries[..n]), tar, dest), dest, entries[n].member, tar)
  }

  lemma LocalToSelf(fs: Fs, p: Path)
    ensures IsDirectory(TreeAt(fs, p)) ==> LocalTo(fs, fs, p)
  {}

  lemma LocalToTrans(a: Fs, b: Fs, c: Fs, p: Path)
    requires LocalTo(a, b, p) && LocalTo(b, c, p)
    ensures LocalTo(a, c, p)
  {}

  /** `fs` differs from `fs0` under `dest` only, where there is a well-formed tree with masked modes. */
  predicate Tidied(fs0: Fs, fs: Fs, dest: Path) {
    && LocalTo(fs0, fs, dest) && DirPath(fs, dest) && IsDirectory(TreeAt(fs, dest))
    && WellFormed(TreeAt(fs, dest)) && MaskedModes(TreeAt(fs, dest))
  }

  lemma FreshIsTidy(fs: Fs, dest: Path)
    requires Fresh(fs, dest)
    ensures Tidied(fs, fs, dest)
  {
    hide TreeAt, Without, DirPath;
    LocalToSelf(fs, dest);
  }

  lemma StepIsTidy(fs0: Fs, fs: Fs, dest: Path, m: Member, tar: Tar)
    requires Tidied(fs0, fs, dest) && StepInside(fs, dest, m, tar)
    ensures var step := tar(fs, dest, m);
      && (forall s | s in step.passing :: LocalTo(fs0, s, dest)) && LocalTo(fs0, step.after, dest)
      && (step.outcome == Unpacked ==> Tidied(fs0, step.after, dest) && !Escaped(step.after, dest, m, dest))
  {
    hide TreeAt, Without, LocalTo, IsDirectory, WellFormed, MaskedModes, DirPath, Escaped;
    var step := tar(fs, dest, m);
    forall s | LocalTo(fs, s, dest)
      ensures LocalTo(fs0, s, dest)
    {
      LocalToTrans(fs0, fs, s, dest);
    }
    LocalKeepsPath(fs, step.after, dest);
  }

  /** As long as the entries are done, the disk differs under `dest` only, in every state. */
  lemma {:induction false} DoneIsTidy(entries: seq<TarEntry>, n: nat, tar: Tar, fs: Fs, dest: Path)
    requires Contained(entries, tar, dest) && Fresh(fs, dest) && n <= |entries| && DoneBefore(entries, n, tar, fs, dest, dest)
    ensures Tidied(fs, UnpackAll(fs, AcceptedMembers(entries[..n]), tar, dest), dest)
    ensures forall s | s in Trace(fs, AcceptedMembers(entries[..n]), tar, dest) :: LocalTo(fs, s, dest)
  {
    hide LocalTo, Tidied, EntryDone, Fresh, StepInside, Accepted;
    if n == 0 {
      FreshIsTidy(fs, dest);
      assert entries[..0] == [];
    } else {
      DoneIsTidy(entries, n - 1, tar, fs, dest);
      OneMoreIsTidy(entries, n - 1, tar, fs, dest);
    }
  }

  lemma OneMoreIsTidy(entries: seq<TarEntry>, n: nat, tar: Tar, fs: Fs, dest: Path)
    requires n < |entries| && EntryDone(entries, n, tar, fs, dest, dest)
    requires entries[n].Entry? && Accepted(entries[n].member) ==>
      StepInside(UnpackAll(fs, AcceptedMembers(entries[..n]), tar, dest), dest, entries[n].member, tar)
    requires Tidied(fs, UnpackAll(fs, AcceptedMembers(entries[..n]), tar, dest), dest)
    requires forall s | s in Trace(fs, AcceptedMembers(entries[..n]), tar, dest) :: LocalTo(fs, s, dest)
    ensures Tidied(fs, UnpackAll(fs, AcceptedMembers(entries[..n + 1]), tar, dest), dest)
    ensures forall s | s in Trace(fs, AcceptedMembers(entries[..n + 1]), tar, dest) :: LocalTo(fs, s, dest)
  {
    hide LocalTo, Tidied, Trace, UnpackAll, AcceptedMembers, StepInside, ParentInside, Accepted;
    var members := AcceptedMembers(entries[..n]);
    AcceptedSnoc(entries, n);
    if entries[n].Entry? && Accepted(entries[n].member) {
      StepIsTidy(fs, UnpackAll(fs, members, tar, dest), dest, entries[n].member, tar);
      TraceSnoc(fs, members, entries[n].member, tar, dest);
    } else {
      assert members + [] == members;
    }
  }

  /** Into an empty private directory nothing outside changes, in any state; the extraction comes to its
      end exactly for good tarballs, and then leaves a tidy tree. */
  lemma QuietExtraction(before: seq<Fs>, history: seq<Fs>, entries: seq<TarEntry>, tar: Tar, dest: Path, run: Run)
    requires Contained(entries, tar, dest) && PlainNames(dest)
    requires Extracting(before, history, entries, tar, dest, run) && run.made == []
    requires run.stopped || run.done == |entries|
    requires Fresh(before[|before| - 1], dest)
    ensures forall i | |before| <= i < |history| :: LocalTo(before[|before| - 1], history[i], dest)
    ensures run.root == dest && (run.stopped <==> !GoodTarball(entries, tar, before[|before| - 1], dest, dest))
    ensures !run.stopped ==>
      && history != [] && TreeAt(history[|history| - 1], dest) == TarTree(entries, tar, before[|before| - 1], dest)
      && Tidied(before[|before| - 1], history[|history| - 1], dest)
  {
    hide TreeAt, Contained, UnpackAll, Trace, Resolve, EntryDone, Leftover, LocalTo, AcceptedMembers, Tidied;
    var fs, members := before[|before| - 1], AcceptedMembers(entries[..run.done]);
    assert before + run.made == before;
    RealPathIsCanonical(fs, dest);
    DoneIsTidy(entries, run.done, tar, fs, dest);
    if run.stopped {
      StoppedInside(entries, run.done, tar, fs, dest, run.extra);
    } else {
      ExtractingEndsAt(before, history, entries, tar, dest, run);
      assert entries[..|entries|] == entries;
    }
    StatesSince(before, Trace(fs, members, tar, dest), run.extra, history, fs, dest);
  }

  lemma StatesSince(before: seq<Fs>, trace: seq<Fs>, extra: seq<Fs>, history: seq<Fs>, fs: Fs, dest: Path)
    requires history == before + trace + extra
    requires (forall s | s in trace :: LocalTo(fs, s, dest)) && (forall s | s in extra :: LocalTo(fs, s, dest))
    ensures forall i | |before| <= i < |history| :: LocalTo(fs, history[i], dest)
  {
    hide LocalTo;
    assert forall i | |before| <= i < |history| :: history[i] in trace || history[i] in extra;
  }

  lemma StoppedInside(entries: seq<TarEntry>, n: nat, tar: Tar, fs: Fs, dest: Path, extra: seq<Fs>)
    requires Contained(entries, tar, dest) && Fresh(fs, dest) && n < |entries| && DoneBefore(entries, n, tar, fs, dest, dest)
    requires var now := UnpackAll(fs, AcceptedMembers(entries[..n]), tar, dest);
      Tidied(fs, now, dest) && Leftover(now, entries[n], tar, dest, dest, extra)
    requires !EntryDone(entries, n, tar, fs, dest, dest)
    ensures forall s | s in extra :: LocalTo(fs, s, dest)
  {
    hide TreeAt, Fresh, UnpackAll, AcceptedMembers, Tidied, LocalTo, Escaped, EscapedPath, DoneBefore, StepInside, ParentInside;
    var now := UnpackAll(fs, AcceptedMembers(entries[..n]), tar, dest);
    if !Bad(entries[n]) && Accepted(entries[n].member) {
      StepIsTidy(fs, now, dest, entries[n].member, tar);
    }
  }

  // ---------- The same tree anywhere -------------------------------------------------

  /** What becomes of this entry here is what becomes of it in an empty directory that is all of the disk. */
  predicate SameAtHome(entries: seq<TarEntry>, n: nat, tar: Tar, fs: Fs, dest: Path)
    requires n < |entries|
  {
    && (EntryDone(entries, n, tar, fs, dest, dest) <==> EntryDone(entries, n, tar, EMPTY_DIR, [], []))
    && (EntryDone(entries, n, tar, fs, dest, dest) ==>
          TarTree(entries[..n + 1], tar, fs, dest) == TarTree(entries[..n + 1], tar, EMPTY_DIR, []))
  }

  /** The crate does not look at the rest of the disk while it unpacks this tarball: as long as it has made
      the same tree, it deals alike with the next member. */
  ghost predicate Portable(entries: seq<TarEntry>, tar: Tar, dest: Path) {
    forall fs, n | 0 <= n < |entries| && Fresh(fs, dest) && DoneBefore(entries, n, tar, fs, dest, dest) ::
      TarTree(entries[..n], tar, fs, dest) == TarTree(entries[..n], tar, EMPTY_DIR, []) ==> SameAtHome(entries, n, tar, fs, dest)
  }

  lemma TarTreeSnoc(entries: seq<TarEntry>, n: nat, tar: Tar, fs: Fs, dest: Path)
    requires n < |entries|
    ensures TarTree(entries[..n + 1], tar, fs, dest) ==
      if entries[n].Entry? && Accepted(entries[n].member) then
        TreeAt(tar(UnpackAll(fs, AcceptedMembers(entries[..n]), tar, dest), dest, entries[n].member).after, dest)
      else TarTree(entries[..n], tar, fs, dest)
  {
    hide TreeAt, Accepted, AcceptedMembers, UnpackAll;
    var members := AcceptedMembers(entries[..n]);
    AcceptedSnoc(entries, n);
    if entries[n].Entry? && Accepted(entries[n].member) {
      TraceSnoc(fs, members, entries[n].member, tar, dest);
    } else {
      assert members + [] == members;
    }
  }

  lemma TreeAtHome(t: Tree)
    ensures TreeAt(t, []) == t
  {
    assert forall q: Path :: [] + q == q;
    assert forall q | q in t :: q in TreeAt(t, []);
  }

  /** A portable tarball is good wherever it is, or nowhere, and makes the same tree everywhere. */
  lemma TarTreeAnywhere(entries: seq<TarEntry>, tar: Tar, fs: Fs, dest: Path)
    requires Portable(entries, tar, dest) && Fresh(fs, dest)
    ensures GoodTarball(entries, tar, fs, dest, dest) <==> GoodTarball(entries, tar, EMPTY_DIR, [], [])
    ensures GoodTarball(entries, tar, fs, dest, dest) ==> TarTree(entries, tar, fs, dest) == TarTree(entries, tar, EMPTY_DIR, [])
  {
    hide Portable, EntryDone, TarTree, Fresh;
    var n := SameSoFar(entries, |entries|, tar, fs, dest);
    assert entries[..|entries|] == entries;
  }

  /** Alike up to the end, or to the first entry that is done in neither place. */
  lemma {:induction false} SameSoFar(entries: seq<TarEntry>, n: nat, tar: Tar, fs: Fs, dest: Path) returns (k: nat)
    requires Portable(entries, tar, dest) && Fresh(fs, dest) && n <= |entries|
    ensures k <= n && DoneBefore(entries, k, tar, fs, dest, dest) && DoneBefore(entries, k, tar, EMPTY_DIR, [], [])
    ensures TarTree(entries[..k], tar, fs, dest) == TarTree(entries[..k], tar, EMPTY_DIR, [])
    ensures k < n ==> !EntryDone(entries, k, tar, fs, dest, dest) && !EntryDone(entries, k, tar, EMPTY_DIR, [], [])
  {
    hide EntryDone, TarTree, Fresh;
    if n == 0 {
      NothingYet(entries[..0], tar, fs, dest);
      k := 0;
    } else {
      k := SameSoFar(entries, n - 1, tar, fs, dest);
      if k == n - 1 && EntryDone(entries, k, tar, fs, dest, dest) {
        assert SameAtHome(entries, k, tar, fs, dest);
        k := n;
      } else if k == n - 1 {
        assert SameAtHome(entries, k, tar, fs, dest);
      }
    }
  }

  lemma NothingYet(entries: seq<TarEntry>, tar: Tar, fs: Fs, dest: Path)
    requires entries == [] && Fresh(fs, dest)
    ensures TarTree(entries, tar, fs, dest) == TarTree(entries, tar, EMPTY_DIR, [])
  {
    hide TreeAt;
    TreeAtHome(EMPTY_DIR);
  }

  lemma AcceptedMeansAllowed(m: Member)
    ensures Accepted(m) <==>
      && !IsExtension(m.kind) && !m.kind.Char? && !m.kind.Block? && !m.kind.Fifo?
      && IsSafeRelativePath(m.path)
      && (m.kind.Symlink? || m.kind.HardLink? ==> IsSafeLink(m))
  {}
}
